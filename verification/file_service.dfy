/** The index-based editor state (src/app/services/file.service.ts): the
    project's file records, the open files, the current file and the index
    of the active open file (-1 when none). */
module FileService {
  import opened Wrappers
  import opened Models
  import Seqs

  datatype EditorState = EditorState(
    files: seq<FileNode>,
    openFiles: seq<FileNode>,
    currentFile: Option<FileNode>,
    activeFileIndex: int)

  const Initial := EditorState([], [], None, -1)

  function Max(a: int, b: int): int {
    if a >= b then a else b
  }

  /** `findIndex(f => f.path === path)`. */
  function PathIndex(files: seq<FileNode>, path: string): int {
    Seqs.FindIndex(files, (f: FileNode) => f.path == path)
  }

  /** Some element of `files` has this path. */
  predicate HasPath(files: seq<FileNode>, path: string) {
    exists i :: 0 <= i < |files| && files[i].path == path
  }

  /** `k` is the first element of `files` with this path. */
  predicate FirstWithPath(files: seq<FileNode>, path: string, k: int) {
    0 <= k < |files| && files[k].path == path && forall j :: 0 <= j < k ==> files[j].path != path
  }

  /** `array.splice(start, 1)`: a negative start counts from the end (and
      is clamped at 0); a start past the end removes nothing. */
  function SpliceOne<T>(s: seq<T>, start: int): (r: seq<T>)
    ensures 0 <= start < |s| ==> r == Seqs.RemoveAt(s, start)
    ensures |s| <= start ==> r == s
    ensures start < 0 && |s| > 0 ==> |r| == |s| - 1
  {
    var k := if start < 0 then Max(|s| + start, 0) else start;
    if k < |s| then Seqs.RemoveAt(s, k) else s
  }

  /** The state invariant: the active index is -1 exactly when nothing is
      open and a valid index otherwise, a current file exists exactly when
      something is open, and no path is open twice. */
  ghost predicate Valid(s: EditorState) {
    && (s.activeFileIndex == -1 <==> |s.openFiles| == 0)
    && (|s.openFiles| > 0 ==> 0 <= s.activeFileIndex < |s.openFiles|)
    && (s.currentFile.None? <==> |s.openFiles| == 0)
    && (forall i, j :: 0 <= i < j < |s.openFiles| ==> s.openFiles[i].path != s.openFiles[j].path)
  }

  /** `openFile(file)`: a new path is appended and becomes active; an open
      path becomes active where it is. Either way the argument itself
      becomes the current file. */
  function OpenFile(s: EditorState, file: FileNode): (r: EditorState)
    ensures !HasPath(s.openFiles, file.path) ==>
      r.openFiles == s.openFiles + [file] && r.activeFileIndex == |r.openFiles| - 1
    ensures forall k :: FirstWithPath(s.openFiles, file.path, k) ==>
      r.openFiles == s.openFiles && r.activeFileIndex == k
    ensures r.currentFile == Some(file) && r.files == s.files
  {
    var index := PathIndex(s.openFiles, file.path);
    if index == -1 then
      s.(openFiles := s.openFiles + [file], activeFileIndex := |s.openFiles|, currentFile := Some(file))
    else
      s.(activeFileIndex := index, currentFile := Some(file))
  }

  /** `closeFile(index)`: splices out the element at `index`; closing at or
      before the active index moves the active index one back (not below
      0), and the current file follows it. */
  function CloseFile(s: EditorState, index: int): (r: EditorState)
    ensures 0 <= index < |s.openFiles| ==> r.openFiles == Seqs.RemoveAt(s.openFiles, index)
    ensures r.files == s.files
    ensures |r.openFiles| == 0 ==> r.activeFileIndex == -1 && r.currentFile == None
    ensures |r.openFiles| > 0 && index <= s.activeFileIndex ==>
      r.activeFileIndex == Max(0, s.activeFileIndex - 1) &&
      (r.activeFileIndex < |r.openFiles| ==> r.currentFile == Some(r.openFiles[r.activeFileIndex]))
    ensures |r.openFiles| > 0 && index > s.activeFileIndex ==>
      r.activeFileIndex == s.activeFileIndex && r.currentFile == s.currentFile
  {
    var openFiles := SpliceOne(s.openFiles, index);
    if |openFiles| == 0 then
      s.(openFiles := openFiles, activeFileIndex := -1, currentFile := None)
    else if index <= s.activeFileIndex then
      var a := Max(0, s.activeFileIndex - 1);
      // an index past the end reads `undefined`, which the model takes as no file
      s.(openFiles := openFiles, activeFileIndex := a,
         currentFile := if a < |openFiles| then Some(openFiles[a]) else None)
    else
      s.(openFiles := openFiles)
  }

  /** `addFile(file)`: appends a record; the open files are untouched. */
  function AddFile(s: EditorState, file: FileNode): (r: EditorState)
    ensures r.files == s.files + [file]
    ensures r.openFiles == s.openFiles && r.activeFileIndex == s.activeFileIndex && r.currentFile == s.currentFile
  {
    s.(files := s.files + [file])
  }

  /** `updateFile(file)`: replaces the first record with the file's path;
      if that path is open, replaces it there too, and if it is the active
      one it becomes the current file. A path without a record changes
      nothing, even when it is open. */
  function UpdateFile(s: EditorState, file: FileNode): (r: EditorState)
    ensures !HasPath(s.files, file.path) ==> r == s
    ensures r.activeFileIndex == s.activeFileIndex
    ensures |r.files| == |s.files| && |r.openFiles| == |s.openFiles|
    ensures forall k :: FirstWithPath(s.files, file.path, k) ==>
      && r.files[k] == file
      && (forall j :: 0 <= j < |s.files| && j != k ==> r.files[j] == s.files[j])
      && (!HasPath(s.openFiles, file.path) ==> r.openFiles == s.openFiles && r.currentFile == s.currentFile)
      && (forall m :: FirstWithPath(s.openFiles, file.path, m) ==>
            && r.openFiles[m] == file
            && (forall j :: 0 <= j < |s.openFiles| && j != m ==> r.openFiles[j] == s.openFiles[j])
            && r.currentFile == (if s.activeFileIndex == m then Some(file) else s.currentFile))
  {
    var index := PathIndex(s.files, file.path);
    if index == -1 then s
    else
      var files := s.files[index := file];
      var openIndex := PathIndex(s.openFiles, file.path);
      if openIndex == -1 then s.(files := files)
      else
        s.(files := files,
           openFiles := s.openFiles[openIndex := file],
           currentFile := if s.activeFileIndex == openIndex then Some(file) else s.currentFile)
  }

  /** `deleteFile(path)`: drops every record with that path and closes the
      path's tab if it is open. */
  function DeleteFile(s: EditorState, path: string): (r: EditorState)
    ensures forall f :: f in r.files <==> f in s.files && f.path != path
    ensures !HasPath(s.openFiles, path) ==>
      r.openFiles == s.openFiles && r.activeFileIndex == s.activeFileIndex && r.currentFile == s.currentFile
    ensures forall k :: FirstWithPath(s.openFiles, path, k) ==>
      && r.openFiles == Seqs.RemoveAt(s.openFiles, k)
      && r.activeFileIndex == CloseFile(s, k).activeFileIndex
      && r.currentFile == CloseFile(s, k).currentFile
  {
    var s1 := s.(files := Seqs.Filter(s.files, (f: FileNode) => f.path != path));
    var openIndex := PathIndex(s1.openFiles, path);
    if openIndex == -1 then s1 else CloseFile(s1, openIndex)
  }

  lemma InitialValid()
    ensures Valid(Initial)
  {
  }

  /** Opening keeps the invariant: in particular no path is opened twice. */
  lemma OpenFilePreservesValid(s: EditorState, file: FileNode)
    requires Valid(s)
    ensures Valid(OpenFile(s, file))
  {
  }

  /** Closing at any index, even one out of range, keeps the invariant. */
  lemma CloseFilePreservesValid(s: EditorState, index: int)
    requires Valid(s)
    ensures Valid(CloseFile(s, index))
  {
    var r := CloseFile(s, index);
    var k := if index < 0 then Max(|s.openFiles| + index, 0) else index;
    if k < |s.openFiles| {
      assert r.openFiles == Seqs.RemoveAt(s.openFiles, k);
    }
  }

  /** Closing a tab other than the active one keeps the same file active;
      closing the active tab activates the one before it (the new first
      tab when it was first). */
  lemma CloseKeepsActiveFile(s: EditorState, index: int)
    requires Valid(s)
    requires 0 <= index < |s.openFiles| && |s.openFiles| > 1
    ensures var r := CloseFile(s, index);
      && (index != s.activeFileIndex ==> r.openFiles[r.activeFileIndex] == s.openFiles[s.activeFileIndex])
      && (index == s.activeFileIndex && index > 0 ==> r.openFiles[r.activeFileIndex] == s.openFiles[index - 1])
      && (index == s.activeFileIndex && index == 0 ==> r.openFiles[r.activeFileIndex] == s.openFiles[1])
  {
  }

  /** Updating keeps the invariant. */
  lemma UpdateFilePreservesValid(s: EditorState, file: FileNode)
    requires Valid(s)
    ensures Valid(UpdateFile(s, file))
  {
    var r := UpdateFile(s, file);
    var m := PathIndex(s.openFiles, file.path);
    if HasPath(s.files, file.path) && m != -1 {
      forall i, j | 0 <= i < j < |r.openFiles|
        ensures r.openFiles[i].path != r.openFiles[j].path
      {
      }
    }
  }

  /** Deleting keeps the invariant and leaves the path closed. */
  lemma DeleteFilePreservesValid(s: EditorState, path: string)
    requires Valid(s)
    ensures var r := DeleteFile(s, path);
      Valid(r) && !HasPath(r.openFiles, path)
  {
    var s1 := s.(files := Seqs.Filter(s.files, (f: FileNode) => f.path != path));
    assert Valid(s1);
    var k := PathIndex(s1.openFiles, path);
    if k != -1 {
      CloseFilePreservesValid(s1, k);
      var r := CloseFile(s1, k);
      assert r.openFiles == Seqs.RemoveAt(s.openFiles, k);
      forall i | 0 <= i < |r.openFiles|
        ensures r.openFiles[i].path != path
      {
        if i < k {
          assert r.openFiles[i] == s.openFiles[i];
        } else {
          assert r.openFiles[i] == s.openFiles[i + 1];
        }
      }
    }
  }

  /** Adding a record keeps the invariant. */
  lemma AddFilePreservesValid(s: EditorState, file: FileNode)
    requires Valid(s)
    ensures Valid(AddFile(s, file))
  {
  }
}
