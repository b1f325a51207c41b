/** The editor's tab session (src/app/services/editor.service.ts): an
    ordered list of open tabs keyed by a per-open id, and the active tab.
    Each service method is one transition from session to session. */
module EditorService {
  import opened Wrappers
  import Seqs

  /** One open tab. `isDirty` is absent (false) until the first edit. */
  datatype OpenedFile = OpenedFile(id: string, name: string, path: string, content: string, isDirty: bool)

  /** The values of the two subjects: the tab list and the active tab. */
  datatype Session = Session(tabs: seq<OpenedFile>, active: Option<OpenedFile>)

  /** Both subjects start empty. */
  const Initial := Session([], None)

  function Min(a: int, b: int): int {
    if a <= b then a else b
  }

  /** `findIndex(f => f.path === path)`. */
  function PathIndex(tabs: seq<OpenedFile>, path: string): int {
    Seqs.FindIndex(tabs, (f: OpenedFile) => f.path == path)
  }

  /** `findIndex(f => f.id === fileId)`. */
  function IdIndex(tabs: seq<OpenedFile>, fileId: string): int {
    Seqs.FindIndex(tabs, (f: OpenedFile) => f.id == fileId)
  }

  /** Some tab has this id. */
  predicate IsOpenId(s: Session, fileId: string) {
    exists i :: 0 <= i < |s.tabs| && s.tabs[i].id == fileId
  }

  /** Some tab has this path. */
  predicate IsOpenPath(s: Session, path: string) {
    exists i :: 0 <= i < |s.tabs| && s.tabs[i].path == path
  }

  /** `k` is the first tab carrying `fileId`. */
  predicate FirstWithId(tabs: seq<OpenedFile>, fileId: string, k: int) {
    0 <= k < |tabs| && tabs[k].id == fileId && forall j :: 0 <= j < k ==> tabs[j].id != fileId
  }

  /** The session invariant: at most one tab per path, tab ids distinct,
      and an active tab exactly when some tab is open, which is one of them. */
  ghost predicate Valid(s: Session) {
    && (forall i, j :: 0 <= i < j < |s.tabs| ==> s.tabs[i].path != s.tabs[j].path)
    && (forall i, j :: 0 <= i < j < |s.tabs| ==> s.tabs[i].id != s.tabs[j].id)
    && (s.active.None? <==> |s.tabs| == 0)
    && (s.active.Some? ==> s.active.value in s.tabs)
  }

  /** `openFile(name, path, content)` with `freshId` standing for the
      `${path}-${Date.now()}` id. An open path is re-activated and its tab
      kept as it is; a new path gets a new clean tab at the end. */
  function OpenFile(s: Session, freshId: string, name: string, path: string, content: string): (r: Session)
    ensures IsOpenPath(s, path) ==>
      r.tabs == s.tabs && r.active.Some? && r.active.value in s.tabs && r.active.value.path == path
    ensures !IsOpenPath(s, path) ==>
      && r.tabs == s.tabs + [OpenedFile(freshId, name, path, content, false)]
      && r.active == Some(r.tabs[|s.tabs|])
  {
    var newFile := OpenedFile(freshId, name, path, content, false);
    var index := PathIndex(s.tabs, path);
    if index == -1 then Session(s.tabs + [newFile], Some(newFile))
    else Session(s.tabs, Some(s.tabs[index]))
  }

  /** `closeFile(fileId)`: drops every tab with that id; when the active tab
      is closed, the tab that slides into its index (or the new last tab)
      becomes active. */
  function CloseFile(s: Session, fileId: string): (r: Session)
    ensures !IsOpenId(s, fileId) ==> r == s
    ensures forall t :: t in r.tabs <==> t in s.tabs && t.id != fileId
    ensures !(s.active.Some? && s.active.value.id == fileId) ==> r.active == s.active
    ensures IsOpenId(s, fileId) && s.active.Some? && s.active.value.id == fileId ==>
      (r.active.None? <==> |r.tabs| == 0) && (r.active.Some? ==> r.active.value in r.tabs)
  {
    var index := IdIndex(s.tabs, fileId);
    if index == -1 then s
    else
      var newFiles := Seqs.Filter(s.tabs, (f: OpenedFile) => f.id != fileId);
      if s.active.Some? && s.active.value.id == fileId then
        var next := if |newFiles| == 0 then None else Some(newFiles[Min(index, |newFiles| - 1)]);
        Session(newFiles, next)
      else
        Session(newFiles, s.active)
  }

  /** `updateFileContent(fileId, content)`: the first tab with that id gets
      the new content and becomes dirty; the active tab is refreshed only
      when it has that id. */
  function UpdateFileContent(s: Session, fileId: string, content: string): (r: Session)
    ensures !IsOpenId(s, fileId) ==> r == s
    ensures |r.tabs| == |s.tabs|
    ensures forall k :: FirstWithId(s.tabs, fileId, k) ==>
      && r.tabs[k] == s.tabs[k].(content := content, isDirty := true)
      && (forall j :: 0 <= j < |s.tabs| && j != k ==> r.tabs[j] == s.tabs[j])
      && (s.active.Some? && s.active.value.id == fileId ==> r.active == Some(r.tabs[k]))
    ensures !(s.active.Some? && s.active.value.id == fileId) ==> r.active == s.active
  {
    var fileIndex := IdIndex(s.tabs, fileId);
    if fileIndex == -1 then s
    else
      var updatedFiles := s.tabs[fileIndex := s.tabs[fileIndex].(content := content, isDirty := true)];
      if s.active.Some? && s.active.value.id == fileId then
        Session(updatedFiles, Some(updatedFiles[fileIndex]))
      else
        Session(updatedFiles, s.active)
  }

  /** `activateFile(fileId)`: the first tab with that id becomes active;
      an id that is not open changes nothing. */
  function ActivateFile(s: Session, fileId: string): (r: Session)
    ensures !IsOpenId(s, fileId) ==> r == s
    ensures forall k :: FirstWithId(s.tabs, fileId, k) ==> r == Session(s.tabs, Some(s.tabs[k]))
  {
    var i := IdIndex(s.tabs, fileId);
    if i == -1 then s else Session(s.tabs, Some(s.tabs[i]))
  }

  /** The initial session satisfies the invariant. */
  lemma InitialValid()
    ensures Valid(Initial)
  {
  }

  /** Opening keeps the invariant, provided the id is fresh: in particular
      no two tabs ever share a path. */
  lemma OpenFilePreservesValid(s: Session, freshId: string, name: string, path: string, content: string)
    requires Valid(s)
    requires forall i :: 0 <= i < |s.tabs| ==> s.tabs[i].id != freshId
    ensures Valid(OpenFile(s, freshId, name, path, content))
  {
  }

  /** Opening twice in a row with the same path yields one tab for it. */
  lemma {:induction false} OpenTwiceOneTab(s: Session, id1: string, id2: string, name: string, path: string, c1: string, c2: string)
    requires Valid(s)
    ensures var s1 := OpenFile(s, id1, name, path, c1);
      var s2 := OpenFile(s1, id2, name, path, c2);
      s2.tabs == s1.tabs && s2.active == s1.active
  {
    var s1 := OpenFile(s, id1, name, path, c1);
    assert IsOpenPath(s1, path) by {
      if !IsOpenPath(s, path) {
        assert s1.tabs[|s.tabs|].path == path;
      }
    }
    var k := PathIndex(s1.tabs, path);
    if IsOpenPath(s, path) {
      var j :| 0 <= j < |s.tabs| && s.tabs[j].path == path;
      assert s1.active == Some(s.tabs[PathIndex(s.tabs, path)]);
    }
  }

  /** Closing an open tab removes exactly that tab and keeps the order of
      the others; if it was not the active one, the active tab stays. */
  lemma CloseOtherTab(s: Session, k: int)
    requires Valid(s)
    requires 0 <= k < |s.tabs| && s.active != Some(s.tabs[k])
    ensures var r := CloseFile(s, s.tabs[k].id);
      r.tabs == Seqs.RemoveAt(s.tabs, k) && r.active == s.active
  {
    Seqs.FilterRemovesOne(s.tabs, (f: OpenedFile) => f.id != s.tabs[k].id, k);
    assert IsOpenId(s, s.tabs[k].id);
  }

  /** Closing the active tab activates the tab that followed it, or the new
      last tab when it was last, or none when it was the only one. */
  lemma CloseActiveTab(s: Session, k: int)
    requires Valid(s)
    requires 0 <= k < |s.tabs| && s.active == Some(s.tabs[k])
    ensures var r := CloseFile(s, s.tabs[k].id);
      && r.tabs == Seqs.RemoveAt(s.tabs, k)
      && r.active == (if k + 1 < |s.tabs| then Some(s.tabs[k + 1])
                      else if k > 0 then Some(s.tabs[k - 1])
                      else None)
  {
    Seqs.FilterRemovesOne(s.tabs, (f: OpenedFile) => f.id != s.tabs[k].id, k);
    assert IsOpenId(s, s.tabs[k].id);
    assert IdIndex(s.tabs, s.tabs[k].id) == k;
  }

  /** Closing keeps the invariant. */
  lemma CloseFilePreservesValid(s: Session, fileId: string)
    requires Valid(s)
    ensures Valid(CloseFile(s, fileId))
  {
    var r := CloseFile(s, fileId);
    if IsOpenId(s, fileId) {
      var k := IdIndex(s.tabs, fileId);
      Seqs.FilterRemovesOne(s.tabs, (f: OpenedFile) => f.id != fileId, k);
      assert r.tabs == Seqs.RemoveAt(s.tabs, k);
      RemoveKeepsDistinct(s.tabs, k);
      if s.active.Some? && s.active.value.id != fileId {
        assert s.active.value in r.tabs;
      }
    }
  }

  /** Removing one tab keeps paths and ids pairwise distinct. */
  lemma RemoveKeepsDistinct(tabs: seq<OpenedFile>, k: nat)
    requires k < |tabs|
    requires forall i, j :: 0 <= i < j < |tabs| ==> tabs[i].path != tabs[j].path
    requires forall i, j :: 0 <= i < j < |tabs| ==> tabs[i].id != tabs[j].id
    ensures var r := Seqs.RemoveAt(tabs, k);
      && (forall i, j :: 0 <= i < j < |r| ==> r[i].path != r[j].path)
      && (forall i, j :: 0 <= i < j < |r| ==> r[i].id != r[j].id)
  {
    var r := Seqs.RemoveAt(tabs, k);
    forall i, j | 0 <= i < j < |r|
      ensures r[i].path != r[j].path && r[i].id != r[j].id
    {
      var i' := if i < k then i else i + 1;
      var j' := if j < k then j else j + 1;
      assert r[i] == tabs[i'] && r[j] == tabs[j'] && i' < j';
    }
  }

  /** Editing keeps the invariant and the tab's identity. */
  lemma UpdatePreservesValid(s: Session, fileId: string, content: string)
    requires Valid(s)
    ensures Valid(UpdateFileContent(s, fileId, content))
  {
    var r := UpdateFileContent(s, fileId, content);
    if IsOpenId(s, fileId) {
      var k := IdIndex(s.tabs, fileId);
      if s.active.Some? && s.active.value.id != fileId {
        var a :| 0 <= a < |s.tabs| && s.tabs[a] == s.active.value;
        assert r.tabs[a] == s.tabs[a];
      }
    }
  }

  /** Activation keeps the invariant. */
  lemma ActivatePreservesValid(s: Session, fileId: string)
    requires Valid(s)
    ensures Valid(ActivateFile(s, fileId))
  {
  }
}
