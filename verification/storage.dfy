/** The browser-side project and file store
    (src/app/services/storage.service.ts), with IndexedDB's two object
    stores as maps: projects keyed by id, file records keyed by
    (projectId, path). Each request is one atomic transition. */
module Storage {
  import opened Wrappers
  import opened Models
  import Strings

  /** A record of the files store: the file spread over its project id,
      stamped with the time of the write. */
  datatype StoredFile = StoredFile(projectId: string, file: FileNode, updatedAt: nat)

  datatype Store = Store(projects: map<string, Project>, files: map<(string, string), StoredFile>)

  const Empty := Store(map[], map[])

  /** The `limit` that `getRecentFiles` uses when none is passed. */
  const DefaultRecentLimit := 10

  /** Every record sits under the key its own fields give (the store's key
      paths): projects under `id`, files under `[projectId, path]`. */
  ghost predicate WellKeyed(st: Store) {
    && (forall id :: id in st.projects ==> st.projects[id].id == id)
    && (forall k :: k in st.files ==> st.files[k].projectId == k.0 && st.files[k].file.path == k.1)
  }

  /** `getProject(id)`: the record, or null. */
  function GetProject(st: Store, id: string): Option<Project> {
    if id in st.projects then Some(st.projects[id]) else None
  }

  /** `getFile(projectId, path)`: the record, or null. */
  function GetFile(st: Store, projectId: string, path: string): Option<StoredFile> {
    if (projectId, path) in st.files then Some(st.files[(projectId, path)]) else None
  }

  /** `saveProject(project)`: a put keyed by the project's id. */
  function SaveProject(st: Store, p: Project): (r: Store)
    ensures GetProject(r, p.id) == Some(p)
    ensures forall id :: id != p.id ==> GetProject(r, id) == GetProject(st, id)
    ensures r.files == st.files
  {
    st.(projects := st.projects[p.id := p])
  }

  /** `saveFile(projectId, file)` at time `now`. */
  function SaveFile(st: Store, projectId: string, file: FileNode, now: nat): (r: Store)
    ensures GetFile(r, projectId, file.path) == Some(StoredFile(projectId, file, now))
    ensures forall pid, path :: (pid, path) != (projectId, file.path) ==> GetFile(r, pid, path) == GetFile(st, pid, path)
    ensures r.projects == st.projects
  {
    st.(files := st.files[(projectId, file.path) := StoredFile(projectId, file, now)])
  }

  /** `deleteFile(projectId, path)`. */
  function DeleteFile(st: Store, projectId: string, path: string): (r: Store)
    ensures GetFile(r, projectId, path) == None
    ensures forall pid, p :: (pid, p) != (projectId, path) ==> GetFile(r, pid, p) == GetFile(st, pid, p)
    ensures r.projects == st.projects
  {
    st.(files := st.files - {(projectId, path)})
  }

  /** `getAllFiles(projectId)`: the records the projectId index holds for it. */
  function GetAllFiles(st: Store, projectId: string): (r: set<StoredFile>)
    ensures forall f :: f in r <==> f in st.files.Values && f.projectId == projectId
  {
    set f | f in st.files.Values && f.projectId == projectId
  }

  /** The files store without the records of one project. */
  function WithoutProjectFiles(files: map<(string, string), StoredFile>, projectId: string): (r: map<(string, string), StoredFile>)
    ensures forall k :: k in r <==> k in files && files[k].projectId != projectId
    ensures forall k :: k in r ==> r[k] == files[k]
  {
    map k | k in files && files[k].projectId != projectId :: files[k]
  }

  /** `clearAllFiles(projectId)`: the cursor over the projectId index
      deletes each of the project's records. */
  function ClearAllFiles(st: Store, projectId: string): (r: Store)
    ensures GetAllFiles(r, projectId) == {}
    ensures forall pid :: pid != projectId ==> GetAllFiles(r, pid) == GetAllFiles(st, pid)
    ensures r.projects == st.projects
  {
    var r := st.(files := WithoutProjectFiles(st.files, projectId));
    assert forall pid :: pid != projectId ==> GetAllFiles(r, pid) == GetAllFiles(st, pid) by {
      forall pid | pid != projectId
        ensures GetAllFiles(r, pid) == GetAllFiles(st, pid)
      {
        forall f | f in GetAllFiles(st, pid)
          ensures f in GetAllFiles(r, pid)
        {
          var k :| k in st.files && st.files[k] == f;
          assert k in r.files;
        }
      }
    }
    r
  }

  /** `deleteProject(projectId)`: one transaction removing the project
      record and, through the projectId index, all of its files. */
  function DeleteProject(st: Store, projectId: string): (r: Store)
    ensures GetProject(r, projectId) == None
    ensures forall id :: id != projectId ==> GetProject(r, id) == GetProject(st, id)
    ensures GetAllFiles(r, projectId) == {}
    ensures forall pid :: pid != projectId ==> GetAllFiles(r, pid) == GetAllFiles(st, pid)
  {
    var cleared := ClearAllFiles(st, projectId);
    cleared.(projects := st.projects - {projectId})
  }

  /** `saveFiles(projectId, files)` in one transaction, every put stamped
      `now`; later entries with the same path overwrite earlier ones. */
  function SaveFiles(st: Store, projectId: string, files: seq<FileNode>, now: nat): (r: Store)
    decreases |files|
  {
    if |files| == 0 then st
    else SaveFiles(SaveFile(st, projectId, files[0], now), projectId, files[1..], now)
  }

  /** After `saveFiles`, a path of the batch holds its last entry. */
  lemma {:induction false} SaveFilesLastWins(st: Store, projectId: string, files: seq<FileNode>, now: nat, i: nat)
    requires i < |files|
    requires forall j :: i < j < |files| ==> files[j].path != files[i].path
    ensures GetFile(SaveFiles(st, projectId, files, now), projectId, files[i].path) == Some(StoredFile(projectId, files[i], now))
    decreases |files|
  {
    var st1 := SaveFile(st, projectId, files[0], now);
    var rest := files[1..];
    if i > 0 {
      assert rest[i - 1] == files[i];
      assert forall j :: i - 1 < j < |rest| ==> rest[j] == files[j + 1];
      SaveFilesLastWins(st1, projectId, rest, now, i - 1);
    } else {
      assert forall j :: 0 <= j < |rest| ==> rest[j] == files[j + 1];
      SaveFilesKeepsOthers(st1, projectId, rest, now, projectId, files[0].path);
    }
  }

  /** `saveFiles` leaves every key outside the batch as it was, and the
      project records untouched. */
  lemma {:induction false} SaveFilesKeepsOthers(st: Store, projectId: string, files: seq<FileNode>, now: nat, pid: string, path: string)
    requires pid != projectId || forall i :: 0 <= i < |files| ==> files[i].path != path
    ensures GetFile(SaveFiles(st, projectId, files, now), pid, path) == GetFile(st, pid, path)
    ensures SaveFiles(st, projectId, files, now).projects == st.projects
    decreases |files|
  {
    if |files| > 0 {
      var rest := files[1..];
      assert forall i :: 0 <= i < |rest| ==> rest[i] == files[i + 1];
      SaveFilesKeepsOthers(SaveFile(st, projectId, files[0], now), projectId, rest, now, pid, path);
    }
  }

  /** Deleting a project is clearing its files and dropping its record. */
  lemma DeleteProjectIsClearThenDrop(st: Store, projectId: string)
    ensures DeleteProject(st, projectId).files == ClearAllFiles(st, projectId).files
    ensures DeleteProject(st, projectId).projects == st.projects - {projectId}
  {
  }

  /** Every write keeps each record under its own key. */
  lemma WritesKeepWellKeyed(st: Store, p: Project, projectId: string, file: FileNode, path: string, now: nat)
    requires WellKeyed(st)
    ensures WellKeyed(SaveProject(st, p))
    ensures WellKeyed(SaveFile(st, projectId, file, now))
    ensures WellKeyed(DeleteFile(st, projectId, path))
    ensures WellKeyed(ClearAllFiles(st, projectId))
    ensures WellKeyed(DeleteProject(st, projectId))
  {
  }

  /** The search predicate of `searchFiles`: the lower-cased query occurs
      in the lower-cased name, path or (non-empty) content. */
  predicate Matches(file: FileNode, query: string) {
    var term := Strings.ToLower(query);
    || Strings.Includes(Strings.ToLower(file.name), term)
    || Strings.Includes(Strings.ToLower(file.path), term)
    || (file.content.Some? && file.content.value != "" && Strings.Includes(Strings.ToLower(file.content.value), term))
  }

  /** `searchFiles(projectId, query)`. */
  function SearchFiles(st: Store, projectId: string, query: string): (r: set<StoredFile>)
    ensures r <= GetAllFiles(st, projectId)
    ensures forall f :: f in r <==> f in GetAllFiles(st, projectId) && Matches(f.file, query)
    ensures query == "" ==> r == GetAllFiles(st, projectId)
  {
    assert forall f: StoredFile :: Matches(f.file, "") by {
      forall f: StoredFile
        ensures Matches(f.file, "")
      {
        assert Strings.OccursAt(Strings.ToLower(f.file.name), "", 0);
      }
    }
    set f | f in GetAllFiles(st, projectId) && Matches(f.file, query)
  }

  /** The search ignores the letter case of the query. */
  lemma SearchIgnoresQueryCase(st: Store, projectId: string, q1: string, q2: string)
    requires Strings.ToLower(q1) == Strings.ToLower(q2)
    ensures SearchFiles(st, projectId, q1) == SearchFiles(st, projectId, q2)
  {
  }

  /** `order` lists every record of the store once, newest first: the walk
      of the updatedAt index with a 'prev' cursor. */
  ghost predicate RecencyOrder(st: Store, order: seq<StoredFile>) {
    && (forall f :: f in order <==> f in st.files.Values)
    && (forall i, j :: 0 <= i < j < |order| ==> order[i] != order[j])
    && (forall i, j :: 0 <= i < j < |order| ==> order[i].updatedAt >= order[j].updatedAt)
  }

  /** Over the store's recency order, the walk returns stored records of
      the project, newest first. */
  lemma RecentFilesAreStoredNewestFirst(st: Store, order: seq<StoredFile>, projectId: string, limit: int)
    requires RecencyOrder(st, order)
    ensures var r := GetRecentFiles(order, projectId, limit);
      && (forall i :: 0 <= i < |r| ==> r[i] in GetAllFiles(st, projectId))
      && (forall i, j :: 0 <= i < j < |r| ==> r[i].updatedAt >= r[j].updatedAt)
  {
    var r := GetRecentFiles(order, projectId, limit);
    forall i | 0 <= i < |r|
      ensures r[i] in GetAllFiles(st, projectId)
    {
      assert r[i] == order[i];
    }
  }

  /** `getRecentFiles(projectId, limit)` as written: the cursor walks the
      records newest first and stops at the first record of another project
      or once `limit` records are collected. */
  function GetRecentFiles(order: seq<StoredFile>, projectId: string, limit: int): (r: seq<StoredFile>)
    ensures |r| <= |order| && r == order[..|r|]
    ensures |r| <= (if limit < 0 then 0 else limit)
    ensures forall i :: 0 <= i < |r| ==> r[i].projectId == projectId
    ensures |r| < |order| ==> |r| >= limit || order[|r|].projectId != projectId
  {
    if |order| == 0 || limit <= 0 || order[0].projectId != projectId then []
    else [order[0]] + GetRecentFiles(order[1..], projectId, limit - 1)
  }

  /** The records of one project, in the given order. */
  function OfProject(order: seq<StoredFile>, projectId: string): (r: seq<StoredFile>)
    ensures forall i :: 0 <= i < |r| ==> r[i].projectId == projectId
    ensures |r| <= |order|
  {
    if |order| == 0 then []
    else if order[0].projectId == projectId then [order[0]] + OfProject(order[1..], projectId)
    else OfProject(order[1..], projectId)
  }

  /** The project's records are exactly the given records carrying its id. */
  lemma {:induction false} OfProjectMembers(order: seq<StoredFile>, projectId: string)
    ensures forall f :: f in OfProject(order, projectId) <==> f in order && f.projectId == projectId
  {
    if |order| > 0 {
      OfProjectMembers(order[1..], projectId);
      assert order == [order[0]] + order[1..];
    }
  }

  /** The walk as evidently intended: records of other projects are
      skipped, so the result is the project's `limit` newest records. */
  function GetRecentFilesCorrected(order: seq<StoredFile>, projectId: string, limit: int): (r: seq<StoredFile>)
    ensures var mine := OfProject(order, projectId);
      r == mine[..if limit < 0 then 0 else if limit < |mine| then limit else |mine|]
  {
    if |order| == 0 || limit <= 0 then []
    else if order[0].projectId == projectId then [order[0]] + GetRecentFilesCorrected(order[1..], projectId, limit - 1)
    else GetRecentFilesCorrected(order[1..], projectId, limit)
  }

  /** What the walk as written returns is always a prefix of the intended
      result. */
  lemma {:induction false} RecentAsWrittenIsPrefix(order: seq<StoredFile>, projectId: string, limit: int)
    ensures var w := GetRecentFiles(order, projectId, limit);
      var c := GetRecentFilesCorrected(order, projectId, limit);
      |w| <= |c| && w == c[..|w|]
  {
    if |order| > 0 && limit > 0 && order[0].projectId == projectId {
      var w' := GetRecentFiles(order[1..], projectId, limit - 1);
      var c' := GetRecentFilesCorrected(order[1..], projectId, limit - 1);
      RecentAsWrittenIsPrefix(order[1..], projectId, limit - 1);
      var w := GetRecentFiles(order, projectId, limit);
      var c := GetRecentFilesCorrected(order, projectId, limit);
      assert w == [order[0]] + w';
      assert c == [order[0]] + c';
      assert c[..|w|] == [order[0]] + c'[..|w'|];
    } else {
      assert GetRecentFiles(order, projectId, limit) == [];
    }
  }

  /** When no record of another project is among them, the walk as written
      and the intended one agree. */
  lemma {:induction false} RecentAgreesOnSingleProject(order: seq<StoredFile>, projectId: string, limit: int)
    requires forall i :: 0 <= i < |order| ==> order[i].projectId == projectId
    ensures GetRecentFiles(order, projectId, limit) == GetRecentFilesCorrected(order, projectId, limit)
  {
    if |order| > 0 && limit > 0 {
      assert forall i :: 0 <= i < |order[1..]| ==> order[1..][i] == order[i + 1];
      RecentAgreesOnSingleProject(order[1..], projectId, limit - 1);
    }
  }

  /** The walk as written finds nothing for a project whose files are not
      the newest: one newer record of another project hides them all. */
  lemma RecentStopsAtForeignRecord(mine: FileNode, theirs: FileNode)
    ensures var order := [StoredFile("b", theirs, 2), StoredFile("a", mine, 1)];
      GetRecentFiles(order, "a", DefaultRecentLimit) == [] &&
      GetRecentFilesCorrected(order, "a", DefaultRecentLimit) == [StoredFile("a", mine, 1)]
  {
    var order := [StoredFile("b", theirs, 2), StoredFile("a", mine, 1)];
    assert order[1..] == [StoredFile("a", mine, 1)];
    assert order[1..][1..] == [];
  }
}
