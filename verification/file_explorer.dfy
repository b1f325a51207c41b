/** The project tree in the file explorer
    (src/app/components/file-explorer/file-explorer.component.ts):
    `buildFileTree` sorts the file records, splits each path into segments
    and inserts nodes into a name-keyed object; plus the `hasChild` and
    `openFile` guards of the tree view. */
module FileExplorer {
  import opened Wrappers
  import opened Models
  import Strings
  import Seqs
  import FileService

  /** A tree node: a file record with an optional list of children
      (absent for files, present for directories). */
  datatype TreeNode = TreeNode(name: string, kind: FileKind, path: string, content: Option<string>, children: Option<seq<TreeNode>>)

  // ---------------------------------------------------------------------
  // Sorting

  /** The sort comparator is non-positive: a directory comes before a file,
      and records of the same kind compare by path. */
  predicate SortsBefore(a: FileNode, b: FileNode) {
    if a.kind == Directory && b.kind == File then true
    else if a.kind == File && b.kind == Directory then false
    else Strings.LexLe(a.path, b.path)
  }

  lemma SortsBeforeTotal(a: FileNode, b: FileNode)
    ensures SortsBefore(a, b) || SortsBefore(b, a)
  {
    Strings.LexLeTotal(a.path, b.path);
  }

  lemma SortsBeforeTransitive(a: FileNode, b: FileNode, c: FileNode)
    requires SortsBefore(a, b) && SortsBefore(b, c)
    ensures SortsBefore(a, c)
  {
    if a.kind == b.kind && b.kind == c.kind {
      Strings.LexLeTransitive(a.path, b.path, c.path);
    }
  }

  ghost predicate Sorted(s: seq<FileNode>) {
    forall i, j :: 0 <= i < j < |s| ==> SortsBefore(s[i], s[j])
  }

  /** Places `x` before the first element it sorts before. */
  function Insert(x: FileNode, s: seq<FileNode>): (r: seq<FileNode>)
    ensures multiset(r) == multiset(s) + multiset{x}
  {
    if |s| == 0 then [x]
    else if SortsBefore(x, s[0]) then [x] + s
    else
      assert s == [s[0]] + s[1..];
      [s[0]] + Insert(x, s[1..])
  }

  lemma {:induction false} InsertSorted(x: FileNode, s: seq<FileNode>)
    requires Sorted(s)
    ensures Sorted(Insert(x, s))
  {
    var r := Insert(x, s);
    if |s| == 0 {
    } else if SortsBefore(x, s[0]) {
      forall j | 1 <= j < |r|
        ensures SortsBefore(r[0], r[j])
      {
        if j > 1 {
          SortsBeforeTransitive(x, s[0], s[j - 1]);
        }
      }
    } else {
      SortsBeforeTotal(x, s[0]);
      var t := Insert(x, s[1..]);
      InsertSorted(x, s[1..]);
      forall j | 0 <= j < |t|
        ensures SortsBefore(s[0], t[j])
      {
        assert t[j] in multiset(t);
        if t[j] != x {
          assert t[j] in multiset(s[1..]);
          var k :| 0 <= k < |s[1..]| && s[1..][k] == t[j];
          assert s[1..][k] == s[k + 1];
        }
      }
    }
  }

  /** The array sort of `buildFileTree` (an insertion sort here): sorted
      by the comparator and a permutation of its input. */
  function SortEntries(s: seq<FileNode>): (r: seq<FileNode>)
    ensures Sorted(r)
    ensures multiset(r) == multiset(s)
  {
    if |s| == 0 then []
    else
      var rest := SortEntries(s[1..]);
      InsertSorted(s[0], rest);
      assert s == [s[0]] + s[1..];
      Insert(s[0], rest)
  }

  /** After sorting, every directory comes before every file, and records
      of the same kind are in path order. */
  lemma SortedDirectoriesFirst(files: seq<FileNode>)
    ensures var s := SortEntries(files);
      && (forall i, j :: 0 <= i < j < |s| ==> !(s[i].kind == File && s[j].kind == Directory))
      && (forall i, j :: 0 <= i < j < |s| && s[i].kind == s[j].kind ==> Strings.LexLe(s[i].path, s[j].path))
  {
  }

  // ---------------------------------------------------------------------
  // Paths

  /** `path.split('/').filter(Boolean)`: the non-empty segments. */
  function Parts(path: string): (r: seq<string>)
    ensures forall k :: 0 <= k < |r| ==> |r[k]| > 0 && '/' !in r[k]
  {
    var pieces := Strings.Split(path, '/');
    var r := Seqs.Filter(pieces, (p: string) => |p| > 0);
    assert forall k :: 0 <= k < |r| ==> r[k] in pieces;
    r
  }

  /** Splitting a joined run of segments gives the segments back. */
  lemma PartsOfJoin(ps: seq<string>)
    requires |ps| >= 1
    requires forall k :: 0 <= k < |ps| ==> |ps[k]| > 0 && '/' !in ps[k]
    ensures Parts(Strings.Join(ps, '/')) == ps
  {
    Strings.SplitJoin(ps, '/');
    Seqs.FilterKeepsAll(ps, (p: string) => |p| > 0);
  }

  /** A path of slashes only (or the empty path) has no segments. */
  lemma {:induction false} SlashesOnlyHaveNoParts(path: string)
    requires forall k :: 0 <= k < |path| ==> path[k] == '/'
    ensures Parts(path) == []
  {
    SplitOfSeparators(path);
    var pieces := Strings.Split(path, '/');
    var r := Seqs.Filter(pieces, (p: string) => |p| > 0);
    if |r| > 0 {
      assert r[0] in pieces;
    }
  }

  lemma {:induction false} SplitOfSeparators(s: string)
    requires forall k :: 0 <= k < |s| ==> s[k] == '/'
    ensures forall k :: 0 <= k < |Strings.Split(s, '/')| ==> Strings.Split(s, '/')[k] == ""
  {
    if |s| > 0 {
      SplitOfSeparators(s[1..]);
    }
  }

  // ---------------------------------------------------------------------
  // The name-keyed object

  /** Property names every plain object inherits from `Object.prototype`:
      reading one of them off `{}` is truthy. */
  const InheritedKeys: set<string> := {
    "constructor", "hasOwnProperty", "isPrototypeOf", "propertyIsEnumerable",
    "toString", "toLocaleString", "valueOf", "__proto__",
    "__defineGetter__", "__defineSetter__", "__lookupGetter__", "__lookupSetter__"}

  /** The object's own property `name`, if any. */
  function Get(level: seq<TreeNode>, name: string): (r: Option<TreeNode>)
    ensures r.Some? ==> r.value in level && r.value.name == name
    ensures r.None? ==> forall k :: 0 <= k < |level| ==> level[k].name != name
  {
    if |level| == 0 then None
    else if level[0].name == name then Some(level[0])
    else Get(level[1..], name)
  }

  /** `current[part]` is truthy: an own node, or an inherited member. */
  predicate Truthy(level: seq<TreeNode>, name: string) {
    Get(level, name).Some? || name in InheritedKeys
  }

  /** `acc[child.name] = child`: replaces an own property or adds one. */
  function Assign(level: seq<TreeNode>, node: TreeNode): seq<TreeNode> {
    var k := Seqs.FindIndex(level, (n: TreeNode) => n.name == node.name);
    if k == -1 then level + [node] else level[k := node]
  }

  /** `node.children.reduce(...)`: a fresh object holding the children. */
  function FromChildren(children: seq<TreeNode>): seq<TreeNode>
    decreases |children|
  {
    if |children| == 0 then []
    else Assign(FromChildren(children[..|children| - 1]), children[|children| - 1])
  }

  /** The node created for segment `i` of `entry`'s path. */
  function NewNode(parts: seq<string>, i: nat, entry: FileNode): (n: TreeNode)
    requires i < |parts|
    ensures n.name == parts[i]
    ensures n.kind == File <==> entry.kind == File && i == |parts| - 1
    ensures n.kind == Directory ==> n.children == Some([]) && n.content == None
    ensures n.kind == File ==> n.children == None && n.content == entry.content
  {
    var isFile := entry.kind == File && i == |parts| - 1;
    TreeNode(parts[i], if isFile then File else Directory, Strings.Join(parts[..i + 1], '/'),
             if isFile then entry.content else None, if isFile then None else Some([]))
  }

  /** Which object `current` refers to: the root, or a fresh object that
      nothing else references. */
  datatype Cursor = AtRoot | Detached(level: seq<TreeNode>)

  /** `if (!current[part]) current[part] = {...}`: the level after
      segment `i`. */
  function Place(level: seq<TreeNode>, parts: seq<string>, i: nat, entry: FileNode): seq<TreeNode>
    requires i < |parts|
  {
    if Truthy(level, parts[i]) then level else level + [NewNode(parts, i, entry)]
  }

  /** The level's own node `part` has a children list (`node.children` is
      truthy; an inherited member has none). */
  predicate Opens(level: seq<TreeNode>, part: string) {
    Get(level, part).Some? && Get(level, part).value.children.Some?
  }

  /** Where `current` points after a non-last segment: a fresh object made
      from the node's children, or where it was. */
  function Descend(level: seq<TreeNode>, part: string, stay: Cursor): (r: Cursor)
    ensures stay.Detached? ==> r.Detached?
    ensures !Opens(level, part) ==> r == stay
  {
    if Opens(level, part) then Detached(FromChildren(Get(level, part).value.children.value)) else stay
  }

  /** The inner loop of `buildFileTree` from segment `i` on; returns the
      root object afterwards. */
  function Walk(root: seq<TreeNode>, cur: Cursor, parts: seq<string>, i: nat, entry: FileNode): seq<TreeNode>
    requires i <= |parts|
    decreases |parts| - i
  {
    if i == |parts| then root
    else
      var level' := Place(if cur.AtRoot? then root else cur.level, parts, i, entry);
      var root' := if cur.AtRoot? then level' else root;
      if i == |parts| - 1 then root'
      else Walk(root', Descend(level', parts[i], if cur.AtRoot? then AtRoot else Detached(level')), parts, i + 1, entry)
  }

  /** One iteration of the outer loop: `current` starts at the root. */
  function AddEntry(root: seq<TreeNode>, entry: FileNode): seq<TreeNode> {
    Walk(root, AtRoot, Parts(entry.path), 0, entry)
  }

  function AddAll(root: seq<TreeNode>, entries: seq<FileNode>): seq<TreeNode>
    decreases |entries|
  {
    if |entries| == 0 then root
    else AddAll(AddEntry(root, entries[0]), entries[1..])
  }

  /** `buildFileTree(files)`: `Object.values(root)` after inserting every
      sorted record. */
  function BuildFileTree(files: seq<FileNode>): seq<TreeNode> {
    AddAll([], SortEntries(files))
  }

  // ---------------------------------------------------------------------
  // What the walk does to the root

  /** Once `current` is a detached object, nothing reaches the root again:
      deeper nodes are never attached. */
  lemma {:induction false} DetachedNeverReachesRoot(root: seq<TreeNode>, level: seq<TreeNode>, parts: seq<string>, i: nat, entry: FileNode)
    requires i <= |parts|
    ensures Walk(root, Detached(level), parts, i, entry) == root
    decreases |parts| - i
  {
    if i < |parts| - 1 {
      var level' := Place(level, parts, i, entry);
      var next := Descend(level', parts[i], Detached(level'));
      assert Walk(root, Detached(level), parts, i, entry) == Walk(root, next, parts, i + 1, entry);
      DetachedNeverReachesRoot(root, next.level, parts, i + 1, entry);
    }
  }

  /** The walk as seen from the root alone: each segment is added to the
      root if absent, and the walk leaves the root for good at the first
      non-last segment whose root node has a children list. */
  function RootWalk(root: seq<TreeNode>, parts: seq<string>, i: nat, entry: FileNode): seq<TreeNode>
    requires i <= |parts|
    decreases |parts| - i
  {
    if i == |parts| then root
    else
      var root' := Place(root, parts, i, entry);
      if i == |parts| - 1 || Opens(root', parts[i]) then root'
      else RootWalk(root', parts, i + 1, entry)
  }

  lemma {:induction false} WalkIsRootWalk(root: seq<TreeNode>, parts: seq<string>, i: nat, entry: FileNode)
    requires i <= |parts|
    ensures Walk(root, AtRoot, parts, i, entry) == RootWalk(root, parts, i, entry)
    decreases |parts| - i
  {
    if i < |parts| - 1 {
      var root' := Place(root, parts, i, entry);
      var next := Descend(root', parts[i], AtRoot);
      assert Walk(root, AtRoot, parts, i, entry) == Walk(root', next, parts, i + 1, entry);
      if Opens(root', parts[i]) {
        DetachedNeverReachesRoot(root', next.level, parts, i + 1, entry);
      } else {
        WalkIsRootWalk(root', parts, i + 1, entry);
      }
    }
  }

  // ---------------------------------------------------------------------
  // The shape of the result

  /** A root node as the builder makes it: directories with an empty
      children list and no content, files without children, a real own
      property name, and a path whose last segment is the name. */
  ghost predicate NodeShape(n: TreeNode) {
    && (n.kind == Directory ==> n.children == Some([]) && n.content == None)
    && (n.kind == File ==> n.children == None)
    && |n.name| > 0 && n.name !in InheritedKeys
    && |Parts(n.path)| > 0 && Parts(n.path)[|Parts(n.path)| - 1] == n.name
  }

  /** The root object: well-shaped nodes under distinct names. */
  ghost predicate WellFormed(root: seq<TreeNode>) {
    && (forall k :: 0 <= k < |root| ==> NodeShape(root[k]))
    && (forall j, k :: 0 <= j < k < |root| ==> root[j].name != root[k].name)
  }

  lemma NewNodeShape(parts: seq<string>, i: nat, entry: FileNode)
    requires i < |parts|
    requires forall k :: 0 <= k < |parts| ==> |parts[k]| > 0 && '/' !in parts[k]
    requires parts[i] !in InheritedKeys
    ensures NodeShape(NewNode(parts, i, entry))
    ensures NewNode(parts, i, entry).path == Strings.Join(parts[..i + 1], '/')
  {
    PartsOfJoin(parts[..i + 1]);
  }

  /** `r` is well-formed and keeps `root` as its prefix. */
  ghost predicate GrowsFrom(root: seq<TreeNode>, r: seq<TreeNode>) {
    WellFormed(r) && |root| <= |r| && r[..|root|] == root
  }

  lemma GrowsFromTransitive(a: seq<TreeNode>, b: seq<TreeNode>, c: seq<TreeNode>)
    requires GrowsFrom(a, b) && GrowsFrom(b, c)
    ensures GrowsFrom(a, c)
  {
    assert c[..|a|] == c[..|b|][..|a|];
  }

  /** Placing a segment keeps the level well-formed and only appends to it;
      afterwards the segment names an own node unless it is inherited. */
  lemma PlaceGrows(root: seq<TreeNode>, parts: seq<string>, i: nat, entry: FileNode)
    requires i < |parts|
    requires forall k :: 0 <= k < |parts| ==> |parts[k]| > 0 && '/' !in parts[k]
    requires WellFormed(root)
    ensures GrowsFrom(root, Place(root, parts, i, entry))
  {
    var r := Place(root, parts, i, entry);
    if !Truthy(root, parts[i]) {
      NewNodeShape(parts, i, entry);
      assert r[..|root|] == root;
    } else {
      assert r[..|root|] == root;
    }
  }

  /** The root only grows by appending a well-shaped node under a new name;
      an existing node is never replaced (the first node for a name wins). */
  lemma {:induction false} RootWalkGrows(root: seq<TreeNode>, parts: seq<string>, i: nat, entry: FileNode)
    requires i <= |parts|
    requires forall k :: 0 <= k < |parts| ==> |parts[k]| > 0 && '/' !in parts[k]
    requires WellFormed(root)
    ensures GrowsFrom(root, RootWalk(root, parts, i, entry))
    decreases |parts| - i
  {
    if i == |parts| {
      assert root[..|root|] == root;
    } else {
      var root' := Place(root, parts, i, entry);
      PlaceGrows(root, parts, i, entry);
      if i == |parts| - 1 || Opens(root', parts[i]) {
        assert RootWalk(root, parts, i, entry) == root';
      } else {
        assert RootWalk(root, parts, i, entry) == RootWalk(root', parts, i + 1, entry);
        RootWalkGrows(root', parts, i + 1, entry);
        GrowsFromTransitive(root, root', RootWalk(root', parts, i + 1, entry));
      }
    }
  }

  /** Adding a record keeps the root well-formed and only appends to it. */
  lemma AddEntryGrows(root: seq<TreeNode>, entry: FileNode)
    requires WellFormed(root)
    ensures GrowsFrom(root, AddEntry(root, entry))
  {
    WalkIsRootWalk(root, Parts(entry.path), 0, entry);
    RootWalkGrows(root, Parts(entry.path), 0, entry);
  }

  /** After placing a segment, the level has an own node of that name
      unless the name is inherited. */
  lemma PlaceNames(level: seq<TreeNode>, parts: seq<string>, i: nat, entry: FileNode)
    requires i < |parts| && parts[i] !in InheritedKeys
    ensures Get(Place(level, parts, i, entry), parts[i]).Some?
  {
    if !Truthy(level, parts[i]) {
      assert Place(level, parts, i, entry)[|level|].name == parts[i];
    }
  }

  /** After adding a record, its first segment names a root node unless it
      is an inherited name; a record without segments adds nothing. */
  lemma AddEntryFirstSegment(root: seq<TreeNode>, entry: FileNode)
    ensures Parts(entry.path) == [] ==> AddEntry(root, entry) == root
    ensures var parts := Parts(entry.path);
      |parts| > 0 && parts[0] !in InheritedKeys ==> Get(AddEntry(root, entry), parts[0]).Some?
  {
    var parts := Parts(entry.path);
    WalkIsRootWalk(root, parts, 0, entry);
    if |parts| > 0 && parts[0] !in InheritedKeys {
      var root' := Place(root, parts, 0, entry);
      PlaceNames(root, parts, 0, entry);
      if !(|parts| == 1 || Opens(root', parts[0])) {
        RootWalkKeeps(root', parts, 1, entry, Get(root', parts[0]).value);
      }
    }
  }

  /** The root walk never drops a node. */
  lemma {:induction false} RootWalkKeeps(root: seq<TreeNode>, parts: seq<string>, i: nat, entry: FileNode, n: TreeNode)
    requires i <= |parts|
    requires n in root
    ensures n in RootWalk(root, parts, i, entry)
    decreases |parts| - i
  {
    if i < |parts| {
      var root' := Place(root, parts, i, entry);
      assert n in root';
      if !(i == |parts| - 1 || Opens(root', parts[i])) {
        RootWalkKeeps(root', parts, i + 1, entry, n);
      }
    }
  }

  /** The record's first segment, when it can name a root node. */
  predicate HasRootSegment(e: FileNode) {
    |Parts(e.path)| > 0 && Parts(e.path)[0] !in InheritedKeys
  }

  /** Every such record is represented by a root node of that name. */
  ghost predicate Covers(root: seq<TreeNode>, entries: seq<FileNode>) {
    forall e :: e in entries && HasRootSegment(e) ==> Get(root, Parts(e.path)[0]).Some?
  }

  /** A name found in a level is still found after the level grows. */
  lemma GetKept(a: seq<TreeNode>, b: seq<TreeNode>, name: string)
    requires |a| <= |b| && b[..|a|] == a
    requires Get(a, name).Some?
    ensures Get(b, name).Some?
  {
    var n := Get(a, name).value;
    var k :| 0 <= k < |a| && a[k] == n;
    assert b[k] == n;
  }

  /** The tree is well-formed, only appends to the starting root, and
      represents every record by its first segment. */
  lemma {:induction false} AddAllShape(root: seq<TreeNode>, entries: seq<FileNode>)
    requires WellFormed(root)
    ensures var r := AddAll(root, entries);
      GrowsFrom(root, r) && Covers(r, entries)
    decreases |entries|
  {
    if |entries| == 0 {
      assert root[..|root|] == root;
    } else {
      var root1 := AddEntry(root, entries[0]);
      AddEntryGrows(root, entries[0]);
      AddEntryFirstSegment(root, entries[0]);
      assert GrowsFrom(root, root1);
      AddAllShape(root1, entries[1..]);
      var r := AddAll(root1, entries[1..]);
      assert r == AddAll(root, entries);
      GrowsFromTransitive(root, root1, r);
      forall e | e in entries && HasRootSegment(e)
        ensures Get(r, Parts(e.path)[0]).Some?
      {
        if e == entries[0] {
          GetKept(root1, r, Parts(e.path)[0]);
        } else {
          assert e in entries[1..];
        }
      }
    }
  }

  /** `buildFileTree` as a whole. */
  lemma BuildFileTreeShape(files: seq<FileNode>)
    ensures var tree := BuildFileTree(files);
      && WellFormed(tree)
      && (forall k :: 0 <= k < |tree| ==> !HasChild(tree[k]))
      && (forall f :: f in files && HasRootSegment(f) ==>
            exists k :: 0 <= k < |tree| && tree[k].name == Parts(f.path)[0])
  {
    var sorted := SortEntries(files);
    AddAllShape([], sorted);
    var tree := BuildFileTree(files);
    forall f | f in files && HasRootSegment(f)
      ensures exists k :: 0 <= k < |tree| && tree[k].name == Parts(f.path)[0]
    {
      assert f in multiset(sorted);
      var n := Get(tree, Parts(f.path)[0]).value;
      var k :| 0 <= k < |tree| && tree[k] == n;
    }
  }

  /** A file node at the root captures the descent: a later record below
      it is added at the root, under its own last segment. */
  lemma FileNodeKeepsWalkAtRoot(root: seq<TreeNode>, dir: string, leaf: string, entry: FileNode)
    requires WellFormed(root)
    requires Parts(entry.path) == [dir, leaf]
    requires Get(root, dir).Some? && Get(root, dir).value.kind == File
    requires !Truthy(root, leaf)
    ensures AddEntry(root, entry) == root + [NewNode([dir, leaf], 1, entry)]
  {
    WalkIsRootWalk(root, [dir, leaf], 0, entry);
    var n := Get(root, dir).value;
    var k :| 0 <= k < |root| && root[k] == n;
    assert NodeShape(root[k]);
  }

  // ---------------------------------------------------------------------
  // The tree view's guards

  /** `hasChild`: the node has a non-empty children list. */
  predicate HasChild(n: TreeNode) {
    n.children.Some? && |n.children.value| > 0
  }

  /** The file record a tree node stands for. */
  function AsFileNode(n: TreeNode): FileNode {
    FileNode(n.name, n.path, n.kind, n.content)
  }

  /** `openFile(node)`: only file nodes are handed to the file service. */
  function OpenFile(s: FileService.EditorState, n: TreeNode): (r: FileService.EditorState)
    ensures n.kind == Directory ==> r == s
    ensures n.kind == File ==> r.currentFile == Some(AsFileNode(n)) && r.files == s.files
  {
    if n.kind == File then FileService.OpenFile(s, AsFileNode(n)) else s
  }
}
