/**
 Settling the folders (plugin/src/operation-plan.ts:11-26): retire what
 stands on a move destination, then relocate every displaced folder, breaking
 cycles with scratch names.
 */
module FolderPlan {
  import opened Wrappers
  import opened Paths
  import opened OperationModel
  import opened PlanWork

  // ------------------------------------------------------------------ sorting

  /** Stable insertion by ascending key, as `Array.prototype.sort` orders. */
  function Insert(d: Folder, sorted: seq<Folder>, key: Folder -> int): seq<Folder> {
    if sorted == [] then [d]
    else if key(d) <= key(sorted[0]) then [d] + sorted
    else [sorted[0]] + Insert(d, sorted[1..], key)
  }

  function SortBy(folders: seq<Folder>, key: Folder -> int): seq<Folder> {
    if folders == [] then [] else Insert(folders[0], SortBy(folders[1..], key), key)
  }

  ghost predicate Sorted(folders: seq<Folder>, key: Folder -> int) {
    forall i, j :: 0 <= i < j < |folders| ==> key(folders[i]) <= key(folders[j])
  }

  lemma {:induction false} InsertFacts(d: Folder, sorted: seq<Folder>, key: Folder -> int)
    requires Sorted(sorted, key)
    ensures var r := Insert(d, sorted, key);
      Sorted(r, key) && |r| == |sorted| + 1 && forall e :: e in r <==> e == d || e in sorted
  {
    if sorted != [] && key(d) > key(sorted[0]) {
      InsertFacts(d, sorted[1..], key);
      assert forall e :: e in sorted <==> e == sorted[0] || e in sorted[1..];
      var rest := Insert(d, sorted[1..], key);
      forall e | e in rest
        ensures key(sorted[0]) <= key(e)
      {
      }
    }
  }

  lemma {:induction false} SortFacts(folders: seq<Folder>, key: Folder -> int)
    ensures var r := SortBy(folders, key);
      Sorted(r, key) && |r| == |folders| && forall e :: e in r <==> e in folders
  {
    if folders != [] {
      SortFacts(folders[1..], key);
      InsertFacts(folders[0], SortBy(folders[1..], key), key);
      assert forall e :: e in folders <==> e == folders[0] || e in folders[1..];
    }
  }

  lemma {:induction false} InsertDistinct(d: Folder, sorted: seq<Folder>, key: Folder -> int)
    requires Sorted(sorted, key) && DistinctFolderIds(sorted) && forall e :: e in sorted ==> e.id != d.id
    ensures DistinctFolderIds(Insert(d, sorted, key))
  {
    if sorted != [] && key(d) > key(sorted[0]) {
      InsertDistinct(d, sorted[1..], key);
      InsertFacts(d, sorted[1..], key);
      forall e | e in Insert(d, sorted[1..], key)
        ensures e.id != sorted[0].id
      {
      }
    }
  }

  lemma {:induction false} SortDistinct(folders: seq<Folder>, key: Folder -> int)
    requires DistinctFolderIds(folders)
    ensures DistinctFolderIds(SortBy(folders, key))
  {
    if folders != [] {
      SortDistinct(folders[1..], key);
      SortFacts(folders[1..], key);
      forall e | e in SortBy(folders[1..], key)
        ensures e.id != folders[0].id
      {
      }
      InsertDistinct(folders[0], SortBy(folders[1..], key), key);
    }
  }

  function SegmentLength(s: Segment): nat {
    match s
    case Name(text) => |text|
    case Scratch(_) => 51 // ".gib-sync-move-" and a 36-character uuid
  }

  /** `path.length`, the separators included. */
  function TextLength(path: Path): nat {
    if path == [] then 0
    else TextLength(path[..|path| - 1]) + (if |path| == 1 then 0 else 1) + SegmentLength(path[|path| - 1])
  }

  lemma {:induction false} UnderIsLonger(path: Path, root: Path)
    requires Under(path, root)
    ensures TextLength(path) > TextLength(root)
  {
    var parent := path[..|path| - 1];
    if parent != root {
      assert parent[..|root|] == path[..|root|];
      UnderIsLonger(parent, root);
    }
  }

  function LongestFirst(d: Folder): int { -(TextLength(d.path) as int) }

  function ShallowFirst(d: Folder): int { |d.path| }

  // --------------------------------------------------------------- retirement

  predicate Displaced(d: Folder, destinations: map<Id, Path>) {
    d.id in destinations && destinations[d.id] != d.path
  }

  /** Every folder with a destination stands on it. */
  ghost predicate NoneDisplaced(folders: seq<Folder>, destinations: map<Id, Path>) {
    forall d :: d in folders ==> !Displaced(d, destinations)
  }

  function DisplacedFolders(folders: seq<Folder>, destinations: map<Id, Path>): seq<Folder> {
    if folders == [] then []
    else (if Displaced(folders[0], destinations) then [folders[0]] else []) + DisplacedFolders(folders[1..], destinations)
  }

  lemma {:induction false} DisplacedFacts(folders: seq<Folder>, destinations: map<Id, Path>)
    ensures forall d :: d in DisplacedFolders(folders, destinations) <==> d in folders && Displaced(d, destinations)
  {
    if folders != [] {
      DisplacedFacts(folders[1..], destinations);
      assert forall d :: d in folders <==> d == folders[0] || d in folders[1..];
    }
  }

  predicate Misplaced(d: Folder, destination: Path, destinations: map<Id, Path>) {
    d.path == destination && (d.id in destinations ==> destinations[d.id] != destination)
  }

  /** The first folder at `destination` that is not meant to be there. */
  function RootAt(folders: seq<Folder>, destination: Path, destinations: map<Id, Path>): (r: Option<Folder>)
    ensures r.Some? ==> r.value in folders && Misplaced(r.value, destination, destinations)
    ensures r.None? ==> forall d :: d in folders ==> !Misplaced(d, destination, destinations)
  {
    if folders == [] then None
    else if Misplaced(folders[0], destination, destinations)
    then Some(folders[0])
    else RootAt(folders[1..], destination, destinations)
  }

  predicate Kept(f: File, finalFiles: set<Id>) {
    f.id.Some? && f.id.value in finalFiles
  }

  /** The first file at `destination` that no entry asks to keep. */
  function SquatterAt(files: seq<File>, destination: Path, finalFiles: set<Id>): (r: Option<File>)
    ensures r.Some? ==> r.value in files && r.value.path == destination && !Kept(r.value, finalFiles)
    ensures r.None? ==> forall f :: f in files && f.path == destination ==> Kept(f, finalFiles)
  {
    if files == [] then None
    else if files[0].path == destination && !Kept(files[0], finalFiles) then Some(files[0])
    else SquatterAt(files[1..], destination, finalFiles)
  }

  function FoldersFrom(folders: seq<Folder>, root: Path): seq<Folder> {
    if folders == [] then []
    else (if folders[0].path == root || Under(folders[0].path, root) then [folders[0]] else []) + FoldersFrom(folders[1..], root)
  }

  lemma {:induction false} FoldersFromFacts(folders: seq<Folder>, root: Path)
    ensures forall d :: d in FoldersFrom(folders, root) <==> d in folders && (d.path == root || Under(d.path, root))
    ensures DistinctFolderIds(folders) ==> DistinctFolderIds(FoldersFrom(folders, root))
  {
    if folders != [] {
      FoldersFromFacts(folders[1..], root);
      assert forall d :: d in folders <==> d == folders[0] || d in folders[1..];
      if DistinctFolderIds(folders) {
        forall d | d in FoldersFrom(folders[1..], root)
          ensures d.id != folders[0].id
        {
          assert d in folders[1..];
        }
      }
    }
  }

  lemma {:induction false} FilesUnderDistinct(files: seq<File>, root: Path)
    requires DistinctFileIds(files)
    ensures DistinctFileIds(FilesUnder(files, root))
  {
    if files != [] {
      FilesUnderDistinct(files[1..], root);
      FilesUnderFacts(files[1..], root);
      forall f | f in FilesUnder(files[1..], root) && files[0].id.Some?
        ensures f.id != files[0].id
      {
        assert f in files[1..];
      }
    }
  }

  /** What retirement may take away: files and folders nobody asked to keep. */
  ghost predicate OnlyUnwantedGone(before: Work, after: Work, finalFiles: set<Id>, finalFolders: set<Id>, preserved: set<Id>) {
    && (forall f :: f in after.files ==> f in before.files)
    && (forall f :: f in before.files && f !in after.files ==> f.id.Some? && f.id.value !in finalFiles)
    && Unidentified(after.files) == Unidentified(before.files)
    && before.next <= after.next
    && (forall d :: d in after.folders ==> d in before.folders)
    && (forall d :: d in before.folders && d !in after.folders ==> d.id !in finalFolders && d.id !in preserved)
  }

  /** What is gone stood at the path or under it. */
  ghost predicate GoneFrom(before: Work, after: Work, path: Path) {
    && (forall f :: f in before.files && f !in after.files ==> f.path == path || Under(f.path, path))
    && (forall d :: d in before.folders && d !in after.folders ==> d.path == path || Under(d.path, path))
  }

  /** What is gone stood in the way of a displaced folder. */
  ghost predicate GoneFromWay(before: Work, after: Work, destinations: map<Id, Path>) {
    && (forall f :: f in before.files && f !in after.files ==> InTheWay(before.folders, destinations, f.path))
    && (forall d :: d in before.folders && d !in after.folders ==> InTheWay(before.folders, destinations, d.path))
  }

  /** The path is the destination of a displaced folder, or lies under it. */
  ghost predicate InTheWay(folders: seq<Folder>, destinations: map<Id, Path>, path: Path) {
    exists d :: d in folders && d.id in destinations && destinations[d.id] != d.path
                && (path == destinations[d.id] || Under(path, destinations[d.id]))
  }

  ghost predicate IsGoal(folders: seq<Folder>, destinations: map<Id, Path>, path: Path) {
    exists d :: d in folders && Displaced(d, destinations) && destinations[d.id] == path
  }

  lemma GoneStep(start: Work, before: Work, after: Work, destinations: map<Id, Path>, path: Path)
    requires GoneFromWay(start, before, destinations) && GoneFrom(before, after, path)
    requires IsGoal(start.folders, destinations, path)
    ensures GoneFromWay(start, after, destinations)
  {
    hide Under;
    var d :| d in start.folders && Displaced(d, destinations) && destinations[d.id] == path;
    assert forall p: Path :: p == path || Under(p, path) ==> InTheWay(start.folders, destinations, p);
  }

  /** `rest` still holds every file of `files` but the first `i` children. */
  ghost predicate Remaining(files: seq<File>, children: seq<File>, i: nat, rest: seq<File>)
    requires i <= |children|
  {
    && (forall f :: f in rest <==> f in files && f !in children[..i])
    && (forall k :: 0 <= k < i ==> children[k].id.Some?)
  }

  lemma RemainingStep(files: seq<File>, children: seq<File>, i: nat, rest: seq<File>)
    requires i < |children| && Remaining(files, children, i, rest)
    requires DistinctFileIds(files) && DistinctFileIds(children) && children[i].id.Some?
    requires forall f :: f in children ==> f in files
    ensures children[i] in rest
    ensures Remaining(files, children, i + 1, DropFile(rest, children[i].id.value))
  {
    var child := children[i];
    assert forall k :: 0 <= k < i ==> children[k].id != child.id;
    DropFileMembers(rest, child.id.value);
    assert children[..i + 1] == children[..i] + [child];
    forall f | f in files && f.id == child.id
      ensures f == child
    {
      SameFile(files, f, child);
    }
  }

  /** One child less. */
  lemma NextChild(t: Tree, files: seq<File>, w: Work, children: seq<File>, i: nat)
    requires Consistent(t, w) && i < |children| && Remaining(files, children, i, w.files)
    requires DistinctFileIds(files) && DistinctFileIds(children) && forall f :: f in children ==> f in files
    requires children[i].id.Some? && children[i].revision.Some?
    ensures var r := DeleteFile(w, children[i]);
      && Consistent(t, r) && r.folders == w.folders && r.next >= w.next && Drawn(w, r)
      && Remaining(files, children, i + 1, r.files) && Unidentified(r.files) == Unidentified(w.files)
  {
    hide Consistent, Unidentified, Drawn;
    var child := children[i];
    RemainingStep(files, children, i, w.files);
    DeleteFileConsistent(t, w, child);
    UnidentifiedDrop(w.files, child.id.value);
    OneDrawn(w, DeleteFile(w, child), DeleteFile(w, child).ops[|w.ops|]);
  }

  method DeleteChildren(ghost t: Tree, w: Work, root: Path, finalFiles: set<Id>) returns (r: Result<Work>)
    requires Consistent(t, w)
    requires forall f :: f in FilesUnder(w.files, root) ==> !Kept(f, finalFiles)
    ensures r.Ok? ==> Consistent(t, r.value) && r.value.folders == w.folders && r.value.next >= w.next && Drawn(w, r.value)
    ensures r.Ok? ==> forall f :: f in r.value.files <==> f in w.files && !Under(f.path, root)
    ensures r.Ok? ==> forall f :: f in w.files && Under(f.path, root) ==> f.id.Some? && f.id.value !in finalFiles
    ensures r.Ok? ==> Unidentified(r.value.files) == Unidentified(w.files)
  {
    var children := FilesUnder(w.files, root);
    FilesUnderFacts(w.files, root);
    FilesUnderDistinct(w.files, root);
    hide Drawn, Unidentified, FilesUnder, DistinctFileIds, DistinctFolderIds, Proper, OldPaths, NoMoves, Run, DeleteFile, Remaining, Under;
    var at := w;
    NothingRemoved(w.files, children);
    NoneDrawn(w, at);
    for i := 0 to |children|
      invariant Consistent(t, at) && at.folders == w.folders && at.next >= w.next && Drawn(w, at)
      invariant Remaining(w.files, children, i, at.files)
      invariant Unidentified(at.files) == Unidentified(w.files)
    {
      var child := children[i];
      if child.id.None? || child.revision.None? {
        return Thrown("A retired subtree lacks identity");
      }
      NextChild(t, w.files, at, children, i);
      DrawnTransitive(w, at, DeleteFile(at, child));
      at := DeleteFile(at, child);
    }
    AllRemoved(w.files, children, root, at.files);
    return Ok(at);
  }

  lemma NothingRemoved(files: seq<File>, children: seq<File>)
    ensures Remaining(files, children, 0, files)
  {
  }

  lemma AllRemoved(files: seq<File>, children: seq<File>, root: Path, rest: seq<File>)
    requires Remaining(files, children, |children|, rest)
    requires forall f :: f in children <==> f in files && Under(f.path, root)
    ensures forall f :: f in rest <==> f in files && !Under(f.path, root)
    ensures forall f :: f in files && Under(f.path, root) ==> f.id.Some?
  {
    hide Under;
    assert children[..|children|] == children;
    forall f | f in children
      ensures f.id.Some?
    {
      var k :| 0 <= k < |children| && children[k] == f;
    }
  }

  lemma NestedGoesFirst(doomed: seq<Folder>, i: nat, e: Folder)
    requires Sorted(doomed, LongestFirst) && i < |doomed| && e in doomed && Under(e.path, doomed[i].path)
    ensures e in doomed[..i]
  {
    UnderIsLonger(e.path, doomed[i].path);
    var k :| 0 <= k < |doomed| && doomed[k] == e;
    assert LongestFirst(e) < LongestFirst(doomed[i]);
    assert k < i && doomed[..i][k] == e;
  }

  lemma NothingUnderNext(files: seq<File>, left: seq<Folder>, folders: seq<Folder>, root: Path, doomed: seq<Folder>, i: nat)
    requires Sorted(doomed, LongestFirst) && i < |doomed|
    requires forall d :: d in doomed <==> d in folders && (d.path == root || Under(d.path, root))
    requires forall f :: f in files ==> !Under(f.path, root)
    requires forall d :: d in left <==> d in folders && d !in doomed[..i]
    ensures NothingUnder(Tree(files, left), doomed[i].path)
  {
    var d := doomed[i];
    assert d in doomed;
    forall f | f in files
      ensures !Under(f.path, d.path)
    {
      if Under(f.path, d.path) && d.path != root {
        UnderTransitive(f.path, d.path, root);
      }
    }
    forall e | e in left
      ensures !Under(e.path, d.path)
    {
      if Under(e.path, d.path) {
        if d.path != root {
          UnderTransitive(e.path, d.path, root);
        }
        NestedGoesFirst(doomed, i, e);
      }
    }
  }

  lemma NextGone(left: seq<Folder>, folders: seq<Folder>, doomed: seq<Folder>, i: nat)
    requires DistinctFolderIds(folders) && DistinctFolderIds(doomed) && i < |doomed|
    requires forall d :: d in doomed ==> d in folders
    requires forall d :: d in left <==> d in folders && d !in doomed[..i]
    ensures doomed[i] in left
    ensures forall d :: d in DropFolder(left, doomed[i].id) <==> d in folders && d !in doomed[..i + 1]
  {
    var d := doomed[i];
    assert d !in doomed[..i];
    DropFolderMembers(left, d.id);
    assert doomed[..i + 1] == doomed[..i] + [d];
    SameFolder(folders, d);
  }

  method RemoveFolders(ghost t: Tree, w: Work, root: Path) returns (r: Work)
    requires Consistent(t, w)
    requires forall f :: f in w.files ==> !Under(f.path, root)
    ensures Consistent(t, r) && r.files == w.files && r.next >= w.next && Drawn(w, r)
    ensures forall d :: d in r.folders <==> d in w.folders && d.path != root && !Under(d.path, root)
  {
    hide Proper, OldPaths, NothingUnder, Drawn;
    var doomed := SortBy(FoldersFrom(w.folders, root), LongestFirst);
    FoldersFromFacts(w.folders, root);
    SortFacts(FoldersFrom(w.folders, root), LongestFirst);
    SortDistinct(FoldersFrom(w.folders, root), LongestFirst);
    r := w;
    NoneDrawn(w, r);
    for i := 0 to |doomed|
      invariant Consistent(t, r) && r.files == w.files && r.next >= w.next && Drawn(w, r)
      invariant forall d :: d in r.folders <==> d in w.folders && d !in doomed[..i]
    {
      NothingUnderNext(r.files, r.folders, w.folders, root, doomed, i);
      NextGone(r.folders, w.folders, doomed, i);
      RemoveFolderConsistent(t, r, doomed[i]);
      ghost var before := r;
      r := RemoveFolder(r, doomed[i]);
      OneDrawn(before, r, r.ops[|before.ops|]);
      DrawnTransitive(w, before, r);
    }
    assert doomed[..|doomed|] == doomed;
  }

  ghost predicate PathsApart(w: Work) {
    && (forall f, g :: f in w.files && g in w.files && f.path == g.path ==> f == g)
    && (forall d, e :: d in w.folders && e in w.folders && d.path == e.path ==> d == e)
  }

  /** Somebody wants a file under the path, or a folder at it or under it. */
  ghost predicate SomethingWanted(w: Work, path: Path, finalFiles: set<Id>, finalFolders: set<Id>, preserved: set<Id>) {
    || (exists f :: f in w.files && Under(f.path, path) && Kept(f, finalFiles))
    || (exists d :: d in w.folders && (d.path == path || Under(d.path, path)) && (d.id in finalFolders || d.id in preserved))
  }

  /** No unwanted file, and no folder without anything wanted, stands at `destination` in the way of the one that belongs there. */
  ghost predicate Vacated(w: Work, destination: Path, destinations: map<Id, Path>,
                          finalFiles: set<Id>, finalFolders: set<Id>, preserved: set<Id>) {
    && (forall f :: f in w.files && f.path == destination ==> Kept(f, finalFiles))
    && (forall d :: d in w.folders && d.path == destination && (d.id in destinations ==> destinations[d.id] != destination)
                    ==> SomethingWanted(w, destination, finalFiles, finalFolders, preserved))
  }

  /** Taking away what nobody wants keeps a vacated path vacated. */
  lemma StaysVacated(before: Work, after: Work, destination: Path, destinations: map<Id, Path>,
                     finalFiles: set<Id>, finalFolders: set<Id>, preserved: set<Id>)
    requires OnlyUnwantedGone(before, after, finalFiles, finalFolders, preserved)
    ensures PathsApart(before) ==> PathsApart(after)
    ensures Vacated(before, destination, destinations, finalFiles, finalFolders, preserved)
            ==> Vacated(after, destination, destinations, finalFiles, finalFolders, preserved)
  {
    assert SomethingWanted(before, destination, finalFiles, finalFolders, preserved)
           ==> SomethingWanted(after, destination, finalFiles, finalFolders, preserved);
  }

  ghost predicate NoSquatter(w: Work, destination: Path, finalFiles: set<Id>) {
    forall f :: f in w.files && f.path == destination ==> Kept(f, finalFiles)
  }

  /** Every folder in the wrong place there is kept for its own destination, and every file for an entry. */
  ghost predicate LeftAlone(w: Work, destination: Path, destinations: map<Id, Path>,
                            finalFiles: set<Id>, finalFolders: set<Id>, preserved: set<Id>) {
    && NoSquatter(w, destination, finalFiles)
    && (forall d :: d in w.folders && d.path == destination && (d.id in destinations ==> destinations[d.id] != destination)
                    ==> d.id in finalFolders || d.id in preserved)
  }

  /** The file in the way goes. */
  method RetireSquatter(ghost t: Tree, w: Work, destination: Path, finalFiles: set<Id>, ghost finalFolders: set<Id>, ghost preserved: set<Id>)
    returns (r: Result<Work>)
    requires Consistent(t, w)
    ensures r.Ok? ==> Consistent(t, r.value) && r.value.folders == w.folders && Drawn(w, r.value)
    ensures r.Ok? ==> OnlyUnwantedGone(w, r.value, finalFiles, finalFolders, preserved) && GoneFrom(w, r.value, destination)
    ensures r.Ok? && PathsApart(w) ==> NoSquatter(r.value, destination, finalFiles)
    ensures NoSquatter(w, destination, finalFiles) ==> r == Ok(w)
  {
    var squatter := SquatterAt(w.files, destination, finalFiles);
    if squatter.None? {
      NoneDrawn(w, w);
      return Ok(w);
    }
    var f := squatter.value;
    if f.id.None? || f.revision.None? {
      return Thrown("A retired move destination lacks identity");
    }
    DeleteFileConsistent(t, w, f);
    UnidentifiedDrop(w.files, f.id.value);
    DropFileMembers(w.files, f.id.value);
    forall g | g in w.files && g.id == f.id
      ensures g == f
    {
      SameFile(w.files, g, f);
    }
    var deleted := DeleteFile(w, f);
    OneDrawn(w, deleted, deleted.ops[|w.ops|]);
    return Ok(deleted);
  }

  /** The folder in the way goes with all it holds, unless something of that is wanted. */
  method RetireSubtree(ghost t: Tree, w: Work, destination: Path, destinations: map<Id, Path>,
                       finalFiles: set<Id>, finalFolders: set<Id>, preserved: set<Id>) returns (r: Result<Work>)
    requires Consistent(t, w)
    ensures r.Ok? ==> Consistent(t, r.value) && Drawn(w, r.value)
    ensures r.Ok? ==> OnlyUnwantedGone(w, r.value, finalFiles, finalFolders, preserved) && GoneFrom(w, r.value, destination)
    ensures r.Ok? && PathsApart(w) && NoSquatter(w, destination, finalFiles) ==>
              Vacated(r.value, destination, destinations, finalFiles, finalFolders, preserved)
    ensures LeftAlone(w, destination, destinations, finalFiles, finalFolders, preserved) ==> r == Ok(w)
  {
    hide Consistent, Unidentified, Drawn;
    NoneDrawn(w, w);
    var root := RootAt(w.folders, destination, destinations);
    if root.None? || root.value.id in finalFolders || root.value.id in preserved {
      return Ok(w);
    }
    var children := FilesUnder(w.files, destination);
    var childFolders := FoldersFrom(w.folders, destination);
    FilesUnderFacts(w.files, destination);
    FoldersFromFacts(w.folders, destination);
    if (exists f :: f in children && Kept(f, finalFiles))
       || (exists d :: d in childFolders && (d.id in finalFolders || d.id in preserved)) {
      return Ok(w);
    }
    var cleared :- DeleteChildren(t, w, destination, finalFiles);
    var emptied := RemoveFolders(t, cleared, destination);
    DrawnTransitive(w, cleared, emptied);
    return Ok(emptied);
  }

  /** One pass of the retirement loop. */
  method RetireAt(ghost t: Tree, w: Work, destination: Path, destinations: map<Id, Path>,
                  finalFiles: set<Id>, finalFolders: set<Id>, preserved: set<Id>) returns (r: Result<Work>)
    requires Consistent(t, w)
    ensures r.Ok? ==> Consistent(t, r.value) && Drawn(w, r.value)
    ensures r.Ok? ==> OnlyUnwantedGone(w, r.value, finalFiles, finalFolders, preserved) && GoneFrom(w, r.value, destination)
    ensures r.Ok? && PathsApart(w) ==> Vacated(r.value, destination, destinations, finalFiles, finalFolders, preserved)
    ensures LeftAlone(w, destination, destinations, finalFiles, finalFolders, preserved) ==> r == Ok(w)
  {
    hide Consistent, PathsApart, Vacated, Drawn;
    var at :- RetireSquatter(t, w, destination, finalFiles, finalFolders, preserved);
    StaysVacated(w, at, destination, destinations, finalFiles, finalFolders, preserved);
    r := RetireSubtree(t, at, destination, destinations, finalFiles, finalFolders, preserved);
    if r.Ok? {
      DrawnTransitive(w, at, r.value);
    }
  }

  /** `new Set(paths)` in its insertion order. */
  function Unique(paths: seq<Path>): (r: seq<Path>)
    ensures forall p :: p in r <==> p in paths
  {
    if paths == [] then []
    else
      var rest := Unique(paths[..|paths| - 1]);
      var last := paths[|paths| - 1];
      assert forall p :: p in paths <==> p in paths[..|paths| - 1] || p == last;
      if last in rest then rest else rest + [last]
  }

  function DestinationsOf(displaced: seq<Folder>, destinations: map<Id, Path>): seq<Path>
    requires forall d :: d in displaced ==> d.id in destinations
  {
    seq(|displaced|, i requires 0 <= i < |displaced| => destinations[displaced[i].id])
  }

  lemma NothingGone(w: Work, destinations: map<Id, Path>, finalFiles: set<Id>, finalFolders: set<Id>, preserved: set<Id>)
    ensures OnlyUnwantedGone(w, w, finalFiles, finalFolders, preserved) && GoneFromWay(w, w, destinations)
  {
  }

  lemma UnwantedGoneStep(a: Work, b: Work, c: Work, finalFiles: set<Id>, finalFolders: set<Id>, preserved: set<Id>)
    requires OnlyUnwantedGone(a, b, finalFiles, finalFolders, preserved) && OnlyUnwantedGone(b, c, finalFiles, finalFolders, preserved)
    ensures OnlyUnwantedGone(a, c, finalFiles, finalFolders, preserved)
  {
  }

  /** The retirement loop (plugin/src/operation-plan.ts:14-23). */
  method Retire(ghost t: Tree, w: Work, destinations: map<Id, Path>,
                finalFiles: set<Id>, finalFolders: set<Id>, preserved: set<Id>) returns (r: Result<Work>)
    requires Consistent(t, w)
    ensures r.Ok? ==> Consistent(t, r.value) && Drawn(w, r.value)
    ensures r.Ok? ==> OnlyUnwantedGone(w, r.value, finalFiles, finalFolders, preserved) && GoneFromWay(w, r.value, destinations)
    ensures r.Ok? && PathsApart(w) ==> forall d :: d in w.folders && Displaced(d, destinations) ==>
              Vacated(r.value, destinations[d.id], destinations, finalFiles, finalFolders, preserved)
    ensures (forall d :: d in w.folders && Displaced(d, destinations)
                         ==> LeftAlone(w, destinations[d.id], destinations, finalFiles, finalFolders, preserved)) ==> r == Ok(w)
  {
    hide Vacated, PathsApart, Consistent, Drawn, LeftAlone, GoneFrom, GoneFromWay, OnlyUnwantedGone;
    NothingGone(w, destinations, finalFiles, finalFolders, preserved);
    var displaced := DisplacedFolders(w.folders, destinations);
    DisplacedFacts(w.folders, destinations);
    var targets := Unique(DestinationsOf(displaced, destinations));
    ghost var alone := forall d :: d in w.folders && Displaced(d, destinations)
                                   ==> LeftAlone(w, destinations[d.id], destinations, finalFiles, finalFolders, preserved);
    forall p | p in targets
      ensures alone ==> LeftAlone(w, p, destinations, finalFiles, finalFolders, preserved)
    {
      var i :| 0 <= i < |displaced| && DestinationsOf(displaced, destinations)[i] == p;
      assert displaced[i] in displaced;
    }
    forall p | p in targets
      ensures IsGoal(w.folders, destinations, p)
    {
      var i :| 0 <= i < |displaced| && DestinationsOf(displaced, destinations)[i] == p;
      assert displaced[i] in displaced;
    }
    var at := w;
    NoneDrawn(w, at);
    for i := 0 to |targets|
      invariant Drawn(w, at) && Consistent(t, at) && (PathsApart(w) ==> PathsApart(at))
      invariant OnlyUnwantedGone(w, at, finalFiles, finalFolders, preserved) && GoneFromWay(w, at, destinations)
      invariant alone ==> at == w
      invariant PathsApart(w) ==> forall k :: 0 <= k < i ==> Vacated(at, targets[k], destinations, finalFiles, finalFolders, preserved)
    {
      ghost var before := at;
      at :- RetireAt(t, at, targets[i], destinations, finalFiles, finalFolders, preserved);
      DrawnTransitive(w, before, at);
      assert targets[i] in targets;
      UnwantedGoneStep(w, before, at, finalFiles, finalFolders, preserved);
      GoneStep(w, before, at, destinations, targets[i]);
      forall p
        ensures PathsApart(before) ==> PathsApart(at)
        ensures Vacated(before, p, destinations, finalFiles, finalFolders, preserved)
                ==> Vacated(at, p, destinations, finalFiles, finalFolders, preserved)
      {
        StaysVacated(before, at, p, destinations, finalFiles, finalFolders, preserved);
      }
    }
    forall d | d in w.folders && Displaced(d, destinations)
      ensures destinations[d.id] in targets
    {
      var i :| 0 <= i < |displaced| && displaced[i] == d;
      assert DestinationsOf(displaced, destinations)[i] == destinations[d.id];
    }
    return Ok(at);
  }

  // --------------------------------------------------------------- relocation

  /** What the relocation loop does next. */
  datatype Choice = Settled | Stuck | Direct(folder: Folder) | Aside(folder: Folder)

  predicate Available(d: Folder, files: seq<File>, folders: seq<Folder>, destinations: map<Id, Path>)
    requires d.id in destinations
  {
    && (forall e :: e in folders ==> e.id == d.id || e.path != destinations[d.id])
    && (forall f :: f in files ==> f.path != destinations[d.id])
  }

  /** Another folder stands where `d` should go, and has yet to go somewhere else. */
  ghost predicate WaitsFor(d: Folder, e: Folder, destinations: map<Id, Path>) {
    && e.id != d.id && e.id in destinations && destinations[e.id] != e.path
    && d.id in destinations && e.path == destinations[d.id]
  }

  /** A displaced folder stands where `d` should go. */
  predicate Blocked(d: Folder, folders: seq<Folder>, destinations: map<Id, Path>)
    requires d.id in destinations
  {
    exists e :: e in folders && e.id != d.id && e.path == destinations[d.id] && Displaced(e, destinations)
  }

  function FirstAvailable(moving: seq<Folder>, files: seq<File>, folders: seq<Folder>, destinations: map<Id, Path>): (r: Option<Folder>)
    requires forall d :: d in moving ==> d.id in destinations
    ensures r.Some? ==> r.value in moving && Available(r.value, files, folders, destinations)
    ensures r.None? ==> forall d :: d in moving ==> !Available(d, files, folders, destinations)
  {
    if moving == [] then None
    else if Available(moving[0], files, folders, destinations) then Some(moving[0])
    else FirstAvailable(moving[1..], files, folders, destinations)
  }

  function FirstBlocked(moving: seq<Folder>, folders: seq<Folder>, destinations: map<Id, Path>): (r: Option<Folder>)
    requires forall d :: d in moving ==> d.id in destinations
    ensures r.Some? ==> r.value in moving && Blocked(r.value, folders, destinations)
    ensures r.None? ==> forall d :: d in moving ==> !Blocked(d, folders, destinations)
  {
    if moving == [] then None
    else if Blocked(moving[0], folders, destinations) then Some(moving[0])
    else FirstBlocked(moving[1..], folders, destinations)
  }

  function Moving(folders: seq<Folder>, destinations: map<Id, Path>): (r: seq<Folder>)
    ensures forall d :: d in r <==> d in folders && Displaced(d, destinations)
  {
    DisplacedFacts(folders, destinations);
    SortFacts(DisplacedFolders(folders, destinations), ShallowFirst);
    SortBy(DisplacedFolders(folders, destinations), ShallowFirst)
  }

  function Choose(files: seq<File>, folders: seq<Folder>, destinations: map<Id, Path>): (c: Choice)
    ensures c.Settled? <==> forall d :: d in folders ==> !Displaced(d, destinations)
    ensures c.Direct? ==> c.folder in folders && Displaced(c.folder, destinations)
                          && Available(c.folder, files, folders, destinations)
    ensures c.Aside? ==> c.folder in folders && Displaced(c.folder, destinations)
                         && exists e :: e in folders && WaitsFor(c.folder, e, destinations)
    ensures c.Aside? || c.Stuck? ==> forall d :: d in folders && Displaced(d, destinations) ==> !Available(d, files, folders, destinations)
    ensures c.Stuck? ==> forall d, e :: d in folders && e in folders && Displaced(d, destinations) ==> !WaitsFor(d, e, destinations)
  {
    var moving := Moving(folders, destinations);
    if moving == [] then
      assert forall d :: d in folders && Displaced(d, destinations) ==> d in moving;
      Settled
    else
      assert moving[0] in moving;
      var available := FirstAvailable(moving, files, folders, destinations);
      if available.Some? then Direct(available.value)
      else
        var candidate := FirstBlocked(moving, folders, destinations);
        if candidate.Some? then Aside(candidate.value) else Stuck
  }

  ghost predicate SameEntities(before: Work, after: Work) {
    && |after.files| == |before.files|
    && (forall i :: 0 <= i < |after.files| ==> after.files[i] == before.files[i].(path := after.files[i].path))
    && (forall i :: 0 <= i < |after.files| && after.files[i].id.None? ==> after.files[i] == before.files[i])
    && |after.folders| == |before.folders|
    && (forall i :: 0 <= i < |after.folders| ==> after.folders[i] == before.folders[i].(path := after.folders[i].path))
  }

  /** From `before` to `after` only folder moves were emitted, and only paths changed. */
  ghost predicate OnlyRelocated(before: Work, after: Work) {
    && SameEntities(before, after)
    && |before.ops| <= |after.ops| && after.ops[..|before.ops|] == before.ops
    && (forall k :: |before.ops| <= k < |after.ops| ==> after.ops[k].MoveFolder?)
    && after.deletedAt == before.deletedAt
    && before.next <= after.next
  }

  lemma RelocateOnly(w: Work, root: Folder, to: Path)
    requires root in w.folders && DistinctFolderIds(w.folders)
    ensures var r := Relocate(w, root, to); r.Ok? ==> OnlyRelocated(w, r.value)
  {
    SameFolder(w.folders, root);
    FilesUnderFacts(w.files, root.path);
  }

  lemma OnlyRelocatedTransitive(a: Work, b: Work, c: Work)
    requires OnlyRelocated(a, b) && OnlyRelocated(b, c)
    ensures OnlyRelocated(a, c)
  {
    assert c.ops[..|a.ops|] == c.ops[..|b.ops|][..|a.ops|];
    forall k | |a.ops| <= k < |c.ops|
      ensures c.ops[k].MoveFolder?
    {
      if k < |b.ops| {
        assert c.ops[k] == c.ops[..|b.ops|][k];
      }
    }
  }

  /** One turn of the relocation loop; a scratch name takes one uuid. */
  function Turn(w: Work, destinations: map<Id, Path>): Result<Work> {
    match Choose(w.files, w.folders, destinations)
    case Settled => Ok(w)
    case Stuck => Thrown("An independently occupied folder destination was retained")
    case Direct(d) => Relocate(w, d, destinations[d.id])
    case Aside(d) => Relocate(w.(next := w.next + 1), d, [Scratch(Minted(w.next))])
  }

  function Turns(w: Work, destinations: map<Id, Path>, remaining: nat): Result<Work>
    decreases remaining
  {
    if remaining == 0 then Ok(w)
    else
      var r := Turn(w, destinations);
      if r.Thrown? then r else Turns(r.value, destinations, remaining - 1)
  }

  /** All the turns there are, and the closing check. */
  function Relocated(w: Work, destinations: map<Id, Path>): Result<Work> {
    var r := Turns(w, destinations, |w.folders| * 3 + 1);
    if r.Ok? && exists d :: d in r.value.folders && Displaced(d, destinations) then Thrown("Folder moves could not be planned safely")
    else r
  }

  lemma {:induction false} SettledTurns(w: Work, destinations: map<Id, Path>, remaining: nat)
    requires Choose(w.files, w.folders, destinations).Settled?
    ensures Turns(w, destinations, remaining) == Ok(w)
  {
    if remaining > 0 {
      SettledTurns(w, destinations, remaining - 1);
    }
  }

  lemma DirectConsistent(t: Tree, w: Work, d: Folder, to: Path)
    requires Consistent(t, w) && d in w.folders && OldPath(to, w.next) && Vacant(Tree(w.files, w.folders), to, d.id)
    ensures var r := Relocate(w, d, to); r.Ok? ==> Consistent(t, r.value) && OnlyRelocated(w, r.value) && Drawn(w, r.value)
  {
    RelocateConsistent(t, w, d, to);
    RelocateOnly(w, d, to);
    var r := Relocate(w, d, to);
    hide Consistent, OnlyRelocated;
    if r.Ok? {
      OneDrawn(w, r.value, r.value.ops[|w.ops|]);
    }
  }

  lemma AsideConsistent(t: Tree, w: Work, d: Folder)
    requires Consistent(t, w) && d in w.folders
    ensures var r := Relocate(w.(next := w.next + 1), d, [Scratch(Minted(w.next))]);
      r.Ok? ==> Consistent(t, r.value) && OnlyRelocated(w, r.value) && Drawn(w, r.value)
  {
    var drawn, to := w.(next := w.next + 1), [Scratch(Minted(w.next))];
    ScratchIsVacant(w, to, d.id, w.next);
    RelocateConsistent(t, drawn, d, to);
    RelocateOnly(drawn, d, to);
    var r := Relocate(drawn, d, to);
    hide Consistent;
    if r.Ok? {
      OneDrawn(w, r.value, r.value.ops[|w.ops|]);
    }
  }

  lemma TurnConsistent(t: Tree, w: Work, destinations: map<Id, Path>)
    requires Consistent(t, w) && forall id :: id in destinations ==> OldPath(destinations[id], w.next)
    ensures var r := Turn(w, destinations); r.Ok? ==> Consistent(t, r.value) && OnlyRelocated(w, r.value) && Drawn(w, r.value)
  {
    hide Consistent, OnlyRelocated, Drawn, Relocate, Choose, OldPath;
    var choice := Choose(w.files, w.folders, destinations);
    match choice
    case Direct(d) => DirectConsistent(t, w, d, destinations[d.id]);
    case Aside(d) => AsideConsistent(t, w, d);
    case _ =>
      NoneDrawn(w, w);
      NotRelocated(w);
  }

  /** The relocation loop and its closing check (plugin/src/operation-plan.ts:24-26). */
  method RelocateAll(ghost t: Tree, w: Work, destinations: map<Id, Path>) returns (r: Result<Work>)
    requires Consistent(t, w)
    requires forall id :: id in destinations ==> OldPath(destinations[id], w.next)
    ensures r == Relocated(w, destinations)
    ensures r.Ok? ==> Consistent(t, r.value) && OnlyRelocated(w, r.value) && Drawn(w, r.value)
    ensures r.Ok? ==> forall d :: d in r.value.folders && d.id in destinations ==> d.path == destinations[d.id]
    ensures NoneDisplaced(w.folders, destinations) ==> r == Ok(w)
  {
    hide Drawn, Choose, Turn, Consistent, Drawn, OnlyRelocated;
    var at := w;
    NoneDrawn(w, at);
    NotRelocated(w);
    var remaining := |w.folders| * 3 + 1;
    while remaining > 0
      invariant Consistent(t, at) && OnlyRelocated(w, at) && Drawn(w, at)
      invariant at.next >= w.next && remaining >= 0
      invariant Turns(w, destinations, |w.folders| * 3 + 1) == Turns(at, destinations, remaining)
      invariant NoneDisplaced(w.folders, destinations) ==> at == w
      decreases remaining
    {
      var choice := Choose(at.files, at.folders, destinations);
      if choice.Settled? {
        SettledTurns(at, destinations, remaining);
        break;
      }
      ghost var before := at;
      TurnConsistent(t, at, destinations);
      at :- Turn(at, destinations);
      OnlyRelocatedTransitive(w, before, at);
      DrawnTransitive(w, before, at);
      RelocatedNext(before, at);
      remaining := remaining - 1;
    }
    if exists d :: d in at.folders && Displaced(d, destinations) {
      return Thrown("Folder moves could not be planned safely");
    }
    return Ok(at);
  }

  lemma NotRelocated(w: Work)
    ensures OnlyRelocated(w, w)
  {
  }

  lemma RelocatedNext(before: Work, after: Work)
    requires OnlyRelocated(before, after)
    ensures after.next >= before.next
  {
  }

  lemma ScratchIsVacant(w: Work, to: Path, id: Id, serial: nat)
    requires to == [Scratch(Minted(serial))]
    requires forall f :: f in w.files ==> OldPath(f.path, serial)
    requires forall d :: d in w.folders ==> OldPath(d.path, serial)
    ensures Vacant(Tree(w.files, w.folders), to, id)
  {
    assert to[0].Scratch? && !OldPath(to, serial);
  }
}
