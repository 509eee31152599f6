/**
 The planner's working arrays (plugin/src/operation-plan.ts:6-7), what they
 have in common with the batch emitted so far, and the single steps that
 change both.
 */
module PlanWork {
  import opened Wrappers
  import opened Paths
  import opened OperationModel

  /** `operations`, `files`, `directories`, `deletedAt` and the state of the uuid source. */
  datatype Work = Work(ops: seq<Op>, files: seq<File>, folders: seq<Folder>, deletedAt: map<Path, Op>, next: nat)

  /** `op` removes the entity that `t` has at `path`. */
  ghost predicate RemovalOf(t: Tree, op: Op, path: Path) {
    || (op.Delete? && exists f :: f in t.files && f.id == Some(op.target) && f.path == path)
    || (op.Rmdir? && exists d :: d in t.folders && d.id == op.target && d.path == path)
  }

  /** Each remembered removal is the last operation of the batch that removed what was at that path, and none is forgotten. */
  ghost predicate Recorded(t: Tree, ops: seq<Op>, deletedAt: map<Path, Op>) {
    && (forall path :: path in deletedAt ==> RemovedEarlier(t, ops, path, deletedAt[path]))
    && (forall k, path :: 0 <= k < |ops| && RemovedAt(t, ops, k, path) ==> path in deletedAt)
  }

  predicate IsRemoval(op: Op) {
    op.Delete? || op.Rmdir?
  }

  /** Operation `k` removes what is at `path`. */
  ghost predicate RemovedAt(t: Tree, ops: seq<Op>, k: nat, path: Path)
    requires k < |ops|
  {
    RemovalOf(Run(t, ops[..k]), ops[k], path)
  }

  /** Operation `k` removes what is at `path`, and no later one does. */
  ghost predicate LastRemovedAt(t: Tree, ops: seq<Op>, k: nat, path: Path) {
    k < |ops| && RemovedAt(t, ops, k, path) && forall j: nat :: k < j < |ops| ==> !RemovedAt(t, ops, j, path)
  }

  ghost predicate RemovedEarlier(t: Tree, ops: seq<Op>, path: Path, op: Op) {
    exists k: nat :: LastRemovedAt(t, ops, k, path) && ops[k] == op
  }

  /** `path` is a live folder, or the vault root. */
  ghost predicate LiveFolder(t: Tree, path: Path) {
    path == [] || exists d :: d in t.folders && d.path == path
  }

  ghost predicate NothingUnder(t: Tree, path: Path) {
    (forall f :: f in t.files ==> !Under(f.path, path)) && (forall d :: d in t.folders ==> !Under(d.path, path))
  }

  /** A folder goes only when nothing lies under it. */
  ghost predicate Emptied(t: Tree, op: Op) {
    op.Rmdir? ==> forall d :: d in t.folders && d.id == op.target ==> NothingUnder(t, d.path)
  }

  /** Whatever is made is made inside a live folder. */
  ghost predicate Housed(t: Tree, op: Op) {
    Makes(op) ==> LiveFolder(t, Parent(op.path))
  }

  ghost predicate Sheltered(t: Tree, op: Op) {
    Emptied(t, op) && Housed(t, op)
  }

  ghost predicate OldPaths(w: Work) {
    (forall f :: f in w.files ==> OldPath(f.path, w.next)) && (forall d :: d in w.folders ==> OldPath(d.path, w.next))
  }

  /** While folders are being settled the working arrays are the run of the batch so far. */
  ghost predicate Consistent(t: Tree, w: Work) {
    && Run(t, w.ops) == Tree(w.files, w.folders)
    && DistinctIds(Tree(w.files, w.folders))
    && Proper(t, w.ops, w.deletedAt)
    && NoMoves(w.ops)
    && OldPaths(w)
  }

  /** Files are moved only once the folders are settled. */
  ghost predicate NoMoves(ops: seq<Op>) {
    forall k :: 0 <= k < |ops| ==> !ops[k].Move?
  }

  /** The batch so far is lawful and sheltered, makes nothing, and its removals are on record. */
  ghost predicate Proper(t: Tree, ops: seq<Op>, deletedAt: map<Path, Op>) {
    Always(t, ops, Lawful) && Always(t, ops, Sheltered) && Recorded(t, ops, deletedAt) && NothingMade(ops)
  }

  /** Files and folders are created only at the end of a batch. */
  predicate Makes(op: Op) {
    op.Create? || op.Recreate? || op.Mkdir?
  }

  ghost predicate NothingMade(ops: seq<Op>) {
    forall k :: 0 <= k < |ops| ==> !Makes(ops[k])
  }

  lemma EmitProper(t: Tree, ops: seq<Op>, deletedAt: map<Path, Op>, op: Op)
    requires Proper(t, ops, deletedAt) && Lawful(Run(t, ops), op) && Sheltered(Run(t, ops), op) && !Makes(op) && !IsRemoval(op)
    ensures Proper(t, ops + [op], deletedAt)
  {
    AlwaysStep(t, ops, op, Lawful);
    AlwaysStep(t, ops, op, Sheltered);
    RecordedStep(t, ops, deletedAt, op);
  }

  lemma EmitRemoval(t: Tree, ops: seq<Op>, deletedAt: map<Path, Op>, path: Path, op: Op)
    requires Proper(t, ops, deletedAt) && Lawful(Run(t, ops), op) && Sheltered(Run(t, ops), op)
    requires RemovesOnly(Run(t, ops), op, path)
    ensures Proper(t, ops + [op], deletedAt[path := op])
  {
    AlwaysStep(t, ops, op, Lawful);
    AlwaysStep(t, ops, op, Sheltered);
    RemovalStep(t, ops, deletedAt, path, op);
  }

  /** `op` removes what is at `path`, and nothing anywhere else. */
  ghost predicate RemovesOnly(t: Tree, op: Op, path: Path) {
    RemovalOf(t, op, path) && forall q :: RemovalOf(t, op, q) ==> q == path
  }

  lemma RemovedAtPrefix(t: Tree, ops: seq<Op>, op: Op, k: nat, path: Path)
    requires k <= |ops|
    ensures k < |ops| ==> (RemovedAt(t, ops + [op], k, path) <==> RemovedAt(t, ops, k, path))
    ensures k == |ops| ==> (RemovedAt(t, ops + [op], k, path) <==> RemovalOf(Run(t, ops), op, path))
  {
    assert (ops + [op])[..k] == ops[..k] && ops[..|ops|] == ops;
  }

  /** What was on record stays on record unless its path is emptied again. */
  lemma RealStep(t: Tree, ops: seq<Op>, deletedAt: map<Path, Op>, op: Op, path: Path)
    requires path in deletedAt && RemovedEarlier(t, ops, path, deletedAt[path]) && !RemovalOf(Run(t, ops), op, path)
    ensures RemovedEarlier(t, ops + [op], path, deletedAt[path])
  {
    hide RemovedAt, RemovalOf;
    var k: nat :| LastRemovedAt(t, ops, k, path) && ops[k] == deletedAt[path];
    forall j: nat | j <= |ops|
      ensures j < |ops| ==> (RemovedAt(t, ops + [op], j, path) <==> RemovedAt(t, ops, j, path))
      ensures j == |ops| ==> !RemovedAt(t, ops + [op], j, path)
    {
      RemovedAtPrefix(t, ops, op, j, path);
    }
    assert LastRemovedAt(t, ops + [op], k, path) && (ops + [op])[k] == ops[k];
  }

  lemma NotedStep(t: Tree, ops: seq<Op>, deletedAt: map<Path, Op>, after: map<Path, Op>, op: Op)
    requires Recorded(t, ops, deletedAt) && deletedAt.Keys <= after.Keys
    requires forall q :: RemovalOf(Run(t, ops), op, q) ==> q in after
    ensures forall k, path :: 0 <= k < |ops| + 1 && RemovedAt(t, ops + [op], k, path) ==> path in after
  {
    hide RemovalOf, RemovedEarlier;
    forall k, path | 0 <= k < |ops| + 1 && RemovedAt(t, ops + [op], k, path)
      ensures path in after
    {
      RemovedAtPrefix(t, ops, op, k, path);
    }
  }

  lemma RecordedStep(t: Tree, ops: seq<Op>, deletedAt: map<Path, Op>, op: Op)
    requires Recorded(t, ops, deletedAt) && !IsRemoval(op)
    ensures Recorded(t, ops + [op], deletedAt)
  {
    forall path | path in deletedAt
      ensures RemovedEarlier(t, ops + [op], path, deletedAt[path])
    {
      RealStep(t, ops, deletedAt, op, path);
    }
    NotedStep(t, ops, deletedAt, deletedAt, op);
  }

  lemma RemovalStep(t: Tree, ops: seq<Op>, deletedAt: map<Path, Op>, path: Path, op: Op)
    requires Recorded(t, ops, deletedAt) && RemovesOnly(Run(t, ops), op, path)
    ensures Recorded(t, ops + [op], deletedAt[path := op])
  {
    hide RemovalOf, RemovedEarlier, RemovedAt;
    var after := deletedAt[path := op];
    forall q | q in after
      ensures RemovedEarlier(t, ops + [op], q, after[q])
    {
      if q == path {
        NewestRemoval(t, ops, path, op);
      } else {
        RealStep(t, ops, deletedAt, op, q);
      }
    }
    NotedStep(t, ops, deletedAt, after, op);
  }

  lemma NewestRemoval(t: Tree, ops: seq<Op>, path: Path, op: Op)
    requires RemovalOf(Run(t, ops), op, path)
    ensures RemovedEarlier(t, ops + [op], path, op)
  {
    RemovedAtPrefix(t, ops, op, |ops|, path);
    assert LastRemovedAt(t, ops + [op], |ops|, path) && (ops + [op])[|ops|] == op;
  }

  lemma FileRemovedOnly(live: Tree, f: File, op: Op)
    requires f in live.files && f.id.Some? && (forall g :: g in live.files && g.id == f.id ==> g == f)
    requires op.Delete? && op.target == f.id.value
    ensures RemovesOnly(live, op, f.path)
  {
  }

  lemma FolderRemovedOnly(live: Tree, d: Folder, op: Op)
    requires DistinctFolderIds(live.folders) && d in live.folders && op.Rmdir? && op.target == d.id
    ensures RemovesOnly(live, op, d.path)
  {
    SameFolder(live.folders, d);
  }

  // -------------------------------------------------------- fresh operation names

  /** The operations carry pairwise different names, minted from serial `lo` up to `hi`. */
  ghost predicate Serials(ops: seq<Op>, lo: nat, hi: nat) {
    && (forall k :: 0 <= k < |ops| ==> ops[k].opId.Minted? && lo <= ops[k].opId.serial < hi)
    && forall j, k :: 0 <= j < k < |ops| ==> ops[j].opId != ops[k].opId
  }

  /** From `a` to `b` operations were only added, each under a name of its own. */
  ghost predicate Drawn(a: Work, b: Work) {
    && |a.ops| <= |b.ops| && b.ops[..|a.ops|] == a.ops
    && a.next <= b.next
    && Serials(b.ops[|a.ops|..], a.next, b.next)
  }

  lemma NoneDrawn(a: Work, b: Work)
    requires b.ops == a.ops && a.next <= b.next
    ensures Drawn(a, b)
  {
  }

  lemma OneDrawn(a: Work, b: Work, op: Op)
    requires b.ops == a.ops + [op] && op.opId.Minted? && a.next <= op.opId.serial < b.next
    ensures Drawn(a, b)
  {
    assert b.ops[|a.ops|..] == [op];
  }

  lemma DrawnTransitive(a: Work, b: Work, c: Work)
    requires Drawn(a, b) && Drawn(b, c)
    ensures Drawn(a, c)
  {
    assert c.ops[..|a.ops|] == c.ops[..|b.ops|][..|a.ops|];
    SerialsJoin(b.ops[|a.ops|..], c.ops[|b.ops|..], a.next, b.next, c.next);
    assert c.ops[|a.ops|..] == b.ops[|a.ops|..] + c.ops[|b.ops|..];
  }

  lemma SerialsJoin(x: seq<Op>, y: seq<Op>, lo: nat, mid: nat, hi: nat)
    requires Serials(x, lo, mid) && Serials(y, mid, hi) && lo <= mid <= hi
    ensures Serials(x + y, lo, hi) && Serials(y + x, lo, hi)
  {
  }

  /** Edits are named before the deletes and moves they follow. */
  lemma EditsDrawn(a: Work, b: Work, c: Work, edits: seq<Op>, mid: nat)
    requires a.next <= mid && Drawn(a.(next := mid), b) && Serials(edits, a.next, mid)
    requires c.ops == b.ops + edits && c.next == b.next
    ensures Drawn(a, c)
  {
    SerialsJoin(edits, b.ops[|a.ops|..], a.next, mid, b.next);
    assert c.ops[|a.ops|..] == b.ops[|a.ops|..] + edits;
    assert c.ops[..|a.ops|] == b.ops[..|a.ops|];
  }

  // ------------------------------------------------------------ removal steps

  /** Emit a delete for `f`, remember it at its path and splice the file out. */
  function DeleteFile(w: Work, f: File): Work
    requires f.id.Some? && f.revision.Some?
  {
    var op := Delete(Minted(w.next), f.id.value, f.revision.value);
    Work(w.ops + [op], DropFile(w.files, f.id.value), w.folders, w.deletedAt[f.path := op], w.next + 1)
  }

  lemma DeleteFileConsistent(t: Tree, w: Work, f: File)
    requires Consistent(t, w) && f in w.files && f.id.Some? && f.revision.Some?
    ensures Consistent(t, DeleteFile(w, f))
  {
    var op := Delete(Minted(w.next), f.id.value, f.revision.value);
    RunStep(t, w.ops, op);
    DropFileMembers(w.files, f.id.value);
    DropFileIds(w.files, f.id.value);
    assert HasFile(Run(t, w.ops), op.target, op.revision);
    forall g | g in w.files && g.id == f.id
      ensures g == f
    {
      SameFile(w.files, g, f);
    }
    FileRemovedOnly(Run(t, w.ops), f, op);
    EmitRemoval(t, w.ops, w.deletedAt, f.path, op);
  }

  function RemoveFolder(w: Work, d: Folder): Work {
    var op := Rmdir(Minted(w.next), d.id, d.revision);
    Work(w.ops + [op], w.files, DropFolder(w.folders, d.id), w.deletedAt[d.path := op], w.next + 1)
  }

  lemma RemoveFolderConsistent(t: Tree, w: Work, d: Folder)
    requires Consistent(t, w) && d in w.folders && NothingUnder(Tree(w.files, w.folders), d.path)
    ensures Consistent(t, RemoveFolder(w, d))
  {
    var op := Rmdir(Minted(w.next), d.id, d.revision);
    RmdirLawful(Tree(w.files, w.folders), d, op);
    RmdirRun(t, w, d, op);
  }

  lemma RmdirRun(t: Tree, w: Work, d: Folder, op: Op)
    requires Consistent(t, w) && op == Rmdir(Minted(w.next), d.id, d.revision)
    requires Lawful(Run(t, w.ops), op) && Sheltered(Run(t, w.ops), op) && RemovesOnly(Run(t, w.ops), op, d.path)
    ensures Consistent(t, RemoveFolder(w, d))
  {
    RunStep(t, w.ops, op);
    EmitRemoval(t, w.ops, w.deletedAt, d.path, op);
    RemoveFolderArrays(w, d);
  }

  lemma RemoveFolderArrays(w: Work, d: Folder)
    requires OldPaths(w) && DistinctIds(Tree(w.files, w.folders))
    ensures var after := RemoveFolder(w, d); OldPaths(after) && DistinctIds(Tree(after.files, after.folders))
  {
    DropFolderMembers(w.folders, d.id);
    DropFolderIds(w.folders, d.id);
  }

  lemma RmdirLawful(live: Tree, d: Folder, op: Op)
    requires DistinctFolderIds(live.folders) && d in live.folders && NothingUnder(live, d.path)
    requires op.Rmdir? && op.target == d.id && op.revision == d.revision
    ensures Lawful(live, op) && Sheltered(live, op) && RemovesOnly(live, op, d.path)
  {
    SameFolder(live.folders, d);
    FolderRemovedOnly(live, d, op);
  }

  lemma {:induction false} SameFolder(folders: seq<Folder>, d: Folder)
    requires DistinctFolderIds(folders) && d in folders
    ensures FolderAt(folders, d.id) == Some(d)
    ensures forall e :: e in folders && e.id == d.id ==> e == d
  {
    var i :| 0 <= i < |folders| && folders[i] == d;
    forall e | e in folders && e.id == d.id
      ensures e == d
    {
      var j :| 0 <= j < |folders| && folders[j] == e;
      assert !(i < j) && !(j < i);
    }
    assert FolderAt(folders, d.id).Some?;
  }

  lemma SameFile(files: seq<File>, f: File, g: File)
    requires DistinctFileIds(files) && f in files && g in files && f.id.Some? && f.id == g.id
    ensures f == g
  {
    var i :| 0 <= i < |files| && files[i] == f;
    var j :| 0 <= j < |files| && files[j] == g;
    assert !(i < j) && !(j < i);
  }

  // ------------------------------------------------------------ folder moves

  /** `relocate`: emit a move-folder that pins every descendant, then rewrite the paths. */
  function Relocate(w: Work, root: Folder, to: Path): Result<Work> {
    var children := FilesUnder(w.files, root.path);
    if exists f :: f in children && (f.id.None? || f.revision.None?) then
      Thrown("A folder subtree lacks safe file identities")
    else
      var op := MoveFolder(Minted(w.next), root.id, root.revision, to,
                           FilePins(children) + FolderPins(FoldersUnder(w.folders, root.path)));
      var moved := MoveSubtree(Tree(w.files, w.folders), root, to);
      Ok(Work(w.ops + [op], moved.files, moved.folders, w.deletedAt, w.next + 1))
  }

  lemma RelocateConsistent(t: Tree, w: Work, root: Folder, to: Path)
    requires Consistent(t, w) && root in w.folders && OldPath(to, w.next)
    requires Vacant(Tree(w.files, w.folders), to, root.id)
    ensures var r := Relocate(w, root, to); r.Ok? ==> Consistent(t, r.value)
  {
    hide Relocate, Proper, OldPaths, Vacant, DistinctFileIds, DistinctFolderIds, Lawful, OldPath;
    var r := Relocate(w, root, to);
    if r.Ok? {
      RelocateLawful(w, root, to);
      var op := r.value.ops[|w.ops|];
      RelocateOldPaths(w, root, to);
      RunStep(t, w.ops, op);
      EmitProper(t, w.ops, w.deletedAt, op);
    }
  }

  lemma RelocateLawful(w: Work, root: Folder, to: Path)
    requires DistinctIds(Tree(w.files, w.folders)) && root in w.folders
    requires Vacant(Tree(w.files, w.folders), to, root.id)
    ensures var r := Relocate(w, root, to);
      r.Ok? ==>
        && var op := r.value.ops[|w.ops|];
        && var before := Tree(w.files, w.folders);
        && r.value.ops == w.ops + [op] && r.value.deletedAt == w.deletedAt
        && op.MoveFolder? && Sheltered(before, op)
        && Lawful(before, op)
        && Tree(r.value.files, r.value.folders) == Apply(before, op)
        && DistinctIds(Tree(r.value.files, r.value.folders))
  {
    SameFolder(w.folders, root);
    SubtreeIdsDistinct(Tree(w.files, w.folders), root, to);
  }

  lemma SubtreeIdsDistinct(t: Tree, root: Folder, to: Path)
    requires DistinctIds(t)
    ensures DistinctIds(MoveSubtree(t, root, to))
  {
    var after := MoveSubtree(t, root, to);
    assert forall i :: 0 <= i < |after.files| ==> after.files[i].id == t.files[i].id;
    assert forall i :: 0 <= i < |after.folders| ==> after.folders[i].id == t.folders[i].id;
  }

  lemma RelocateOldPaths(w: Work, root: Folder, to: Path)
    requires OldPaths(w) && OldPath(to, w.next)
    ensures var r := Relocate(w, root, to); r.Ok? ==> OldPaths(r.value)
  {
    var r := Relocate(w, root, to);
    if r.Ok? {
      forall f | f in r.value.files
        ensures OldPath(f.path, r.value.next)
      {
        var i :| 0 <= i < |r.value.files| && r.value.files[i] == f;
        assert w.files[i] in w.files;
        if Under(w.files[i].path, root.path) {
          RebaseOld(w.files[i].path, root.path, to, w.next);
        }
      }
      forall d | d in r.value.folders
        ensures OldPath(d.path, r.value.next)
      {
        var i :| 0 <= i < |r.value.folders| && r.value.folders[i] == d;
        assert w.folders[i] in w.folders;
        if w.folders[i].id != root.id && Under(w.folders[i].path, root.path) {
          RebaseOld(w.folders[i].path, root.path, to, w.next);
        }
      }
    }
  }

  // ---------------------------------------------- paths stay pairwise distinct

  /** What `op` moves lands on nothing that stays where it is. */
  ghost predicate ClearLanding(t: Tree, op: Op) {
    op.MoveFolder? && FolderAt(t.folders, op.target).Some? ==>
      var from := FolderAt(t.folders, op.target).value.path;
      && (forall f, g :: f in t.files && g in t.files && Under(f.path, from) && !Under(g.path, from)
                         ==> Rebase(f.path, from, op.newPath) != g.path)
      && (forall d, e :: d in t.folders && e in t.folders && d.id != op.target && e.id != op.target
                         && Under(d.path, from) && !Under(e.path, from)
                         ==> Rebase(d.path, from, op.newPath) != e.path)
      && (forall d :: d in t.folders && d.id != op.target && Under(d.path, from)
                      ==> Rebase(d.path, from, op.newPath) != op.newPath)
  }

  /** Nothing outside the moved subtree lies under the destination of `op`. */
  ghost predicate EmptyDestination(t: Tree, op: Op) {
    op.MoveFolder? && FolderAt(t.folders, op.target).Some? ==>
      var from := FolderAt(t.folders, op.target).value.path;
      && op.newPath != []
      && (forall f :: f in t.files && Under(f.path, op.newPath) ==> Under(f.path, from))
      && (forall d :: d in t.folders && Under(d.path, op.newPath) ==> d.id == op.target || Under(d.path, from))
  }

  lemma EmptyDestinationClears(t: Tree, op: Op)
    requires EmptyDestination(t, op)
    ensures ClearLanding(t, op)
  {
    if op.MoveFolder? && FolderAt(t.folders, op.target).Some? {
      var from := FolderAt(t.folders, op.target).value.path;
      forall p: Path | Under(p, from)
        ensures Under(Rebase(p, from, op.newPath), op.newPath)
      {
        RebaseUnder(p, from, op.newPath);
      }
    }
  }

  /** On pairwise distinct paths a lawful folder move keeps them distinct exactly when its landing is clear. */
  lemma MoveFolderDistinctIff(t: Tree, op: Op)
    requires DistinctIds(t) && DistinctPaths(t) && op.MoveFolder? && Lawful(t, op)
    ensures DistinctPaths(Apply(t, op)) <==> ClearLanding(t, op)
  {
    var d := FolderAt(t.folders, op.target).value;
    SameFolder(t.folders, d);
    if ClearLanding(t, op) {
      MoveFilesDistinct(t, op);
      MoveFoldersDistinct(t, op);
    }
    if DistinctPaths(Apply(t, op)) {
      DistinctFilesLandClear(t, op, d);
      DistinctFoldersLandClear(t, op, d);
    }
  }

  lemma DistinctFilesLandClear(t: Tree, op: Op, d: Folder)
    requires op.MoveFolder? && FolderAt(t.folders, op.target) == Some(d) && DistinctFilePaths(Apply(t, op).files)
    ensures forall f, g :: f in t.files && g in t.files && Under(f.path, d.path) && !Under(g.path, d.path)
                           ==> Rebase(f.path, d.path, op.newPath) != g.path
  {
    var after := Apply(t, op).files;
    forall f, g | f in t.files && g in t.files && Under(f.path, d.path) && !Under(g.path, d.path)
      ensures Rebase(f.path, d.path, op.newPath) != g.path
    {
      var i :| 0 <= i < |t.files| && t.files[i] == f;
      var j :| 0 <= j < |t.files| && t.files[j] == g;
      assert i != j && after[i].path != after[j].path;
    }
  }

  lemma DistinctFoldersLandClear(t: Tree, op: Op, d: Folder)
    requires op.MoveFolder? && FolderAt(t.folders, op.target) == Some(d) && DistinctFolderPaths(Apply(t, op).folders)
    ensures forall x, y :: x in t.folders && y in t.folders && x.id != d.id && y.id != d.id
                           && Under(x.path, d.path) && !Under(y.path, d.path)
                           ==> Rebase(x.path, d.path, op.newPath) != y.path
    ensures forall x :: x in t.folders && x.id != d.id && Under(x.path, d.path)
                        ==> Rebase(x.path, d.path, op.newPath) != op.newPath
  {
    var after := Apply(t, op).folders;
    var k :| 0 <= k < |t.folders| && t.folders[k] == d;
    forall x, y | x in t.folders && y in t.folders && x.id != d.id && y.id != d.id && Under(x.path, d.path) && !Under(y.path, d.path)
      ensures Rebase(x.path, d.path, op.newPath) != y.path
    {
      var i :| 0 <= i < |t.folders| && t.folders[i] == x;
      var j :| 0 <= j < |t.folders| && t.folders[j] == y;
      assert i != j && after[i].path != after[j].path;
    }
    forall x | x in t.folders && x.id != d.id && Under(x.path, d.path)
      ensures Rebase(x.path, d.path, op.newPath) != op.newPath
    {
      var i :| 0 <= i < |t.folders| && t.folders[i] == x;
      assert i != k && after[i].path != after[k].path;
    }
  }

  lemma MoveFilesDistinct(t: Tree, op: Op)
    requires DistinctFilePaths(t.files) && op.MoveFolder? && FolderAt(t.folders, op.target).Some? && ClearLanding(t, op)
    ensures DistinctFilePaths(Apply(t, op).files)
  {
    var from := FolderAt(t.folders, op.target).value.path;
    var after := Apply(t, op).files;
    forall i, j | 0 <= i < j < |after|
      ensures after[i].path != after[j].path
    {
      var f, g := t.files[i], t.files[j];
      assert f in t.files && g in t.files;
      if Under(f.path, from) && Under(g.path, from) {
        if after[i].path == after[j].path {
          RebaseInjective(f.path, g.path, from, op.newPath);
        }
      }
    }
  }

  lemma MoveFoldersDistinct(t: Tree, op: Op)
    requires DistinctIds(t) && DistinctFolderPaths(t.folders) && op.MoveFolder? && Lawful(t, op) && ClearLanding(t, op)
    ensures DistinctFolderPaths(Apply(t, op).folders)
  {
    var root := FolderAt(t.folders, op.target).value;
    var from := root.path;
    SameFolder(t.folders, root);
    var after := Apply(t, op).folders;
    forall i, j | 0 <= i < j < |after|
      ensures after[i].path != after[j].path
    {
      var f, g := t.folders[i], t.folders[j];
      assert f in t.folders && g in t.folders && f.id != g.id;
      if f.id != root.id && g.id != root.id && Under(f.path, from) && Under(g.path, from) {
        if after[i].path == after[j].path {
          RebaseInjective(f.path, g.path, from, op.newPath);
        }
      }
    }
  }
}
