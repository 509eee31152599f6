/**
 The folders around the files (plugin/src/operation-plan.ts:27-29, 38-40):
 which folders are wanted or replaced, the removals deepest first, the
 creations shallowest first, and the made files last.
 */
module Namespace {
  import opened Wrappers
  import opened Paths
  import opened OperationModel
  import opened PlanWork
  import opened FolderPlan
  import opened FileMatching
  import opened FileMoves

  // ------------------------------------------------------------ wanted folders

  /** Every non-empty prefix of every path. */
  ghost predicate IsPrefixSet(prefixes: set<Path>, raws: seq<Path>) {
    forall p :: p in prefixes <==> PrefixOfSome(p, raws)
  }

  ghost predicate PrefixOfSome(p: Path, raws: seq<Path>) {
    exists i :: 0 <= i < |raws| && 0 < |p| <= |raws[i]| && raws[i][..|p|] == p
  }

  /** The loop that collects the parents (plugin/src/operation-plan.ts:27). */
  method CollectParents(raws: seq<Path>) returns (parents: set<Path>)
    ensures IsPrefixSet(parents, raws)
  {
    parents := {};
    for i := 0 to |raws|
      invariant IsPrefixSet(parents, raws[..i])
    {
      var raw := raws[i];
      ghost var before := parents;
      for length := 1 to |raw| + 1
        invariant forall p :: p in parents <==> p in before || (0 < |p| < length && raw[..|p|] == p)
      {
        parents := parents + {raw[..length]};
      }
      assert forall p :: PrefixOfSome(p, raws[..i + 1]) <==> PrefixOfSome(p, raws[..i]) || (0 < |p| <= |raw| && raw[..|p|] == p) by {
        forall p: Path
          ensures PrefixOfSome(p, raws[..i + 1]) <==> PrefixOfSome(p, raws[..i]) || (0 < |p| <= |raw| && raw[..|p|] == p)
        {
          PrefixStep(p, raws, i);
        }
      }
    }
    assert raws[..|raws|] == raws;
  }

  lemma PrefixStep(p: Path, raws: seq<Path>, i: nat)
    requires i < |raws|
    ensures PrefixOfSome(p, raws[..i + 1]) <==> PrefixOfSome(p, raws[..i]) || (0 < |p| <= |raws[i]| && raws[i][..|p|] == p)
  {
    if PrefixOfSome(p, raws[..i]) {
      var k :| 0 <= k < i && 0 < |p| <= |raws[..i][k]| && raws[..i][k][..|p|] == p;
      assert raws[..i + 1][k] == raws[..i][k];
    }
    if 0 < |p| <= |raws[i]| && raws[i][..|p|] == p {
      assert raws[..i + 1][i] == raws[i];
    }
    if PrefixOfSome(p, raws[..i + 1]) {
      var k :| 0 <= k < i + 1 && 0 < |p| <= |raws[..i + 1][k]| && raws[..i + 1][k][..|p|] == p;
      if k < i {
        assert raws[..i][k] == raws[..i + 1][k];
      }
    }
  }

  ghost predicate ParentClosed(wanted: set<Path>) {
    forall p :: p in wanted && |p| > 1 ==> Parent(p) in wanted
  }

  lemma PrefixSetClosed(prefixes: set<Path>, raws: seq<Path>)
    requires IsPrefixSet(prefixes, raws)
    ensures ParentClosed(prefixes)
  {
    forall p | p in prefixes && |p| > 1
      ensures Parent(p) in prefixes
    {
      var i :| 0 <= i < |raws| && 0 < |p| <= |raws[i]| && raws[i][..|p|] == p;
      assert raws[i][..|Parent(p)|] == Parent(p);
    }
  }

  /** The wanted folders are closed exactly when the folders added to the prefixes bring no new parent. */
  lemma WantedClosedIff(prefixes: set<Path>, raws: seq<Path>, extra: set<Path>)
    requires IsPrefixSet(prefixes, raws)
    ensures ParentClosed(prefixes + extra) <==> forall p :: p in extra && |p| > 1 ==> Parent(p) in prefixes + extra
  {
    PrefixSetClosed(prefixes, raws);
  }

  lemma {:induction false} ClosedUnder(wanted: set<Path>, p: Path, q: Path)
    requires ParentClosed(wanted) && p in wanted && Under(p, q)
    ensures q in wanted
    decreases |p|
  {
    var parent := Parent(p);
    assert parent in wanted;
    if parent != q {
      assert parent[..|q|] == p[..|q|];
      ClosedUnder(wanted, parent, q);
    }
  }

  // -------------------------------------------------------- unwanted folders go

  predicate AtOrUnderSome(p: Path, roots: set<Path>) {
    exists r :: r in roots && (p == r || Under(p, r))
  }

  /** Folders that are no longer wanted, and replaced folders with all they hold. */
  predicate Doomed(p: Path, wanted: set<Path>, replaced: set<Path>) {
    p !in wanted || AtOrUnderSome(p, replaced)
  }

  lemma DoomedNested(p: Path, q: Path, wanted: set<Path>, replaced: set<Path>)
    requires ParentClosed(wanted) && Under(p, q) && Doomed(q, wanted, replaced)
    ensures Doomed(p, wanted, replaced)
  {
    if q !in wanted {
      if p in wanted {
        ClosedUnder(wanted, p, q);
      }
    } else {
      var r :| r in replaced && (q == r || Under(q, r));
      if q != r {
        UnderTransitive(p, q, r);
      }
    }
  }

  function DeepFirst(d: Folder): int { -|d.path| }

  /** No file, and no folder that stays, lies under the folder at `p`. */
  ghost predicate Clear(files: seq<File>, folders: seq<Folder>, wanted: set<Path>, replaced: set<Path>, p: Path) {
    && (forall f :: f in files ==> !Under(f.path, p))
    && (forall d :: d in folders && Under(d.path, p) ==> Doomed(d.path, wanted, replaced))
  }

  function RemoveInPlace(w: Work, d: Folder): Work {
    var op := Rmdir(Minted(w.next), d.id, d.revision);
    w.(ops := w.ops + [op], deletedAt := w.deletedAt[d.path := op], next := w.next + 1)
  }

  /** The batch so far; its removals are on record and nothing was made yet. */
  ghost predicate Clearing(t: Tree, w: Work) {
    Always(t, w.ops, Lawful) && Recorded(t, w.ops, w.deletedAt) && NothingMade(w.ops)
  }

  lemma EmitRemove(t: Tree, w: Work, d: Folder)
    requires Clearing(t, w) && DistinctFolderIds(Run(t, w.ops).folders) && d in Run(t, w.ops).folders
    ensures Clearing(t, RemoveInPlace(w, d))
    ensures Run(t, RemoveInPlace(w, d).ops) == Run(t, w.ops).(folders := DropFolder(Run(t, w.ops).folders, d.id))
  {
    var op := Rmdir(Minted(w.next), d.id, d.revision);
    var live := Run(t, w.ops);
    SameFolder(live.folders, d);
    assert Lawful(live, op);
    FolderRemovedOnly(live, d, op);
    AlwaysStep(t, w.ops, op, Lawful);
    RemovalStep(t, w.ops, w.deletedAt, d.path, op);
    RunStep(t, w.ops, op);
  }

  lemma AlwaysFromIff(t: Tree, ops: seq<Op>, n: nat, op: Op, p: (Tree, Op) -> bool)
    requires n <= |ops|
    ensures AlwaysFrom(t, ops + [op], n, p) <==> AlwaysFrom(t, ops, n, p) && p(Run(t, ops), op)
  {
    var all := ops + [op];
    assert all[..|ops|] == ops && all[|ops|] == op;
    if AlwaysFrom(t, ops, n, p) && p(Run(t, ops), op) {
      AlwaysFromStep(t, ops, n, op, p);
    }
    if AlwaysFrom(t, all, n, p) {
      forall k | n <= k < |ops|
        ensures p(Run(t, ops[..k]), ops[k])
      {
        assert all[..k] == ops[..k] && all[k] == ops[k];
      }
    }
  }

  /** `gone` of the sorted folders have been considered; the doomed among them are removed. */
  ghost predicate Removing(left: seq<Folder>, folders: seq<Folder>, sorted: seq<Folder>, gone: nat, wanted: set<Path>, replaced: set<Path>)
    requires gone <= |sorted|
  {
    && DistinctFolderIds(left)
    && forall d :: d in left <==> d in folders && !(d in sorted[..gone] && Doomed(d.path, wanted, replaced))
  }

  lemma RemovingStep(left: seq<Folder>, folders: seq<Folder>, sorted: seq<Folder>, gone: nat, wanted: set<Path>, replaced: set<Path>)
    requires gone < |sorted| && Removing(left, folders, sorted, gone, wanted, replaced)
    requires DistinctFolderIds(folders) && DistinctFolderIds(sorted) && forall d :: d in sorted <==> d in folders
    ensures var d := sorted[gone];
      && d in left
      && Removing(if Doomed(d.path, wanted, replaced) then DropFolder(left, d.id) else left,
                  folders, sorted, gone + 1, wanted, replaced)
  {
    hide Doomed;
    var d := sorted[gone];
    assert d !in sorted[..gone];
    assert sorted[..gone + 1] == sorted[..gone] + [d];
    if Doomed(d.path, wanted, replaced) {
      DropFolderMembers(left, d.id);
      DropFolderIds(left, d.id);
      SameFolder(folders, d);
    }
  }

  /** Deepest first: when a doomed folder goes, it is empty exactly when nothing that stays lies under it. */
  lemma EmptiedIff(live: Tree, folders: seq<Folder>, sorted: seq<Folder>, gone: nat, wanted: set<Path>, replaced: set<Path>, op: Op)
    requires gone < |sorted| && Removing(live.folders, folders, sorted, gone, wanted, replaced) && Sorted(sorted, DeepFirst)
    requires sorted[gone] in live.folders && forall d :: d in sorted <==> d in folders
    requires op.Rmdir? && op.target == sorted[gone].id
    ensures Emptied(live, op) <==> Clear(live.files, folders, wanted, replaced, sorted[gone].path)
  {
    hide Doomed;
    var d := sorted[gone];
    SameFolder(live.folders, d);
    if Clear(live.files, folders, wanted, replaced, d.path) {
      forall e | e in live.folders
        ensures !Under(e.path, d.path)
      {
        if Under(e.path, d.path) {
          DeeperComesFirst(sorted, gone, e);
        }
      }
    }
  }

  lemma DeeperComesFirst(sorted: seq<Folder>, i: nat, e: Folder)
    requires Sorted(sorted, DeepFirst) && i < |sorted| && e in sorted && |e.path| > |sorted[i].path|
    ensures e in sorted[..i]
  {
    var k :| 0 <= k < |sorted| && sorted[k] == e;
    assert DeepFirst(e) < DeepFirst(sorted[i]);
    assert k < i && sorted[..i][k] == e;
  }

  /** The first `gone` sorted folders that go are clear. */
  ghost predicate AllClear(files: seq<File>, folders: seq<Folder>, sorted: seq<Folder>, gone: nat, wanted: set<Path>, replaced: set<Path>)
    requires gone <= |sorted|
  {
    forall k :: 0 <= k < gone && Doomed(sorted[k].path, wanted, replaced) ==> Clear(files, folders, wanted, replaced, sorted[k].path)
  }

  /** Every folder that goes is clear of files and of folders that stay. */
  ghost predicate Clearable(files: seq<File>, folders: seq<Folder>, wanted: set<Path>, replaced: set<Path>) {
    forall d :: d in folders && Doomed(d.path, wanted, replaced) ==> Clear(files, folders, wanted, replaced, d.path)
  }

  /** With a parent-closed wanted set only a file can keep a folder from being clear. */
  lemma ClosedClearable(files: seq<File>, folders: seq<Folder>, wanted: set<Path>, replaced: set<Path>)
    requires ParentClosed(wanted)
    requires forall f, d :: f in files && d in folders && Doomed(d.path, wanted, replaced) ==> !Under(f.path, d.path)
    ensures Clearable(files, folders, wanted, replaced)
  {
    forall d, e | d in folders && Doomed(d.path, wanted, replaced) && e in folders && Under(e.path, d.path)
      ensures Doomed(e.path, wanted, replaced)
    {
      DoomedNested(e.path, d.path, wanted, replaced);
    }
  }

  /** `present` mirrors `folderByPath`: the folder paths of which no removal was emitted. */
  ghost predicate Present(present: set<Path>, folders: seq<Folder>, sorted: seq<Folder>, gone: nat, wanted: set<Path>, replaced: set<Path>)
    requires gone <= |sorted|
  {
    forall p :: p in present <==>
      && (exists d :: d in folders && d.path == p)
      && (forall k :: 0 <= k < gone && sorted[k].path == p ==> !Doomed(p, wanted, replaced))
  }

  lemma PresentAtEnd(present: set<Path>, folders: seq<Folder>, sorted: seq<Folder>, wanted: set<Path>, replaced: set<Path>)
    requires Present(present, folders, sorted, |sorted|, wanted, replaced)
    requires forall d :: d in sorted <==> d in folders
    ensures forall p :: p in present <==> exists d :: d in folders && d.path == p && !Doomed(d.path, wanted, replaced)
  {
    hide Doomed;
    forall p | p in present
      ensures exists d :: d in folders && d.path == p && !Doomed(d.path, wanted, replaced)
    {
      var d :| d in folders && d.path == p;
      assert d in sorted;
      var k :| 0 <= k < |sorted| && sorted[k] == d;
    }
  }

  lemma AllClearStep(files: seq<File>, folders: seq<Folder>, sorted: seq<Folder>, gone: nat, wanted: set<Path>, replaced: set<Path>)
    requires gone < |sorted|
    ensures AllClear(files, folders, sorted, gone + 1, wanted, replaced) <==>
            && AllClear(files, folders, sorted, gone, wanted, replaced)
            && (Doomed(sorted[gone].path, wanted, replaced) ==> Clear(files, folders, wanted, replaced, sorted[gone].path))
  {
    hide Doomed, Clear;
  }

  lemma PresentStep(present: set<Path>, folders: seq<Folder>, sorted: seq<Folder>, gone: nat, wanted: set<Path>, replaced: set<Path>)
    requires gone < |sorted| && Present(present, folders, sorted, gone, wanted, replaced)
    ensures var here := sorted[gone].path;
      Present(if Doomed(here, wanted, replaced) then present - {here} else present, folders, sorted, gone + 1, wanted, replaced)
  {
    hide Doomed;
  }

  lemma AllClearIffClearable(files: seq<File>, folders: seq<Folder>, sorted: seq<Folder>, wanted: set<Path>, replaced: set<Path>)
    requires forall d :: d in sorted <==> d in folders
    ensures AllClear(files, folders, sorted, |sorted|, wanted, replaced) <==> Clearable(files, folders, wanted, replaced)
  {
    hide Doomed, Clear;
    if AllClear(files, folders, sorted, |sorted|, wanted, replaced) {
      forall d | d in folders && Doomed(d.path, wanted, replaced)
        ensures Clear(files, folders, wanted, replaced, d.path)
      {
        assert d in sorted;
        var k :| 0 <= k < |sorted| && sorted[k] == d;
      }
    }
    if Clearable(files, folders, wanted, replaced) {
      forall k | 0 <= k < |sorted| && Doomed(sorted[k].path, wanted, replaced)
        ensures Clear(files, folders, wanted, replaced, sorted[k].path)
      {
        assert sorted[k] in folders;
      }
    }
  }

  /** What the rmdir loop adds to the batch. */
  ghost predicate OnlyRmdirs(w: Work, r: Work) {
    && r.files == w.files && r.folders == w.folders && r.next >= w.next
    && |w.ops| <= |r.ops| && r.ops[..|w.ops|] == w.ops
    && (forall k :: |w.ops| <= k < |r.ops| ==> r.ops[k].Rmdir?)
  }

  lemma OnlyRmdirsStep(w: Work, r: Work, d: Folder)
    requires OnlyRmdirs(w, r)
    ensures OnlyRmdirs(w, RemoveInPlace(r, d))
  {
    var after := RemoveInPlace(r, d);
    assert after.ops[..|w.ops|] == r.ops[..|w.ops|];
  }

  /** The state of the rmdir loop after `i` folders. */
  ghost predicate Emptying(t: Tree, w: Work, r: Work, sorted: seq<Folder>, i: nat, wanted: set<Path>, replaced: set<Path>)
    requires i <= |sorted|
  {
    && Clearing(t, r) && OnlyRmdirs(w, r)
    && Run(t, r.ops).files == Run(t, w.ops).files
    && Removing(Run(t, r.ops).folders, w.folders, sorted, i, wanted, replaced)
    && (AlwaysFrom(t, r.ops, |w.ops|, Emptied) <==> AllClear(Run(t, w.ops).files, w.folders, sorted, i, wanted, replaced))
  }

  lemma EmptyingSkip(t: Tree, w: Work, r: Work, sorted: seq<Folder>, i: nat, wanted: set<Path>, replaced: set<Path>)
    requires i < |sorted| && Emptying(t, w, r, sorted, i, wanted, replaced)
    requires DistinctFolderIds(w.folders) && DistinctFolderIds(sorted) && forall d :: d in sorted <==> d in w.folders
    requires !Doomed(sorted[i].path, wanted, replaced)
    ensures Emptying(t, w, r, sorted, i + 1, wanted, replaced)
  {
    hide Doomed, Clear, Clearing, AlwaysFrom, Removing, AllClear, OnlyRmdirs;
    RemovingStep(Run(t, r.ops).folders, w.folders, sorted, i, wanted, replaced);
    AllClearStep(Run(t, w.ops).files, w.folders, sorted, i, wanted, replaced);
  }

  lemma EmptyingRemove(t: Tree, w: Work, r: Work, sorted: seq<Folder>, i: nat, wanted: set<Path>, replaced: set<Path>)
    requires i < |sorted| && Emptying(t, w, r, sorted, i, wanted, replaced)
    requires Sorted(sorted, DeepFirst)
    requires DistinctFolderIds(w.folders) && DistinctFolderIds(sorted) && forall d :: d in sorted <==> d in w.folders
    requires Doomed(sorted[i].path, wanted, replaced)
    ensures Emptying(t, w, RemoveInPlace(r, sorted[i]), sorted, i + 1, wanted, replaced)
  {
    hide Doomed, Clear, Clearing, AlwaysFrom, Emptied, Removing, AllClear, OnlyRmdirs, DistinctFolderIds, Sorted;
    var d := sorted[i];
    var op := Rmdir(Minted(r.next), d.id, d.revision);
    var live := Run(t, r.ops);
    RemovingStep(live.folders, w.folders, sorted, i, wanted, replaced);
    RemovingDistinct(live.folders, w.folders, sorted, i, wanted, replaced);
    EmptiedIff(live, w.folders, sorted, i, wanted, replaced, op);
    EmitRemove(t, r, d);
    OnlyRmdirsLength(w, r);
    AlwaysFromIff(t, r.ops, |w.ops|, op, Emptied);
    AllClearStep(Run(t, w.ops).files, w.folders, sorted, i, wanted, replaced);
    OnlyRmdirsStep(w, r, d);
  }

  lemma OnlyRmdirsLength(w: Work, r: Work)
    requires OnlyRmdirs(w, r)
    ensures |w.ops| <= |r.ops|
  {
  }

  lemma RemovingDistinct(left: seq<Folder>, folders: seq<Folder>, sorted: seq<Folder>, gone: nat, wanted: set<Path>, replaced: set<Path>)
    requires gone <= |sorted| && Removing(left, folders, sorted, gone, wanted, replaced)
    ensures DistinctFolderIds(left)
  {
  }

  /**
   The rmdir loop (plugin/src/operation-plan.ts:38). No folder goes before its
   content exactly when no file and no staying folder lies under one that goes.
   */
  method RemoveUnwanted(ghost t: Tree, w: Work, wanted: set<Path>, replaced: set<Path>) returns (r: Work, present: set<Path>)
    requires Clearing(t, w) && Run(t, w.ops).folders == w.folders && DistinctFolderIds(w.folders)
    ensures Clearing(t, r) && OnlyRmdirs(w, r) && DistinctFolderIds(Run(t, r.ops).folders) && Drawn(w, r)
    ensures Run(t, r.ops).files == Run(t, w.ops).files
    ensures forall d :: d in Run(t, r.ops).folders <==> d in w.folders && !Doomed(d.path, wanted, replaced)
    ensures forall p :: p in present <==> exists d :: d in w.folders && d.path == p && !Doomed(d.path, wanted, replaced)
    ensures AlwaysFrom(t, r.ops, |w.ops|, Emptied) <==> Clearable(Run(t, w.ops).files, w.folders, wanted, replaced)
  {
    hide Drawn, Clearing, Clear, AlwaysFrom, DistinctFolderIds, Sorted, Doomed, OnlyRmdirs, AllClear, Clearable, Present, Emptying;
    var sorted := SortBy(w.folders, DeepFirst);
    SortFacts(w.folders, DeepFirst);
    SortDistinct(w.folders, DeepFirst);
    r, present := w, FolderPaths(w.folders);
    EmptyingStart(t, w, sorted, wanted, replaced, present);
    NoneDrawn(w, w);
    for i := 0 to |sorted|
      invariant Emptying(t, w, r, sorted, i, wanted, replaced)
      invariant Present(present, w.folders, sorted, i, wanted, replaced)
      invariant Drawn(w, r)
    {
      var d := sorted[i];
      PresentStep(present, w.folders, sorted, i, wanted, replaced);
      if Doomed(d.path, wanted, replaced) {
        EmptyingRemove(t, w, r, sorted, i, wanted, replaced);
        ghost var before := r;
        r, present := RemoveInPlace(r, d), present - {d.path};
        OneDrawn(before, r, r.ops[|before.ops|]);
        DrawnTransitive(w, before, r);
      } else {
        EmptyingSkip(t, w, r, sorted, i, wanted, replaced);
      }
    }
    PresentAtEnd(present, w.folders, sorted, wanted, replaced);
    EmptyingEnd(t, w, r, sorted, wanted, replaced);
  }

  lemma EmptyingEnd(t: Tree, w: Work, r: Work, sorted: seq<Folder>, wanted: set<Path>, replaced: set<Path>)
    requires Emptying(t, w, r, sorted, |sorted|, wanted, replaced) && forall d :: d in sorted <==> d in w.folders
    ensures Clearing(t, r) && OnlyRmdirs(w, r) && DistinctFolderIds(Run(t, r.ops).folders)
    ensures Run(t, r.ops).files == Run(t, w.ops).files
    ensures forall d :: d in Run(t, r.ops).folders <==> d in w.folders && !Doomed(d.path, wanted, replaced)
    ensures AlwaysFrom(t, r.ops, |w.ops|, Emptied) <==> Clearable(Run(t, w.ops).files, w.folders, wanted, replaced)
  {
    hide Clearing, AlwaysFrom, DistinctFolderIds, Doomed, OnlyRmdirs, AllClear, Clearable;
    assert sorted[..|sorted|] == sorted;
    AllClearIffClearable(Run(t, w.ops).files, w.folders, sorted, wanted, replaced);
  }

  function FolderPaths(folders: seq<Folder>): (r: set<Path>)
    ensures forall p :: p in r <==> exists d :: d in folders && d.path == p
  {
    set d | d in folders :: d.path
  }

  lemma EmptyingStart(t: Tree, w: Work, sorted: seq<Folder>, wanted: set<Path>, replaced: set<Path>, present: set<Path>)
    requires Clearing(t, w) && Run(t, w.ops).folders == w.folders && DistinctFolderIds(w.folders)
    requires present == FolderPaths(w.folders)
    ensures Emptying(t, w, w, sorted, 0, wanted, replaced)
    ensures Present(present, w.folders, sorted, 0, wanted, replaced)
  {
    assert w.ops[..|w.ops|] == w.ops;
  }
}
