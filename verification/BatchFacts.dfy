/**
 What follows for a whole batch from what holds at each of its operations.
 */
module BatchFacts {
  import opened Wrappers
  import opened Paths
  import opened OperationModel
  import opened PlanWork
  import opened FileMoves
  import opened Namespace
  import opened Making

  // ------------------------------------------------ deletes name the tree's files

  /** The identity and revision of `f` are those of a file of `t`. */
  ghost predicate Inherited(t: Tree, f: File) {
    exists g :: g in t.files && g.id == f.id && g.revision == f.revision
  }

  /** Until something is made, every live file has identity and revision from the tree. */
  lemma {:induction false} RunInherits(t: Tree, ops: seq<Op>)
    requires NothingMade(ops)
    ensures forall f :: f in Run(t, ops).files ==> Inherited(t, f)
  {
    if ops != [] {
      var n := |ops| - 1;
      var before, after := Run(t, ops[..n]), Run(t, ops);
      RunInherits(t, ops[..n]);
      ApplyInherits(before, ops[n]);
      forall f | f in after.files
        ensures Inherited(t, f)
      {
        var g :| g in before.files && g.id == f.id && g.revision == f.revision;
        assert Inherited(t, g);
      }
    }
  }

  lemma ApplyInherits(t: Tree, op: Op)
    requires !Makes(op)
    ensures forall f :: f in Apply(t, op).files ==> Inherited(t, f)
  {
    if op.Delete? {
      DropFileMembers(t.files, op.target);
    }
    var after := Apply(t, op).files;
    forall f | f in after
      ensures Inherited(t, f)
    {
      if !op.Delete? && !op.Rmdir? {
        var i :| 0 <= i < |after| && after[i] == f;
        assert t.files[i] in t.files;
      }
    }
  }

  ghost predicate Absent(files: seq<File>, id: Id) {
    forall f :: f in files ==> f.id != Some(id)
  }

  /** What is deleted does not come back until something is made. */
  lemma {:induction false} DeletedStaysAway(t: Tree, ops: seq<Op>, k: nat)
    requires NothingMade(ops) && k < |ops| && ops[k].Delete?
    ensures Absent(Run(t, ops).files, ops[k].target)
    decreases |ops|
  {
    var n := |ops| - 1;
    var before, op := Run(t, ops[..n]), ops[n];
    if k < n {
      DeletedStaysAway(t, ops[..n], k);
      ApplyInherits(before, op);
      assert ops[..n][k] == ops[k];
      forall f | f in Apply(before, op).files
        ensures f.id != Some(ops[k].target)
      {
        var g :| g in before.files && g.id == f.id && g.revision == f.revision;
      }
    } else {
      DropFileMembers(before.files, op.target);
    }
  }

  /** Every delete names a file of the tree at the tree's revision, and that file is gone when the making starts. */
  ghost predicate DeletesAuthorized(t: Tree, ops: seq<Op>, left: seq<File>) {
    forall k :: 0 <= k < |ops| && ops[k].Delete? ==>
      HasFile(t, ops[k].target, ops[k].revision) && Absent(left, ops[k].target)
  }

  lemma DeletesFromTree(t: Tree, ops: seq<Op>)
    requires Always(t, ops, Lawful) && NothingMade(ops)
    ensures DeletesAuthorized(t, ops, Run(t, ops).files)
  {
    forall k | 0 <= k < |ops| && ops[k].Delete?
      ensures HasFile(t, ops[k].target, ops[k].revision) && Absent(Run(t, ops).files, ops[k].target)
    {
      RunInherits(t, ops[..k]);
      var f :| f in Run(t, ops[..k]).files && f.id == Some(ops[k].target) && f.revision == Some(ops[k].revision);
      assert Inherited(t, f);
      DeletedStaysAway(t, ops, k);
    }
  }

  // ------------------------------------------------------ paths stay distinct

  lemma {:induction false} RunDistinctIds(t: Tree, ops: seq<Op>)
    requires DistinctIds(t) && NothingMade(ops)
    ensures DistinctIds(Run(t, ops))
  {
    if ops != [] {
      var n := |ops| - 1;
      RunDistinctIds(t, ops[..n]);
      ApplyDistinctIds(Run(t, ops[..n]), ops[n]);
    }
  }

  lemma ApplyDistinctIds(t: Tree, op: Op)
    requires DistinctIds(t) && !Makes(op)
    ensures DistinctIds(Apply(t, op))
  {
    match op
    case Delete(_, target, _) => DropFileIds(t.files, target);
    case Rmdir(_, target, _) => DropFolderIds(t.folders, target);
    case MoveFolder(_, target, _, newPath, _) =>
      if FolderAt(t.folders, target).Some? {
        SubtreeIdsDistinct(t, FolderAt(t.folders, target).value, newPath);
      }
    case _ =>
  }

  ghost predicate DistinctUpTo(t: Tree, ops: seq<Op>) {
    forall k :: 0 <= k <= |ops| ==> DistinctPaths(Run(t, ops[..k]))
  }

  lemma ApplyDistinctPaths(t: Tree, op: Op)
    requires DistinctIds(t) && DistinctPaths(t) && !Makes(op) && !op.Move? && Lawful(t, op)
    ensures DistinctPaths(Apply(t, op)) <==> ClearLanding(t, op)
  {
    hide ClearLanding, Lawful;
    match op
    case Delete(_, target, _) =>
      DropFilePaths(t.files, target);
      NoFolderMove(t, op);
    case Rmdir(_, target, _) =>
      DropFolderPaths(t.folders, target);
      NoFolderMove(t, op);
    case MoveFolder(_, _, _, _, _) => MoveFolderDistinctIff(t, op);
    case Edit(_, _, _, _) => NoFolderMove(t, op);
    case _ =>
  }

  lemma NoFolderMove(t: Tree, op: Op)
    requires !op.MoveFolder?
    ensures ClearLanding(t, op)
  {
  }

  /**
   Over a whole batch of removals and folder moves, the paths are pairwise
   distinct at every step exactly when every folder move lands clear.
   */
  lemma {:induction false} DistinctThroughoutIff(t: Tree, ops: seq<Op>)
    requires DistinctIds(t) && DistinctPaths(t) && Always(t, ops, Lawful) && NothingMade(ops) && NoMoves(ops)
    ensures DistinctUpTo(t, ops) <==> Always(t, ops, ClearLanding)
  {
    hide ClearLanding, Lawful, DistinctPaths, DistinctIds, DistinctUpTo, Always, NothingMade, NoMoves, Run, Apply;
    if ops == [] {
      NoOpsIff(t);
    } else {
      var init, op := ops[..|ops| - 1], ops[|ops| - 1];
      assert ops == init + [op];
      LastOp(t, init, op);
      DistinctThroughoutIff(t, init);
      RunDistinctIds(t, init);
      AlwaysIff(t, init, op, ClearLanding);
      DistinctUpToIff(t, init, op);
      if DistinctUpTo(t, init) {
        RunStep(t, init, op);
        ApplyDistinctPaths(Run(t, init), op);
      }
    }
  }

  lemma NoOpsIff(t: Tree)
    requires DistinctPaths(t)
    ensures DistinctUpTo(t, []) && Always(t, [], ClearLanding)
  {
    var none: seq<Op> := [];
    assert none[..0] == none;
  }

  lemma LastOp(t: Tree, init: seq<Op>, op: Op)
    requires Always(t, init + [op], Lawful) && NothingMade(init + [op]) && NoMoves(init + [op])
    ensures Always(t, init, Lawful) && Lawful(Run(t, init), op)
    ensures NothingMade(init) && NoMoves(init) && !Makes(op) && !op.Move?
  {
    AlwaysIff(t, init, op, Lawful);
    assert (init + [op])[|init|] == op;
    assert forall k :: 0 <= k < |init| ==> (init + [op])[k] == init[k];
  }

  lemma DistinctUpToIff(t: Tree, init: seq<Op>, op: Op)
    ensures DistinctUpTo(t, init + [op]) <==> DistinctUpTo(t, init) && DistinctPaths(Run(t, init + [op]))
    ensures DistinctUpTo(t, init) ==> DistinctPaths(Run(t, init))
  {
    hide DistinctPaths;
    var all := init + [op];
    assert all[..|all|] == all && init[..|init|] == init;
    assert forall k :: 0 <= k <= |init| ==> all[..k] == init[..k];
    if DistinctUpTo(t, all) {
      forall k | 0 <= k <= |init|
        ensures DistinctPaths(Run(t, init[..k]))
      {
        assert DistinctPaths(Run(t, all[..k]));
      }
    }
  }

  lemma AlwaysIff(t: Tree, ops: seq<Op>, op: Op, p: (Tree, Op) -> bool)
    ensures Always(t, ops + [op], p) <==> Always(t, ops, p) && p(Run(t, ops), op)
  {
    var all := ops + [op];
    assert all[..|ops|] == ops && all[|ops|] == op;
    if Always(t, ops, p) && p(Run(t, ops), op) {
      AlwaysStep(t, ops, op, p);
    }
    if Always(t, all, p) {
      forall k | 0 <= k < |ops|
        ensures p(Run(t, ops[..k]), ops[k])
      {
        assert all[..k] == ops[..k] && all[k] == ops[k];
      }
    }
  }

  /** A batch keeps its promise on every prefix. */
  lemma AlwaysPrefix(t: Tree, ops: seq<Op>, n: nat, p: (Tree, Op) -> bool)
    requires n <= |ops| && Always(t, ops, p)
    ensures Always(t, ops[..n], p)
  {
    forall k | 0 <= k < n
      ensures p(Run(t, ops[..n][..k]), ops[..n][k])
    {
      assert ops[..n][..k] == ops[..k];
    }
  }

  // ----------------------------------------------------------- stages of a batch

  /**
   When `p` asks nothing of the operations before `n` and from `m` on, the
   batch keeps it exactly when the stage in between does.
   */
  lemma StageIff(t: Tree, ops: seq<Op>, n: nat, m: nat, p: (Tree, Op) -> bool)
    requires n <= m <= |ops|
    requires forall k :: 0 <= k < n || m <= k < |ops| ==> p(Run(t, ops[..k]), ops[k])
    ensures Always(t, ops, p) <==> AlwaysFrom(t, ops[..m], n, p)
  {
    var stage := ops[..m];
    assert forall k :: 0 <= k < m ==> stage[..k] == ops[..k] && stage[k] == ops[k];
  }

  /** Two stages in a row. */
  lemma TwoStagesIff(t: Tree, ops: seq<Op>, n: nat, m: nat, p: (Tree, Op) -> bool)
    requires n <= m <= |ops|
    requires forall k :: 0 <= k < n ==> p(Run(t, ops[..k]), ops[k])
    ensures Always(t, ops, p) <==> AlwaysFrom(t, ops[..m], n, p) && AlwaysFrom(t, ops, m, p)
  {
    var stage := ops[..m];
    assert forall k :: 0 <= k < m ==> stage[..k] == ops[..k] && stage[k] == ops[k];
  }
}
