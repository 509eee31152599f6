/**
 The relocation loop checks that the destination itself is free, not that
 nothing lies under it (plugin/src/operation-plan.ts:24-25). Three folders for
 which two of them share a path half-way through the batch.
 */
module LandingExample {
  import opened Wrappers
  import opened Paths
  import opened OperationModel
  import opened PlanWork
  import opened FolderPlan

  const A: Path := [Name("a")]
  const B: Path := [Name("b")]
  const E: Path := [Name("e")]
  const G: Path := [Name("g")]
  const AX: Path := [Name("a"), Name("x")]
  const EX: Path := [Name("e"), Name("x")]

  function Named(name: string, path: Path): Folder {
    Folder(Given(name), path, Given("r"))
  }

  const GOALS: map<Id, Path> := map[Given("1") := EX, Given("2") := E, Given("3") := G]

  function Start(): Work {
    Work([], [], [Named("1", B), Named("2", A), Named("3", AX)], map[], 0)
  }

  lemma Distinctions()
    ensures Given("1") != Given("2") && Given("2") != Given("3") && Given("1") != Given("3")
    ensures A != E && A != EX && B != EX && AX != EX && AX != E && AX != G && EX != G && B != E && E != EX && A != B
    ensures !Under(A, B) && !Under(AX, B) && Under(AX, A) && !Under(EX, A) && Rebase(AX, A, E) == EX
  {
    assert "1"[0] != "2"[0] && "2"[0] != "3"[0] && "1"[0] != "3"[0];
    assert "a"[0] != "b"[0] && "a"[0] != "e"[0] && "b"[0] != "e"[0] && "a"[0] != "g"[0];
    assert A[0] != B[0] && A[0] != E[0] && B[0] != E[0] && AX[0] != EX[0];
    assert AX[..1] == A && EX[..1] == E && |AX| == |EX| == 2 && |G| == 1;
  }

  /** Of three displaced folders in shallow-first order the first is chosen, if its destination is free. */
  lemma FirstOfThree(files: seq<File>, x: Folder, y: Folder, z: Folder, goals: map<Id, Path>)
    requires |x.path| <= |y.path| <= |z.path|
    requires Displaced(x, goals) && Displaced(y, goals) && Displaced(z, goals) && Available(x, files, [x, y, z], goals)
    ensures Choose(files, [x, y, z], goals) == Direct(x)
  {
    var all := [x, y, z];
    assert all[1..] == [y, z] && [y, z][1..] == [z] && [z][1..] == [];
    assert DisplacedFolders([z], goals) == [z];
    assert DisplacedFolders([y, z], goals) == [y, z];
    assert DisplacedFolders(all, goals) == all;
    assert SortBy([z], ShallowFirst) == [z];
    assert SortBy([y, z], ShallowFirst) == [y, z];
    assert SortBy(all, ShallowFirst) == all;
  }

  /** With the first folder settled, the second is chosen. */
  lemma FirstOfTwo(files: seq<File>, x: Folder, y: Folder, z: Folder, goals: map<Id, Path>)
    requires |y.path| <= |z.path|
    requires !Displaced(x, goals) && Displaced(y, goals) && Displaced(z, goals) && Available(y, files, [x, y, z], goals)
    ensures Choose(files, [x, y, z], goals) == Direct(y)
  {
    var all := [x, y, z];
    assert all[1..] == [y, z] && [y, z][1..] == [z] && [z][1..] == [];
    assert DisplacedFolders([z], goals) == [z];
    assert DisplacedFolders([y, z], goals) == [y, z];
    assert DisplacedFolders(all, goals) == [y, z];
    assert SortBy([z], ShallowFirst) == [z];
    assert SortBy([y, z], ShallowFirst) == [y, z];
  }

  lemma FirstMove()
    ensures Choose([], Start().folders, GOALS) == Direct(Named("1", B))
    ensures var first := Relocate(Start(), Named("1", B), EX);
      first.Ok? && first.value.files == [] && first.value.folders == [Named("1", EX), Named("2", A), Named("3", AX)]
      && |first.value.ops| == 1
  {
    hide Choose;
    Distinctions();
    FirstOfThree([], Named("1", B), Named("2", A), Named("3", AX), GOALS);
  }

  lemma SecondMove(first: Work)
    requires first.files == [] && first.folders == [Named("1", EX), Named("2", A), Named("3", AX)]
    ensures Choose(first.files, first.folders, GOALS) == Direct(Named("2", A))
    ensures var second := Relocate(first, Named("2", A), E);
      && second.Ok? && |second.value.folders| == 3 && |second.value.ops| == |first.ops| + 1
      && second.value.folders[0].path == second.value.folders[2].path
      && second.value.ops[|first.ops|].MoveFolder?
      && second.value.ops[|first.ops|].target == Given("2") && second.value.ops[|first.ops|].newPath == E
  {
    Distinctions();
    FirstOfTwo(first.files, Named("1", EX), Named("2", A), Named("3", AX), GOALS);
  }

  lemma NotClear(t: Tree, op: Op)
    requires t.folders == [Named("1", EX), Named("2", A), Named("3", AX)]
    requires op.MoveFolder? && op.target == Given("2") && op.newPath == E
    ensures !ClearLanding(t, op)
  {
    Distinctions();
    assert t.folders[1..] == [Named("2", A), Named("3", AX)];
    assert FolderAt(t.folders, Given("2")) == Some(Named("2", A));
    assert t.folders[2] in t.folders && t.folders[0] in t.folders;
  }

  /**
   b goes to e/x, then a goes to e and takes a/x onto e/x: the loop makes both
   moves, and the second leaves two folders at e/x.
   */
  lemma TwoFoldersOnePath()
    ensures DistinctPaths(Tree(Start().files, Start().folders))
    ensures Choose(Start().files, Start().folders, GOALS) == Direct(Named("1", B))
    ensures var first := Relocate(Start(), Named("1", B), EX);
      && first.Ok?
      && Choose(first.value.files, first.value.folders, GOALS) == Direct(Named("2", A))
      && var second := Relocate(first.value, Named("2", A), E);
      && second.Ok?
      && !DistinctFolderPaths(second.value.folders)
      && !ClearLanding(Tree(first.value.files, first.value.folders), second.value.ops[1])
  {
    hide Choose, Relocate, ClearLanding;
    Distinctions();
    FirstMove();
    var first := Relocate(Start(), Named("1", B), EX).value;
    SecondMove(first);
    NotClear(Tree(first.files, first.folders), Relocate(first, Named("2", A), E).value.ops[1]);
  }
}
