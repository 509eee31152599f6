/**
 A file kept under a folder that goes (plugin/src/operation-plan.ts:32).
 */
module StrayExample {
  import opened Wrappers
  import opened Paths
  import opened OperationModel
  import opened PlanWork
  import opened FolderPlan
  import opened FileMatching
  import opened FilePlan
  import opened Namespace
  import opened Making
  import opened BatchPlan

  // An entry below a replaced folder takes the identity of the creation recorded
  // at its path, even when the tree already has a file of that identity there.
  // That file is then kept, and the replaced folder is removed around it.

  const R: Path := [Name("r")]
  const RF: Path := [Name("r"), Name("f")]
  const FILE := File(Some(Given("x")), RF, Content("h", 1), Some(Given("v")))
  const FOLDER := Folder(Given("1"), R, Given("w"))

  function Before(): Tree {
    Tree([FILE], [FOLDER])
  }

  /** The file as it is, in a new folder of the same name; the journal still holds the creation of the file. */
  function Wanted(): Request {
    Request([Entry(RF, Content("h", 1), Some(Given("x")))], [R], [Wish(R, Given("2"))], [], {},
            map[(FileEntity, RF) := Some(Given("x"))], map[], 0)
  }

  lemma Distinctions()
    ensures Given("1") != Given("2") && R != RF && Under(RF, R) && Parent(RF) == R && |R| == 1
  {
    assert "1"[0] != "2"[0];
    assert |R| == 1 && |RF| == 2 && RF[..1] == R;
  }

  lemma Orderly()
    ensures DistinctIds(Before()) && Unused(Before(), Wanted()) && InOrder(Before(), Wanted())
  {
    Distinctions();
    var wishes := Wanted().wishes;
    assert wishes[..0] == [] && WishedPaths([]) == map[];
    assert WishedPaths(wishes) == map[Given("2") := R];
  }

  /** No folder moves. */
  lemma StandsStill(s: Stages)
    requires Prepared(Before(), Wanted(), s)
    ensures Movable(Before(), Wanted()) && s.settled.files == [FILE] && s.settled.folders == [FOLDER]
    ensures AllApart(s.settled.files, Wanted().entries)
  {
    hide Relocated, Movable, Decided;
    Orderly();
    UndisplacedMovable(Before(), Wanted());
    TreeApart(Before(), Wanted());
  }

  lemma FolderReplaced(s: Stages)
    requires Prepared(Before(), Wanted(), s)
    ensures s.replaced == {R} && ParentClosed(s.wanted) && R in s.wanted
  {
    hide Relocated, Movable;
    Distinctions();
    StandsStill(s);
    var q := Wanted();
    var wishes := q.wishes;
    assert wishes[..0] == [] && WishedIds([]) == map[];
    assert WishedIds(wishes) == map[R := Given("2")];
    assert R in q.folders;
    assert Replaced(FOLDER, WishedIds(wishes), q.creations);
    assert FOLDER in s.settled.folders;
    var kept := PreservedPaths(s.settled.folders, PreservedIds(Before().folders, q.preserve));
    assert kept == {};
    WantedClosedIff(s.parents, q.folders + EntryParents(q.entries), {R});
    assert s.wanted == s.parents + {R};
  }

  lemma EntryTakesCreation(s: Stages)
    requires Prepared(Before(), Wanted(), s) && s.replaced == {R}
    ensures s.rewritten == Wanted().entries
    ensures Claimable(Before().files, s.rewritten, Wanted().creations) && AllRevised(Before().files)
    ensures !NothingStrays(s)
  {
    hide Relocated, Movable;
    Distinctions();
    StandsStill(s);
    var q := Wanted();
    assert UnderSome(q.entries[0].path, s.replaced);
    assert (FileEntity, RF) in q.creations;
    assert s.rewritten[0].id == Some(Given("x"));
    assert ById([FILE], Given("x")) == Some(FILE) by {
      assert [FILE][0] == FILE;
    }
    assert s.settled.files == [FILE];
  }

  /** The planner succeeds, and the batch removes the folder while the file is in it. */
  method StrayFile() returns (r: Result<Batch>, ghost s: Stages)
    ensures r.Ok? && ParentClosed(s.wanted) && !NothingStrays(s)
    ensures !Always(Before(), r.value.ops, Emptied)
  {
    hide Always, Prepared, ParentClosed, NothingStrays, Claimable, AllRevised, InOrder, Unused, DistinctIds, Planned, OwnNames, Fulfilled, Traced, FoldersSettled, AsClaimed, NoneReplaced, Movable, AllApart;
    Orderly();
    UndisplacedMovable(Before(), Wanted());
    r, s := BuildOperationBatch(Before(), Wanted());
    StandsStill(s);
    FolderReplaced(s);
    EntryTakesCreation(s);
  }
}
