/**
 The relocation loop stops after 3n + 1 turns (plugin/src/operation-plan.ts:25).
 Eight folders, distinct and with all their parents before and after: every
 turn makes a move, a 26th would settle the last folder, and the planner throws
 after the 25 turns there are.
 */
module TurnsExample {
  import opened Wrappers
  import opened Paths
  import opened OperationModel
  import opened PlanWork
  import opened FolderPlan
  import opened FolderTurns
  import opened BatchPlan

  const A := Name("a")
  const B := Name("b")
  const C := Name("c")

  /** Where the folders go. */
  const ENDS: seq<Path> := [
    [B, C, C], [B], [B, C, C, B], [B, C], [B, C, C, C], [B, C, C, C, B], [B, C, C, C, B, B], [B, C, C, C, B, C]]

  const GOALS: map<Id, Path> := map[
    Minted(0) := ENDS[0], Minted(1) := ENDS[1], Minted(2) := ENDS[2], Minted(3) := ENDS[3],
    Minted(4) := ENDS[4], Minted(5) := ENDS[5], Minted(6) := ENDS[6], Minted(7) := ENDS[7]]

  function Placed(s: seq<Path>): (r: seq<Folder>)
    ensures |r| == |s|
  {
    seq(|s|, k requires 0 <= k < |s| => Folder(Minted(k), s[k], Given("r")))
  }

  /** The paths after folder `i` has gone to `to` with all below it. */
  function Shifted(s: seq<Path>, i: nat, to: Path): (r: seq<Path>)
    requires i < |s|
    ensures |r| == |s|
  {
    seq(|s|, k requires 0 <= k < |s| =>
      if k == i then to else if Under(s[k], s[i]) then Rebase(s[k], s[i], to) else s[k])
  }

  predicate Arrived(s: seq<Path>, k: nat)
    requires k < |s| == 8
  {
    s[k] == ENDS[k]
  }

  /** Another folder stands where folder `k` goes. */
  predicate Taken(s: seq<Path>, k: nat)
    requires k < |s| == 8
  {
    exists j :: 0 <= j < 8 && j != k && s[j] == ENDS[k]
  }

  /** A folder that has to go itself stands where folder `k` goes. */
  predicate Behind(s: seq<Path>, k: nat)
    requires k < |s| == 8
  {
    exists j :: 0 <= j < 8 && j != k && s[j] == ENDS[k] && !Arrived(s, j)
  }

  predicate Ahead(s: seq<Path>, k: nat, i: nat)
    requires k < |s| && i < |s|
  {
    |s[k]| < |s[i]| || (|s[k]| == |s[i]| && k < i)
  }

  ghost predicate Stands(w: Work, s: seq<Path>, next: nat) {
    w.files == [] && w.folders == Placed(s) && w.next == next
  }

  lemma GoerFacts(s: seq<Path>, k: nat)
    requires k < |s| == 8
    ensures Displaced(Placed(s)[k], GOALS) <==> !Arrived(s, k)
    ensures Available(Placed(s)[k], [], Placed(s), GOALS) <==> !Taken(s, k)
  {
    assert Placed(s)[k].id in GOALS && GOALS[Placed(s)[k].id] == ENDS[k];
    if Taken(s, k) {
      var j :| 0 <= j < 8 && j != k && s[j] == ENDS[k];
      assert Placed(s)[j] in Placed(s);
    }
  }

  lemma BehindWaits(s: seq<Path>, k: nat)
    requires k < |s| == 8 && !Arrived(s, k) && Behind(s, k)
    ensures Waits(Placed(s), GOALS)(Placed(s)[k])
  {
    hide Arrived;
    GoerFacts(s, k);
    var j :| 0 <= j < 8 && j != k && s[j] == ENDS[k] && !Arrived(s, j);
    GoerFacts(s, j);
    assert Placed(s)[j] in Placed(s);
    assert GOALS[Placed(s)[k].id] == ENDS[k];
  }

  lemma ShiftedPlaces(s: seq<Path>, i: nat, to: Path)
    requires i < |s|
    ensures RebaseFolders(Placed(s), Minted(i), s[i], to) == Placed(Shifted(s, i, to))
  {
  }

  lemma MoveFacts(w: Work, s: seq<Path>, next: nat, i: nat, to: Path)
    requires i < |s| && Stands(w, s, next)
    ensures var r := Relocate(w, Placed(s)[i], to); r.Ok? && Stands(r.value, Shifted(s, i, to), next + 1)
  {
    hide Shifted, RebaseFolders;
    ShiftedPlaces(s, i, to);
    assert RebaseFiles([], s[i], to) == [];
  }

  /** A turn in which folder `i` goes where it should. */
  lemma Goes(w: Work, s: seq<Path>, next: nat, i: nat)
    requires |s| == 8 && i < 8 && Stands(w, s, next)
    requires !Arrived(s, i) && !Taken(s, i) && forall k :: 0 <= k < 8 && Ahead(s, k, i) ==> Arrived(s, k) || Taken(s, k)
    ensures Turn(w, GOALS).Ok? && Stands(Turn(w, GOALS).value, Shifted(s, i, ENDS[i]), next + 1)
  {
    hide Arrived, Taken, Shifted, Relocate, FirstWith, Choose;
    forall k | 0 <= k < 8
      ensures CanGo([], Placed(s), GOALS)(Placed(s)[k]) <==> !Arrived(s, k) && !Taken(s, k)
    {
      GoerFacts(s, k);
    }
    GoesFirst([], Placed(s), GOALS, i);
    MoveFacts(w, s, next, i, ENDS[i]);
  }

  /** A turn in which nobody can go, and folder `i` steps aside. */
  lemma Steps(w: Work, s: seq<Path>, next: nat, i: nat)
    requires |s| == 8 && i < 8 && Stands(w, s, next)
    requires !Arrived(s, i) && (forall k :: 0 <= k < 8 ==> Arrived(s, k) || Taken(s, k))
    requires Behind(s, i) && forall k :: 0 <= k < 8 && Ahead(s, k, i) ==> Arrived(s, k)
    ensures Turn(w, GOALS).Ok? && Stands(Turn(w, GOALS).value, Shifted(s, i, [Scratch(Minted(next))]), next + 2)
  {
    hide Arrived, Taken, Behind, Shifted, Relocate, FirstWith, Choose, Displaced;
    forall k | 0 <= k < 8
      ensures !CanGo([], Placed(s), GOALS)(Placed(s)[k])
      ensures Displaced(Placed(s)[k], GOALS) <==> !Arrived(s, k)
    {
      GoerFacts(s, k);
    }
    BehindWaits(s, i);
    StepsAside([], Placed(s), GOALS, i);
    MoveFacts(w.(next := next + 1), s, next + 1, i, [Scratch(Minted(next))]);
  }

  lemma Letters()
    ensures A != B && B != C && A != C
  {
    assert "a"[0] != "b"[0] && "b"[0] != "c"[0] && "a"[0] != "c"[0];
  }

  ghost predicate GoesTo(s: seq<Path>, i: nat, t: seq<Path>) {
    && |s| == 8 && i < 8 && t == Shifted(s, i, ENDS[i])
    && !Arrived(s, i) && !Taken(s, i) && forall k :: 0 <= k < 8 && Ahead(s, k, i) ==> Arrived(s, k) || Taken(s, k)
  }

  ghost predicate StepsTo(s: seq<Path>, i: nat, next: nat, t: seq<Path>) {
    && |s| == 8 && i < 8 && t == Shifted(s, i, [Scratch(Minted(next))])
    && !Arrived(s, i) && (forall k :: 0 <= k < 8 ==> Arrived(s, k) || Taken(s, k))
    && Behind(s, i) && forall k :: 0 <= k < 8 && Ahead(s, k, i) ==> Arrived(s, k)
  }

  const AT0: seq<Path> := [
    [A], [A, C], [A, C, B], [B], [B, C], [B, C, A], [B, C, A, C], [C]]

  const AT1: seq<Path> := [
    [B, C, C], [B, C, C, C], [B, C, C, C, B], [B], [B, C], [B, C, A], [B, C, A, C], [C]]

  const AT2: seq<Path> := [
    [B, C, C], [B, C, C, C], [B, C, C, C, B], [B], [B, C], [B, C, A], [B, C, A, C], [B, C, C, C, B, C]]

  const AT3: seq<Path> := [
    [B, C, C], [B, C, C, C], [B, C, C, C, B], [B], [B, C], [B, C, A], [B, C, C, C, B, B], [B, C, C, C, B, C]]

  const AT4: seq<Path> := [
    [B, C, C], [B, C, C, C], [B, C, C, B], [B], [B, C], [B, C, A], [B, C, C, B, B], [B, C, C, B, C]]

  const AT5: seq<Path> := [
    [B, C, C], [B, C, C, C], [B, C, C, B], [B], [B, C], [B, C, C, C, B], [B, C, C, B, B], [B, C, C, B, C]]

  const AT6: seq<Path> := [
    [B, C, C], [B, C, C, C], [B, C, C, B], [B], [B, C], [B, C, C, C, B], [B, C, C, C, B, B], [B, C, C, B, C]]

  const AT7: seq<Path> := [
    [B, C, C], [B, C, C, C], [B, C, C, B], [B], [B, C], [B, C, C, C, B], [B, C, C, C, B, B], [B, C, C, C, B, C]]

  const AT8: seq<Path> := [
    [Scratch(Minted(15)), C, C], [Scratch(Minted(15)), C, C, C], [Scratch(Minted(15)), C, C, B], [Scratch(Minted(15))],
    [Scratch(Minted(15)), C], [Scratch(Minted(15)), C, C, C, B], [Scratch(Minted(15)), C, C, C, B, B], [Scratch(Minted(15)), C, C, C, B, C]]

  const AT9: seq<Path> := [
    [B, C, C, C], [B, C, C, C, C], [B, C, C, C, B], [B, C], [B, C, C], [B, C, C, C, C, B], [B, C, C, C, C, B, B], [B, C, C, C, C, B, C]]

  const AT10: seq<Path> := [
    [B, C, C, C], [B], [B, C, C, C, B], [B, C], [B, C, C], [B, B], [B, B, B], [B, B, C]]

  const AT11: seq<Path> := [
    [B, C, C, C], [B], [B, C, C, C, B], [B, C], [B, C, C], [B, B], [B, C, C, C, B, B], [B, B, C]]

  const AT12: seq<Path> := [
    [B, C, C, C], [B], [B, C, C, C, B], [B, C], [B, C, C], [B, B], [B, C, C, C, B, B], [B, C, C, C, B, C]]

  const AT13: seq<Path> := [
    [B, C, C, C], [B], [B, C, C, B], [B, C], [B, C, C], [B, B], [B, C, C, B, B], [B, C, C, B, C]]

  const AT14: seq<Path> := [
    [B, C, C, C], [B], [B, C, C, B], [B, C], [B, C, C], [B, C, C, C, B], [B, C, C, B, B], [B, C, C, B, C]]

  const AT15: seq<Path> := [
    [B, C, C, C], [B], [B, C, C, B], [B, C], [B, C, C], [B, C, C, C, B], [B, C, C, C, B, B], [B, C, C, B, C]]

  const AT16: seq<Path> := [
    [B, C, C, C], [B], [B, C, C, B], [B, C], [B, C, C], [B, C, C, C, B], [B, C, C, C, B, B], [B, C, C, C, B, C]]

  const AT17: seq<Path> := [
    [Scratch(Minted(25)), C], [B], [Scratch(Minted(25)), B], [B, C], [Scratch(Minted(25))], [Scratch(Minted(25)), C, B],
    [Scratch(Minted(25)), C, B, B], [Scratch(Minted(25)), C, B, C]]

  const AT18: seq<Path> := [
    [B, C, C, C, C], [B], [B, C, C, C, B], [B, C], [B, C, C, C], [B, C, C, C, C, B], [B, C, C, C, C, B, B], [B, C, C, C, C, B, C]]

  const AT19: seq<Path> := [
    [B, C, C], [B], [B, C, C, C, B], [B, C], [B, C, C, C], [B, C, C, B], [B, C, C, B, B], [B, C, C, B, C]]

  const AT20: seq<Path> := [
    [B, C, C], [B], [B, C, C, C, B], [B, C], [B, C, C, C], [B, C, C, B], [B, C, C, C, B, B], [B, C, C, B, C]]

  const AT21: seq<Path> := [
    [B, C, C], [B], [B, C, C, C, B], [B, C], [B, C, C, C], [B, C, C, B], [B, C, C, C, B, B], [B, C, C, C, B, C]]

  const AT22: seq<Path> := [
    [B, C, C], [B], [B, C, C, C, B], [B, C], [B, C, C, C], [Scratch(Minted(31))], [B, C, C, C, B, B], [B, C, C, C, B, C]]

  const AT23: seq<Path> := [
    [B, C, C], [B], [B, C, C, B], [B, C], [B, C, C, C], [Scratch(Minted(31))], [B, C, C, B, B], [B, C, C, B, C]]

  const AT24: seq<Path> := [
    [B, C, C], [B], [B, C, C, B], [B, C], [B, C, C, C], [B, C, C, C, B], [B, C, C, B, B], [B, C, C, B, C]]

  const AT25: seq<Path> := [
    [B, C, C], [B], [B, C, C, B], [B, C], [B, C, C, C], [B, C, C, C, B], [B, C, C, C, B, B], [B, C, C, B, C]]

  const AT26: seq<Path> := [
    [B, C, C], [B], [B, C, C, B], [B, C], [B, C, C, C], [B, C, C, C, B], [B, C, C, C, B, B], [B, C, C, C, B, C]]

  lemma Turn0()
    ensures GoesTo(AT0, 0, AT1)
  {
    Letters();
    assert AT0[2][0] != ENDS[0][0] && AT0[5][2] != ENDS[0][2] && AT0[1][..1] == AT0[0] && ENDS[0] + AT0[1][1..] == AT1[1];
    assert AT0[2][..1] == AT0[0] && ENDS[0] + AT0[2][1..] == AT1[2] && AT0[4][..1][0] != AT0[0][0] && AT0[5][..1][0] != AT0[0][0];
    assert AT0[6][..1][0] != AT0[0][0];
  }

  lemma Turn1()
    ensures GoesTo(AT1, 7, AT2)
  {
    Letters();
    assert AT1[4] == ENDS[3] && AT1[0][..1][0] != AT1[7][0] && AT1[1][..1][0] != AT1[7][0] && AT1[2][..1][0] != AT1[7][0];
    assert AT1[4][..1][0] != AT1[7][0] && AT1[5][..1][0] != AT1[7][0] && AT1[6][..1][0] != AT1[7][0];
  }

  lemma Turn2()
    ensures GoesTo(AT2, 6, AT3)
  {
    Letters();
    assert AT2[7][5] != ENDS[6][5] && AT2[3] == ENDS[1] && AT2[4] == ENDS[3] && AT2[1] == ENDS[4] && AT2[2] == ENDS[5];
    assert AT2[2][..4][2] != AT2[6][2] && AT2[7][..4][2] != AT2[6][2];
  }

  lemma Turn3()
    ensures GoesTo(AT3, 2, AT4)
  {
    Letters();
    assert AT3[1][3] != ENDS[2][3] && AT3[3] == ENDS[1] && AT3[4] == ENDS[3] && AT3[1] == ENDS[4] && AT3[2] == ENDS[5];
    assert AT3[6][..5] == AT3[2] && ENDS[2] + AT3[6][5..] == AT4[6] && AT3[7][..5] == AT3[2] && ENDS[2] + AT3[7][5..] == AT4[7];
  }

  lemma Turn4()
    ensures GoesTo(AT4, 5, AT5)
  {
    Letters();
    assert AT4[6][3] != ENDS[5][3] && AT4[7][3] != ENDS[5][3] && AT4[4] == ENDS[3] && AT4[1] == ENDS[4] && AT4[1][..3][2] != AT4[5][2];
    assert AT4[2][..3][2] != AT4[5][2] && AT4[6][..3][2] != AT4[5][2] && AT4[7][..3][2] != AT4[5][2];
  }

  lemma Turn5()
    ensures GoesTo(AT5, 6, AT6)
  {
    Letters();
    assert AT5[3] == ENDS[1] && AT5[4] == ENDS[3] && AT5[1] == ENDS[4];
  }

  lemma Turn6()
    ensures GoesTo(AT6, 7, AT7)
  {
    Letters();
    assert AT6[6][5] != ENDS[7][5] && AT6[3] == ENDS[1] && AT6[4] == ENDS[3] && AT6[1] == ENDS[4] && AT6[6][..5][3] != AT6[7][3];
  }

  lemma Turn7()
    ensures StepsTo(AT7, 3, 15, AT8)
  {
    Letters();
    assert AT7[3] == ENDS[1] && AT7[4] == ENDS[3] && AT7[1] == ENDS[4];
    assert AT7[0][..1] == AT7[3] && [Scratch(Minted(15))] + AT7[0][1..] == AT8[0];
    assert AT7[1][..1] == AT7[3] && [Scratch(Minted(15))] + AT7[1][1..] == AT8[1];
    assert AT7[2][..1] == AT7[3] && [Scratch(Minted(15))] + AT7[2][1..] == AT8[2];
    assert AT7[4][..1] == AT7[3] && [Scratch(Minted(15))] + AT7[4][1..] == AT8[4];
    assert AT7[5][..1] == AT7[3] && [Scratch(Minted(15))] + AT7[5][1..] == AT8[5];
    assert AT7[6][..1] == AT7[3] && [Scratch(Minted(15))] + AT7[6][1..] == AT8[6];
    assert AT7[7][..1] == AT7[3] && [Scratch(Minted(15))] + AT7[7][1..] == AT8[7];
  }

  lemma Turn8()
    ensures GoesTo(AT8, 3, AT9)
  {
    Letters();
    assert AT8[4][0] != ENDS[3][0] && AT8[0][..1] == AT8[3] && ENDS[3] + AT8[0][1..] == AT9[0];
    assert AT8[1][..1] == AT8[3] && ENDS[3] + AT8[1][1..] == AT9[1] && AT8[2][..1] == AT8[3] && ENDS[3] + AT8[2][1..] == AT9[2];
    assert AT8[4][..1] == AT8[3] && ENDS[3] + AT8[4][1..] == AT9[4] && AT8[5][..1] == AT8[3] && ENDS[3] + AT8[5][1..] == AT9[5];
    assert AT8[6][..1] == AT8[3] && ENDS[3] + AT8[6][1..] == AT9[6] && AT8[7][..1] == AT8[3] && ENDS[3] + AT8[7][1..] == AT9[7];
  }

  lemma Turn9()
    ensures GoesTo(AT9, 1, AT10)
  {
    Letters();
    assert AT9[4] == ENDS[0] && AT9[0] == ENDS[4] && AT9[5][..5] == AT9[1] && ENDS[1] + AT9[5][5..] == AT10[5];
    assert AT9[6][..5] == AT9[1] && ENDS[1] + AT9[6][5..] == AT10[6] && AT9[7][..5] == AT9[1] && ENDS[1] + AT9[7][5..] == AT10[7];
  }

  lemma Turn10()
    ensures GoesTo(AT10, 6, AT11)
  {
    Letters();
    assert AT10[0] == ENDS[4] && AT10[2] == ENDS[5] && AT10[0][..3][1] != AT10[6][1] && AT10[2][..3][1] != AT10[6][1];
  }

  lemma Turn11()
    ensures GoesTo(AT11, 7, AT12)
  {
    Letters();
    assert AT11[6][5] != ENDS[7][5] && AT11[0] == ENDS[4] && AT11[2] == ENDS[5] && AT11[0][..3][1] != AT11[7][1];
    assert AT11[2][..3][1] != AT11[7][1] && AT11[6][..3][1] != AT11[7][1];
  }

  lemma Turn12()
    ensures GoesTo(AT12, 2, AT13)
  {
    Letters();
    assert AT12[0][3] != ENDS[2][3] && AT12[4] == ENDS[0] && AT12[0] == ENDS[4] && AT12[2] == ENDS[5];
    assert AT12[6][..5] == AT12[2] && ENDS[2] + AT12[6][5..] == AT13[6] && AT12[7][..5] == AT12[2] && ENDS[2] + AT12[7][5..] == AT13[7];
  }

  lemma Turn13()
    ensures GoesTo(AT13, 5, AT14)
  {
    Letters();
    assert AT13[6][3] != ENDS[5][3] && AT13[7][3] != ENDS[5][3] && AT13[0][..2][1] != AT13[5][1] && AT13[2][..2][1] != AT13[5][1];
    assert AT13[4][..2][1] != AT13[5][1] && AT13[6][..2][1] != AT13[5][1] && AT13[7][..2][1] != AT13[5][1];
  }

  lemma Turn14()
    ensures GoesTo(AT14, 6, AT15)
  {
    Letters();
    assert AT14[4] == ENDS[0] && AT14[0] == ENDS[4];
  }

  lemma Turn15()
    ensures GoesTo(AT15, 7, AT16)
  {
    Letters();
    assert AT15[6][5] != ENDS[7][5] && AT15[4] == ENDS[0] && AT15[0] == ENDS[4] && AT15[6][..5][3] != AT15[7][3];
  }

  lemma Turn16()
    ensures StepsTo(AT16, 4, 25, AT17)
  {
    Letters();
    assert AT16[4] == ENDS[0] && AT16[0] == ENDS[4] && AT16[0][..3] == AT16[4] && [Scratch(Minted(25))] + AT16[0][3..] == AT17[0];
    assert AT16[2][..3] == AT16[4] && [Scratch(Minted(25))] + AT16[2][3..] == AT17[2];
    assert AT16[5][..3] == AT16[4] && [Scratch(Minted(25))] + AT16[5][3..] == AT17[5];
    assert AT16[6][..3] == AT16[4] && [Scratch(Minted(25))] + AT16[6][3..] == AT17[6];
    assert AT16[7][..3] == AT16[4] && [Scratch(Minted(25))] + AT16[7][3..] == AT17[7];
  }

  lemma Turn17()
    ensures GoesTo(AT17, 4, AT18)
  {
    Letters();
    assert AT17[6][0] != ENDS[4][0] && AT17[7][0] != ENDS[4][0] && AT17[0][..1] == AT17[4] && ENDS[4] + AT17[0][1..] == AT18[0];
    assert AT17[2][..1] == AT17[4] && ENDS[4] + AT17[2][1..] == AT18[2] && AT17[3][..1][0] != AT17[4][0];
    assert AT17[5][..1] == AT17[4] && ENDS[4] + AT17[5][1..] == AT18[5] && AT17[6][..1] == AT17[4] && ENDS[4] + AT17[6][1..] == AT18[6];
    assert AT17[7][..1] == AT17[4] && ENDS[4] + AT17[7][1..] == AT18[7];
  }

  lemma Turn18()
    ensures GoesTo(AT18, 0, AT19)
  {
    Letters();
    assert AT18[5][..5] == AT18[0] && ENDS[0] + AT18[5][5..] == AT19[5] && AT18[6][..5] == AT18[0] && ENDS[0] + AT18[6][5..] == AT19[6];
    assert AT18[7][..5] == AT18[0] && ENDS[0] + AT18[7][5..] == AT19[7];
  }

  lemma Turn19()
    ensures GoesTo(AT19, 6, AT20)
  {
    Letters();
    assert AT19[5] == ENDS[2] && AT19[2] == ENDS[5];
  }

  lemma Turn20()
    ensures GoesTo(AT20, 7, AT21)
  {
    Letters();
    assert AT20[6][5] != ENDS[7][5] && AT20[5] == ENDS[2] && AT20[2] == ENDS[5] && AT20[6][..5][3] != AT20[7][3];
  }

  lemma Turn21()
    ensures StepsTo(AT21, 5, 31, AT22)
  {
    Letters();
    assert AT21[5] == ENDS[2] && AT21[2] == ENDS[5] && AT21[2][..4][3] != AT21[5][3] && AT21[6][..4][3] != AT21[5][3];
    assert AT21[7][..4][3] != AT21[5][3];
  }

  lemma Turn22()
    ensures GoesTo(AT22, 2, AT23)
  {
    Letters();
    assert AT22[4][3] != ENDS[2][3] && AT22[2] == ENDS[5] && AT22[6][..5] == AT22[2] && ENDS[2] + AT22[6][5..] == AT23[6];
    assert AT22[7][..5] == AT22[2] && ENDS[2] + AT22[7][5..] == AT23[7];
  }

  lemma Turn23()
    ensures GoesTo(AT23, 5, AT24)
  {
    Letters();
    assert AT23[6][3] != ENDS[5][3] && AT23[7][3] != ENDS[5][3] && AT23[0][..1][0] != AT23[5][0] && AT23[2][..1][0] != AT23[5][0];
    assert AT23[3][..1][0] != AT23[5][0] && AT23[4][..1][0] != AT23[5][0] && AT23[6][..1][0] != AT23[5][0] && AT23[7][..1][0] != AT23[5][0];
  }

  lemma Turn24()
    ensures GoesTo(AT24, 6, AT25)
  {
    Letters();
  }

  lemma Turn25()
    ensures GoesTo(AT25, 7, AT26)
  {
    Letters();
    assert AT25[6][5] != ENDS[7][5] && AT25[6][..5][3] != AT25[7][3];
  }

  const START := Work([], [], Placed(AT0), map[], 8)

  lemma {:induction false} OneMore(w: Work, k: nat)
    requires Turns(w, GOALS, k).Ok?
    ensures Turns(w, GOALS, k + 1) == Turn(Turns(w, GOALS, k).value, GOALS)
    decreases k
  {
    hide Turn;
    if k > 0 {
      OneMore(Turn(w, GOALS).value, k - 1);
    }
  }

  /** After `k` turns the folders stand at `s`. */
  ghost predicate Reached(k: nat, s: seq<Path>, next: nat) {
    Turns(START, GOALS, k).Ok? && Stands(Turns(START, GOALS, k).value, s, next)
  }

  lemma Onward(k: nat, s: seq<Path>, next: nat, i: nat, t: seq<Path>)
    requires Reached(k, s, next) && GoesTo(s, i, t)
    ensures Reached(k + 1, t, next + 1)
  {
    hide Turn, Stands, Arrived, Taken, Ahead;
    OneMore(START, k);
    Goes(Turns(START, GOALS, k).value, s, next, i);
  }

  lemma Sideways(k: nat, s: seq<Path>, next: nat, i: nat, t: seq<Path>)
    requires Reached(k, s, next) && StepsTo(s, i, next, t)
    ensures Reached(k + 1, t, next + 2)
  {
    hide Turn, Stands, Arrived, Taken, Behind, Ahead;
    OneMore(START, k);
    Steps(Turns(START, GOALS, k).value, s, next, i);
  }

  lemma FirstHalf()
    ensures Reached(13, AT13, 22)
  {
    assert Reached(0, AT0, 8);
    hide Reached, GoesTo, StepsTo;
    Turn0();
    Onward(0, AT0, 8, 0, AT1);
    Turn1();
    Onward(1, AT1, 9, 7, AT2);
    Turn2();
    Onward(2, AT2, 10, 6, AT3);
    Turn3();
    Onward(3, AT3, 11, 2, AT4);
    Turn4();
    Onward(4, AT4, 12, 5, AT5);
    Turn5();
    Onward(5, AT5, 13, 6, AT6);
    Turn6();
    Onward(6, AT6, 14, 7, AT7);
    Turn7();
    Sideways(7, AT7, 15, 3, AT8);
    Turn8();
    Onward(8, AT8, 17, 3, AT9);
    Turn9();
    Onward(9, AT9, 18, 1, AT10);
    Turn10();
    Onward(10, AT10, 19, 6, AT11);
    Turn11();
    Onward(11, AT11, 20, 7, AT12);
    Turn12();
    Onward(12, AT12, 21, 2, AT13);
  }

  lemma SecondHalf()
    ensures Reached(25, AT25, 36) && Reached(26, AT26, 37)
  {
    FirstHalf();
    hide Reached, GoesTo, StepsTo;
    Turn13();
    Onward(13, AT13, 22, 5, AT14);
    Turn14();
    Onward(14, AT14, 23, 6, AT15);
    Turn15();
    Onward(15, AT15, 24, 7, AT16);
    Turn16();
    Sideways(16, AT16, 25, 4, AT17);
    Turn17();
    Onward(17, AT17, 27, 4, AT18);
    Turn18();
    Onward(18, AT18, 28, 0, AT19);
    Turn19();
    Onward(19, AT19, 29, 6, AT20);
    Turn20();
    Onward(20, AT20, 30, 7, AT21);
    Turn21();
    Sideways(21, AT21, 31, 5, AT22);
    Turn22();
    Onward(22, AT22, 33, 2, AT23);
    Turn23();
    Onward(23, AT23, 34, 5, AT24);
    Turn24();
    Onward(24, AT24, 35, 6, AT25);
    Turn25();
    Onward(25, AT25, 36, 7, AT26);
  }

  /** Pairwise different, and each with its parent. */
  ghost predicate WellFormed(s: seq<Path>) {
    && (forall i, j :: 0 <= i < j < |s| ==> s[i] != s[j])
    && (forall i :: 0 <= i < |s| && |s[i]| > 1 ==> Parent(s[i]) in s)
  }

  lemma BeforeIsWellFormed()
    ensures WellFormed(AT0)
  {
    Letters();
    assert AT0[0][0] != AT0[3][0] && AT0[0][0] != AT0[7][0] && AT0[1][0] != AT0[4][0] && AT0[2][0] != AT0[5][0];
    assert AT0[3][0] != AT0[7][0];
    assert AT0[1][..1] == AT0[0] && AT0[2][..2] == AT0[1] && AT0[4][..1] == AT0[3] && AT0[5][..2] == AT0[4];
    assert AT0[6][..3] == AT0[5];
  }

  lemma AfterIsWellFormed()
    ensures WellFormed(ENDS)
  {
    Letters();
    assert ENDS[2][3] != ENDS[4][3] && ENDS[6][5] != ENDS[7][5];
    assert ENDS[0][..2] == ENDS[3] && ENDS[2][..3] == ENDS[0] && ENDS[3][..1] == ENDS[1] && ENDS[4][..3] == ENDS[0];
    assert ENDS[5][..4] == ENDS[4] && ENDS[6][..5] == ENDS[5] && ENDS[7][..5] == ENDS[5];
  }

  /** The last folder is still displaced after 25 turns, and none after 26. */
  lemma TurnsRunOut()
    ensures WellFormed(AT0) && WellFormed(ENDS)
    ensures Relocated(START, GOALS).Thrown?
    ensures Turns(START, GOALS, 26).Ok? && NoneDisplaced(Turns(START, GOALS, 26).value.folders, GOALS)
  {
    hide Turns, WellFormed;
    BeforeIsWellFormed();
    AfterIsWellFormed();
    SecondHalf();
    Letters();
    assert AT25[7][3] != ENDS[7][3];
    GoerFacts(AT25, 7);
    assert Placed(AT25)[7] in Placed(AT25);
    forall d | d in Placed(AT26)
      ensures !Displaced(d, GOALS)
    {
      var k :| 0 <= k < 8 && Placed(AT26)[k] == d;
      assert AT26 == ENDS;
      GoerFacts(AT26, k);
    }
  }

  const TREE := Tree([], Placed(AT0))

  /** Each of the eight folders at its new path, under its own identity. */
  function Asked(): Request {
    Request([], ENDS, seq(8, k requires 0 <= k < 8 => Wish(ENDS[k], Minted(k))), [], {}, map[], map[], 8)
  }

  lemma AskedDestinations()
    ensures Destinations(Asked().wishes, [], TREE.folders) == GOALS
    ensures forall d :: d in TREE.folders ==> d.id in WishIds(Asked().wishes)
  {
    var wishes := Asked().wishes;
    WishedOnly(wishes);
    forall k | 0 <= k < 8
      ensures Minted(k) in WishIds(wishes) && Minted(k) in WishedPaths(wishes) && WishedPaths(wishes)[Minted(k)] == ENDS[k]
    {
      WishedAt(wishes, k);
      assert wishes[k].id == Minted(k);
    }
    assert WishedPaths(wishes).Keys == GOALS.Keys;
    forall d | d in TREE.folders
      ensures d.id in WishIds(wishes)
    {
      var k :| 0 <= k < 8 && TREE.folders[k] == d;
    }
  }

  lemma AskedIsSound()
    ensures DistinctIds(TREE) && Unused(TREE, Asked())
  {
    forall d | d in TREE.folders
      ensures OldPath(d.path, 8)
    {
      var k :| 0 <= k < 8 && TREE.folders[k] == d;
      assert OldPath(AT0[k], 8);
    }
  }

  /** One turn more and every folder would be where it should be; the planner throws instead. */
  method PlannerThrows() returns (r: Result<Batch>)
    ensures WellFormed(AT0) && WellFormed(ENDS)
    ensures Turns(START, GOALS, 26).Ok? && NoneDisplaced(Turns(START, GOALS, 26).value.folders, GOALS)
    ensures r.Thrown?
  {
    hide WellFormed, Turns, NoneDisplaced, Relocated, Destinations, Movable, DistinctIds, Unused, InOrder, NoneReplaced, Fulfilled, Planned, OwnNames;
    TurnsRunOut();
    AskedDestinations();
    AskedIsSound();
    assert Unretired(TREE, Asked());
    ghost var s;
    r, s := BuildOperationBatch(TREE, Asked());
  }
}
