/**
 The loop over the pending moves (plugin/src/operation-plan.ts:36), on top of
 chains and cycles. `at` are the positions before the loop, `goal` those after
 it. Every turn takes the first pending file, follows the files in its way and
 resolves that chain; a chain that comes back to its start is a cycle, and is
 opened with one scratch name first. Two invariants carry the proof: `Looping`,
 which holds for any input, and `Orderly`, which holds besides when positions
 and goals are pairwise distinct.
 */
module FileMoveLoop {
  import opened Wrappers
  import opened Paths
  import opened OperationModel
  import opened PlanWork
  import opened FileMatching
  import opened FileRuns
  import opened FileMoves
  import opened FileCycles

  /** What every turn keeps: `at` are the positions before the loop, `goal` those after it. */
  ghost predicate Looping(t: Tree, w: Work, used: set<Id>, moves: seq<Relocation>, at: map<Id, Path>, goal: map<Id, Path>, s: MoveState) {
    && Settling(t, s.work, used) && Backed(s.work, used, moves)
    && SameRecords(w, s.work)
    && PendingMoves(moves, s.pending)
    && Placed(at, goal, s.pending.Keys, Positions(s.work.files, used))
  }

  /** What every turn keeps besides when positions and goals are pairwise distinct. */
  ghost predicate Orderly(t: Tree, w: Work, used: set<Id>, moves: seq<Relocation>, at: map<Id, Path>, goal: map<Id, Path>, s: MoveState, temps: set<Id>) {
    && Inverse(s.occupied, Positions(s.work.files, used))
    && AlwaysFrom(t, s.work.ops, |w.ops|, Unoccupied)
    && |s.work.ops| + |s.pending| == |w.ops| + |moves| + |temps|
    && CyclesKept(at, goal, s.pending.Keys, temps)
    && TempsOnCycles(at, goal, temps)
  }

  lemma {:induction false} ItemCount(items: seq<Relocation>)
    requires DistinctItems(items)
    ensures |ItemIds(items)| == |items|
  {
    if items == [] {
      assert ItemIds(items) == {};
    } else {
      var rest := items[1..];
      ItemCount(rest);
      assert items == [items[0]] + rest;
      ItemIdsCons(items[0], rest);
      assert items[0].id !in ItemIds(rest) by {
        forall i | 0 <= i < |rest|
          ensures rest[i].id != items[0].id
        {
          assert rest[i] == items[i + 1];
        }
      }
    }
  }

  lemma PendingCount(pending: map<Id, Relocation>, items: seq<Relocation>)
    requires DistinctItems(items) && ItemIds(items) <= pending.Keys
    ensures |pending - ItemIds(items)| == |pending| - |items|
  {
    ItemCount(items);
    var left := pending - ItemIds(items);
    assert left.Keys == pending.Keys - ItemIds(items);
    assert |pending.Keys| == |left.Keys| + |ItemIds(items)|;
  }

  lemma ChainBacked(w: Work, used: set<Id>, moves: seq<Relocation>, s: MoveState, items: seq<Relocation>)
    requires Backed(s.work, used, moves) && PendingMoves(moves, s.pending) && Linked(s, items)
    ensures Backed(s.work, used, items)
    ensures ItemIds(items) <= s.pending.Keys
  {
    forall i | 0 <= i < |items|
      ensures items[i] in moves
    {
      assert s.pending[items[i].id] == items[i];
    }
  }

  /** The uuid source advances. */
  function Draw(w: Work): Work {
    w.(next := w.next + 1)
  }

  lemma DrawSettling(t: Tree, w: Work, used: set<Id>, items: seq<Relocation>)
    requires Settling(t, w, used) && Backed(w, used, items)
    ensures Settling(t, Draw(w), used) && Backed(Draw(w), used, items)
  {
  }

  /** Open a cycle: the repeated file takes a scratch name, at the price of one uuid. */
  function Open(s: MoveState, item: Relocation): MoveState
    requires ById(s.work.files, item.id).Some?
  {
    MoveTo(MoveState(Draw(s.work), s.pending, s.occupied), item, [Scratch(Minted(s.work.next))])
  }

  lemma OpenSettling(t: Tree, s: MoveState, used: set<Id>, item: Relocation, moves: seq<Relocation>)
    requires Settling(t, s.work, used) && Backed(s.work, used, moves) && item in moves
    ensures ById(s.work.files, item.id).Some?
    ensures var r := Open(s, item);
      && Settling(t, r.work, used) && Backed(r.work, used, moves)
      && Positions(r.work.files, used) == Positions(s.work.files, used)[item.id := [Scratch(Minted(s.work.next))]]
      && r.pending == s.pending
  {
    var i :| 0 <= i < |moves| && moves[i] == item;
    assert Backed(s.work, used, [item]);
    DrawSettling(t, s.work, used, moves);
    DrawSettling(t, s.work, used, [item]);
    var to := [Scratch(Minted(s.work.next))];
    assert OldPath(to, s.work.next + 2);
    MoveToSettling(t, MoveState(Draw(s.work), s.pending, s.occupied), used, item, to, moves);
  }

  lemma OpenRecords(w: Work, s: MoveState, item: Relocation)
    requires SameRecords(w, s.work) && ById(s.work.files, item.id).Some?
    ensures SameRecords(w, Open(s, item).work)
  {
    NoneDrawn(s.work, Draw(s.work));
    DrawnTransitive(w, s.work, Draw(s.work));
    assert SameRecords(w, Draw(s.work));
    SameRecordsMove(w, Draw(s.work), item.id, item.revision, [Scratch(Minted(s.work.next))]);
  }

  lemma ScratchFree(t: Tree, s: MoveState, used: set<Id>)
    requires Settling(t, s.work, used) && Inverse(s.occupied, Positions(s.work.files, used))
    ensures [Scratch(Minted(s.work.next))] !in s.occupied
  {
    var scratch := [Scratch(Minted(s.work.next))];
    forall p | p in s.occupied
      ensures OldPath(p, s.work.next)
    {
      var f := ById(s.work.files, s.occupied[p]).value;
      assert f in s.work.files && f.path == p;
    }
    assert scratch[0].Scratch? && !OldPath(scratch, s.work.next);
  }

  lemma OpenInverse(t: Tree, s: MoveState, used: set<Id>, item: Relocation)
    requires Settling(t, s.work, used) && Inverse(s.occupied, Positions(s.work.files, used))
    requires item.id in Positions(s.work.files, used)
    ensures var here, r := Positions(s.work.files, used), Open(s, item);
      && Inverse(r.occupied, here[item.id := [Scratch(Minted(s.work.next))]])
      && r.occupied == (s.occupied - {here[item.id]})[[Scratch(Minted(s.work.next))] := item.id]
  {
    ScratchFree(t, s, used);
    MoveInverse(s.occupied, Positions(s.work.files, used), item.id, [Scratch(Minted(s.work.next))]);
  }

  lemma OpenUnoccupied(t: Tree, s: MoveState, used: set<Id>, item: Relocation, n: nat)
    requires Settling(t, s.work, used) && Inverse(s.occupied, Positions(s.work.files, used))
    requires ById(s.work.files, item.id).Some? && n <= |s.work.ops| && AlwaysFrom(t, s.work.ops, n, Unoccupied)
    ensures var r := Open(s, item);
      && |r.work.ops| == |s.work.ops| + 1
      && AlwaysFrom(t, r.work.ops, n, Unoccupied)
  {
    hide Proper, OldPaths, DistinctIds, Lawful, Sheltered;
    var to := [Scratch(Minted(s.work.next))];
    var drawn := MoveState(Draw(s.work), s.pending, s.occupied);
    ScratchFree(t, s, used);
    DrawSettling(t, s.work, used, []);
    MoveToUnoccupied(t, drawn, used, item, to);
    AlwaysFromStep(t, s.work.ops, n, Move(Minted(s.work.next + 1), item.id, item.revision, to), Unoccupied);
  }

  // --------------------------------------------------- the free end of a chain

  lemma PathFreeable(at: map<Id, Path>, goal: map<Id, Path>, moves: seq<Relocation>, s: MoveState, used: set<Id>, c: Chain)
    requires Destined(at, goal, moves) && PendingMoves(moves, s.pending) && Distinguished(at, goal)
    requires Placed(at, goal, s.pending.Keys, Positions(s.work.files, used))
    requires Inverse(s.occupied, Positions(s.work.files, used)) && ValidChain(s, c) && c.again.None?
    ensures Freeable(s, used, c.items)
  {
    var now := Positions(s.work.files, used);
    ChainFacts(at, goal, now, moves, s, c);
    GoalsDistinct(at, goal, moves, s, c.items);
  }

  lemma GoalsDistinct(at: map<Id, Path>, goal: map<Id, Path>, moves: seq<Relocation>, s: MoveState, items: seq<Relocation>)
    requires Destined(at, goal, moves) && PendingMoves(moves, s.pending) && Injective(goal) && Linked(s, items)
    ensures forall i, j :: 0 <= i < j < |items| ==> items[i].to != items[j].to
  {
    forall i, j | 0 <= i < j < |items|
      ensures items[i].to != items[j].to
    {
      PendingFacts(at, goal, moves, s, items[i].id);
      PendingFacts(at, goal, moves, s, items[j].id);
      assert goal[items[i].id] != goal[items[j].id];
    }
  }

  lemma CycleFreeable(at: map<Id, Path>, goal: map<Id, Path>, moves: seq<Relocation>, s: MoveState, used: set<Id>, c: Chain, r: MoveState, scratch: Path)
    requires Destined(at, goal, moves) && PendingMoves(moves, s.pending) && Distinguished(at, goal)
    requires Placed(at, goal, s.pending.Keys, Positions(s.work.files, used))
    requires Inverse(s.occupied, Positions(s.work.files, used)) && ValidChain(s, c) && c.again.Some?
    requires scratch !in s.occupied && c.items[0].id in Positions(s.work.files, used)
    requires var here := Positions(s.work.files, used);
      && Positions(r.work.files, used) == here[c.items[0].id := scratch]
      && r.occupied == (s.occupied - {here[c.items[0].id]})[scratch := c.items[0].id]
      && Inverse(r.occupied, Positions(r.work.files, used))
    ensures Freeable(r, used, c.items)
  {
    hide Positions, Destined, PendingMoves, Distinguished, Placed, Inverse, ValidChain, IsChain, IsCycle;
    var now := Positions(s.work.files, used);
    ChainFacts(at, goal, now, moves, s, c);
    ChainInPlace(at, goal, now, moves, s, c);
    GoalsDistinct(at, goal, moves, s, c.items);
    CycleLinks(s, now, c, Positions(r.work.files, used), scratch);
  }

  lemma ChainInPlace(at: map<Id, Path>, goal: map<Id, Path>, now: map<Id, Path>, moves: seq<Relocation>, s: MoveState, c: Chain)
    requires Destined(at, goal, moves) && PendingMoves(moves, s.pending) && Placed(at, goal, s.pending.Keys, now)
    requires ValidChain(s, c) && Distinguished(at, goal)
    ensures c.items != [] && Linked(s, c.items) && Injective(goal)
    ensures forall i :: 0 <= i < |c.items| ==> c.items[i].id in now
  {
    forall i | 0 <= i < |c.items|
      ensures c.items[i].id in now
    {
      PendingFacts(at, goal, moves, s, c.items[i].id);
    }
  }

  lemma CycleLinks(s: MoveState, now: map<Id, Path>, c: Chain, after: map<Id, Path>, scratch: Path)
    requires ValidChain(s, c) && Inverse(s.occupied, now) && c.again == Some(c.items[0].id) && scratch !in s.occupied
    requires forall i :: 0 <= i < |c.items| ==> c.items[i].id in now
    requires after == now[c.items[0].id := scratch]
    ensures forall i :: 0 <= i < |c.items| ==> c.items[i].id in after
    ensures forall i :: 0 <= i < |c.items| - 1 ==> after[c.items[i + 1].id] == c.items[i].to
    ensures c.items[|c.items| - 1].to !in (s.occupied - {now[c.items[0].id]})[scratch := c.items[0].id]
  {
    assert now[c.items[0].id] == c.items[|c.items| - 1].to;
  }

  // ------------------------------------------------------------------- a turn

  /** Nothing but the items of the chain has moved. */
  ghost predicate OnlyMoved(now: map<Id, Path>, items: seq<Relocation>, ajar: map<Id, Path>) {
    ajar.Keys == now.Keys && forall id :: id in now && id !in ItemIds(items) ==> ajar[id] == now[id]
  }

  lemma TurnPlaced(at: map<Id, Path>, goal: map<Id, Path>, moves: seq<Relocation>, s: MoveState, now: map<Id, Path>, items: seq<Relocation>, ajar: map<Id, Path>, after: map<Id, Path>)
    requires Destined(at, goal, moves) && PendingMoves(moves, s.pending) && Placed(at, goal, s.pending.Keys, now)
    requires Linked(s, items) && ItemIds(items) <= s.pending.Keys
    requires OnlyMoved(now, items, ajar)
    requires after == Landed(ajar, items)
    ensures Placed(at, goal, (s.pending - ItemIds(items)).Keys, after)
  {
    LandedAt(ajar, items);
    forall i | 0 <= i < |items|
      ensures items[i].id in at && goal[items[i].id] == items[i].to
    {
      PendingFacts(at, goal, moves, s, items[i].id);
    }
    assert ajar.Keys == at.Keys;
    assert after.Keys == at.Keys;
    forall id | id in at
      ensures after[id] == if id in s.pending - ItemIds(items) then at[id] else goal[id]
    {
      if id in ItemIds(items) {
        var i :| 0 <= i < |items| && items[i].id == id;
      } else {
        assert after[id] == ajar[id] == now[id];
      }
    }
  }

  lemma SameRecordsTransitive(a: Work, b: Work, c: Work)
    requires SameRecords(a, b) && SameRecords(b, c)
    ensures SameRecords(a, c)
  {
    DrawnTransitive(a, b, c);
    hide Drawn;
    assert c.ops[..|a.ops|] == c.ops[..|b.ops|][..|a.ops|];
    forall k | |a.ops| <= k < |c.ops|
      ensures c.ops[k].Move?
    {
      if k < |b.ops| {
        assert c.ops[k] == c.ops[..|b.ops|][k];
      }
    }
  }

  lemma AlwaysFromJoin(t: Tree, a: seq<Op>, c: seq<Op>, n: nat, p: (Tree, Op) -> bool)
    requires AlwaysFrom(t, a, n, p) && |a| <= |c| && c[..|a|] == a && AlwaysFrom(t, c, |a|, p)
    ensures AlwaysFrom(t, c, n, p)
  {
    forall k | n <= k < |c|
      ensures p(Run(t, c[..k]), c[k])
    {
      if k < |a| {
        assert c[..k] == a[..k] && c[k] == a[k];
      }
    }
  }

  /** The state after a chain with a free end was resolved. */
  lemma PathOrderly(t: Tree, w: Work, used: set<Id>, moves: seq<Relocation>, at: map<Id, Path>, goal: map<Id, Path>,
                    s: MoveState, temps: set<Id>, c: Chain, r: MoveState)
    requires Destined(at, goal, moves) && Distinguished(at, goal)
    requires Looping(t, w, used, moves, at, goal, s) && Orderly(t, w, used, moves, at, goal, s, temps)
    requires ValidChain(s, c) && c.again.None? && ItemIds(c.items) <= s.pending.Keys
    requires Midway(t, s, used, c.items, 0, r) && MidwayFree(t, s, used, c.items, 0, r)
    ensures Orderly(t, w, used, moves, at, goal, r, temps)
  {
    ResolvedFacts(t, s, used, c.items, r);
    AlwaysFromJoin(t, s.work.ops, r.work.ops, |w.ops|, Unoccupied);
    PathSpent(at, goal, moves, s, Positions(s.work.files, used), temps, c);
    PendingCount(s.pending, c.items);
    assert r.pending.Keys == s.pending.Keys - ItemIds(c.items);
  }

  lemma PathSpent(at: map<Id, Path>, goal: map<Id, Path>, moves: seq<Relocation>, s: MoveState, now: map<Id, Path>, temps: set<Id>, c: Chain)
    requires Destined(at, goal, moves) && PendingMoves(moves, s.pending) && Distinguished(at, goal)
    requires Placed(at, goal, s.pending.Keys, now) && Inverse(s.occupied, now) && ValidChain(s, c) && c.again.None?
    requires ItemIds(c.items) <= s.pending.Keys && CyclesKept(at, goal, s.pending.Keys, temps)
    ensures CyclesKept(at, goal, s.pending.Keys - ItemIds(c.items), temps)
  {
    ChainFacts(at, goal, now, moves, s, c);
    ChainIdSet(c.items);
    var free := c.items[|c.items| - 1].to;
    forall id | id in s.pending && id in at
      ensures at[id] != free
    {
      assert now[id] == at[id];
    }
    ClosePath(at, goal, s.pending.Keys, temps, ChainIds(c.items), ItemIds(c.items));
  }

  lemma ChainIdSet(items: seq<Relocation>)
    ensures forall id :: id in ItemIds(items) <==> id in ChainIds(items)
  {
    forall id | id in ItemIds(items)
      ensures id in ChainIds(items)
    {
      var i :| 0 <= i < |items| && items[i].id == id;
      assert ChainIds(items)[i] == id;
    }
  }

  /** The state after a cycle was opened and resolved: one more scratch name was spent. */
  lemma CycleOrderly(t: Tree, w: Work, used: set<Id>, moves: seq<Relocation>, at: map<Id, Path>, goal: map<Id, Path>,
                     s: MoveState, temps: set<Id>, c: Chain, ajar: MoveState, r: MoveState)
    requires Destined(at, goal, moves) && Distinguished(at, goal)
    requires Looping(t, w, used, moves, at, goal, s) && Orderly(t, w, used, moves, at, goal, s, temps)
    requires ValidChain(s, c) && c.again.Some? && ItemIds(c.items) <= s.pending.Keys
    requires ajar.pending == s.pending && |ajar.work.ops| == |s.work.ops| + 1
    requires |w.ops| <= |ajar.work.ops| && AlwaysFrom(t, ajar.work.ops, |w.ops|, Unoccupied)
    requires Midway(t, ajar, used, c.items, 0, r) && MidwayFree(t, ajar, used, c.items, 0, r)
    ensures Orderly(t, w, used, moves, at, goal, r, temps + {c.items[0].id})
  {
    CycleSpent(at, goal, moves, s, Positions(s.work.files, used), temps, c);
    ResolvedFacts(t, ajar, used, c.items, r);
    AlwaysFromJoin(t, ajar.work.ops, r.work.ops, |w.ops|, Unoccupied);
    SpentOrderly(t, w, used, moves, at, goal, s, temps, c.items, r);
  }

  lemma ResolvedFacts(t: Tree, s: MoveState, used: set<Id>, items: seq<Relocation>, r: MoveState)
    requires Midway(t, s, used, items, 0, r) && MidwayFree(t, s, used, items, 0, r)
    ensures r.pending == s.pending - ItemIds(items)
    ensures |r.work.ops| == |s.work.ops| + |items| && r.work.ops[..|s.work.ops|] == s.work.ops
    ensures Inverse(r.occupied, Positions(r.work.files, used))
    ensures AlwaysFrom(t, r.work.ops, |s.work.ops|, Unoccupied)
  {
    assert items[0..] == items;
  }

  lemma SpentOrderly(t: Tree, w: Work, used: set<Id>, moves: seq<Relocation>, at: map<Id, Path>, goal: map<Id, Path>,
                     s: MoveState, temps: set<Id>, items: seq<Relocation>, r: MoveState)
    requires items != [] && DistinctItems(items) && ItemIds(items) <= s.pending.Keys && items[0].id !in temps
    requires |s.work.ops| + |s.pending| == |w.ops| + |moves| + |temps|
    requires r.pending == s.pending - ItemIds(items) && |r.work.ops| == |s.work.ops| + 1 + |items|
    requires Inverse(r.occupied, Positions(r.work.files, used)) && AlwaysFrom(t, r.work.ops, |w.ops|, Unoccupied)
    requires CyclesKept(at, goal, s.pending.Keys - ItemIds(items), temps + {items[0].id})
    requires TempsOnCycles(at, goal, temps + {items[0].id})
    ensures Orderly(t, w, used, moves, at, goal, r, temps + {items[0].id})
  {
    hide CyclesKept, TempsOnCycles, AlwaysFrom, Inverse;
    PendingCount(s.pending, items);
    assert r.pending.Keys == s.pending.Keys - ItemIds(items);
  }

  lemma CycleSpent(at: map<Id, Path>, goal: map<Id, Path>, moves: seq<Relocation>, s: MoveState, now: map<Id, Path>, temps: set<Id>, c: Chain)
    requires Destined(at, goal, moves) && PendingMoves(moves, s.pending) && Distinguished(at, goal)
    requires Placed(at, goal, s.pending.Keys, now) && Inverse(s.occupied, now) && ValidChain(s, c) && c.again.Some?
    requires ItemIds(c.items) <= s.pending.Keys
    requires CyclesKept(at, goal, s.pending.Keys, temps) && TempsOnCycles(at, goal, temps)
    ensures var first := c.items[0].id;
      && CyclesKept(at, goal, s.pending.Keys - ItemIds(c.items), temps + {first})
      && TempsOnCycles(at, goal, temps + {first})
      && first !in temps
  {
    var k := ChainIds(c.items);
    ChainFacts(at, goal, now, moves, s, c);
    ChainIdSet(c.items);
    CloseCycle(at, goal, s.pending.Keys, temps, k, ItemIds(c.items));
    assert k[0] in k && k[0] == c.items[0].id;
  }

  /** One turn: follow the chain from `start`, open it if it is a cycle, resolve it. */
  method Turn(ghost t: Tree, ghost w: Work, ghost used: set<Id>, ghost moves: seq<Relocation>,
              ghost at: map<Id, Path>, ghost goal: map<Id, Path>, s: MoveState, start: Id, ghost temps: set<Id>)
    returns (r: Result<MoveState>, ghost spent: set<Id>)
    requires Destined(at, goal, moves) && Looping(t, w, used, moves, at, goal, s) && start in s.pending
    ensures r.Ok? ==> Looping(t, w, used, moves, at, goal, r.value)
    ensures r.Ok? ==> r.value.pending.Keys <= s.pending.Keys - {start}
    ensures Distinguished(at, goal) && Orderly(t, w, used, moves, at, goal, s, temps) ==>
      r.Ok? && Orderly(t, w, used, moves, at, goal, r.value, spent)
  {
    spent := temps;
    ghost var orderly := Distinguished(at, goal) && Orderly(t, w, used, moves, at, goal, s, temps);
    ghost var now := Positions(s.work.files, used);
    var walk := FollowChain(s, start);
    if orderly {
      NeverWalled(at, goal, now, moves, s);
    }
    if walk.Thrown? {
      return Thrown(walk.reason), spent;
    }
    var chain := walk.value;
    ChainBacked(w, used, moves, s, chain.items);
    if chain.again.None? {
      r := ResolvePath(t, w, used, moves, at, goal, s, chain);
      if orderly {
        PathFreeable(at, goal, moves, s, used, chain);
        PathOrderly(t, w, used, moves, at, goal, s, temps, chain, r.value);
      }
    } else {
      r, spent := ResolveCycle(t, w, used, moves, at, goal, s, chain, temps);
    }
  }

  method ResolvePath(ghost t: Tree, ghost w: Work, ghost used: set<Id>, ghost moves: seq<Relocation>,
                     ghost at: map<Id, Path>, ghost goal: map<Id, Path>, s: MoveState, chain: Chain)
    returns (r: Result<MoveState>)
    requires Destined(at, goal, moves) && Looping(t, w, used, moves, at, goal, s)
    requires ValidChain(s, chain) && ItemIds(chain.items) <= s.pending.Keys
    ensures r.Ok? ==> Looping(t, w, used, moves, at, goal, r.value) && Midway(t, s, used, chain.items, 0, r.value)
    ensures r.Ok? ==> r.value.pending.Keys <= s.pending.Keys - {chain.items[0].id}
    ensures Freeable(s, used, chain.items) ==> r.Ok? && MidwayFree(t, s, used, chain.items, 0, r.value)
  {
    BackedItems(s.work, used, moves, s, chain.items);
    r := Resolve(t, s, used, chain.items);
    if r.Ok? {
      AfterResolve(t, w, used, moves, at, goal, s, Positions(s.work.files, used), chain.items, s, r.value);
    }
  }

  /** From a resolved chain back to what every turn keeps. */
  lemma AfterResolve(t: Tree, w: Work, used: set<Id>, moves: seq<Relocation>, at: map<Id, Path>, goal: map<Id, Path>,
                     s: MoveState, now: map<Id, Path>, items: seq<Relocation>, ajar: MoveState, r: MoveState)
    requires Destined(at, goal, moves) && Looping(t, w, used, moves, at, goal, s) && now == Positions(s.work.files, used)
    requires items != [] && Linked(s, items) && ItemIds(items) <= s.pending.Keys
    requires ajar.pending == s.pending && SameRecords(w, ajar.work) && Backed(ajar.work, used, moves)
    requires OnlyMoved(now, items, Positions(ajar.work.files, used))
    requires Midway(t, ajar, used, items, 0, r)
    ensures Looping(t, w, used, moves, at, goal, r)
    ensures r.pending.Keys <= s.pending.Keys - {items[0].id}
  {
    hide Settling, Backed, SameRecords, Positions, Placed, OnlyMoved, Destined;
    assert items[0..] == items;
    PendingShrinks(moves, s.pending, items);
    TurnPlaced(at, goal, moves, s, now, items, Positions(ajar.work.files, used), Positions(r.work.files, used));
    SameRecordsTransitive(w, ajar.work, r.work);
    StillBacked(ajar.work, r.work, used, moves);
  }

  lemma PendingShrinks(moves: seq<Relocation>, pending: map<Id, Relocation>, items: seq<Relocation>)
    requires PendingMoves(moves, pending) && items != []
    ensures PendingMoves(moves, pending - ItemIds(items))
    ensures (pending - ItemIds(items)).Keys <= pending.Keys - {items[0].id}
  {
    assert items[0].id in ItemIds(items);
  }

  lemma {:induction false} ByIdSameRecords(a: seq<File>, b: seq<File>, id: Id)
    requires |a| == |b| && forall i :: 0 <= i < |a| ==> b[i] == a[i].(path := b[i].path)
    ensures ById(a, id).Some? == ById(b, id).Some?
    ensures ById(a, id).Some? ==> ById(a, id).value.revision == ById(b, id).value.revision
  {
    if a != [] {
      ByIdSameRecords(a[..|a| - 1], b[..|a| - 1], id);
    }
  }

  lemma StillBacked(a: Work, b: Work, used: set<Id>, moves: seq<Relocation>)
    requires Backed(a, used, moves) && SameRecords(a, b)
    ensures Backed(b, used, moves)
  {
    forall i | 0 <= i < |moves|
      ensures ById(b.files, moves[i].id).Some? && ById(b.files, moves[i].id).value.revision == Some(moves[i].revision)
    {
      ByIdSameRecords(a.files, b.files, moves[i].id);
    }
  }

  method ResolveCycle(ghost t: Tree, ghost w: Work, ghost used: set<Id>, ghost moves: seq<Relocation>,
                      ghost at: map<Id, Path>, ghost goal: map<Id, Path>, s: MoveState, chain: Chain, ghost temps: set<Id>)
    returns (r: Result<MoveState>, ghost spent: set<Id>)
    requires Destined(at, goal, moves) && Looping(t, w, used, moves, at, goal, s)
    requires ValidChain(s, chain) && chain.again.Some? && ItemIds(chain.items) <= s.pending.Keys
    ensures r.Ok? ==> Looping(t, w, used, moves, at, goal, r.value)
    ensures r.Ok? ==> r.value.pending.Keys <= s.pending.Keys - {chain.items[0].id}
    ensures Distinguished(at, goal) && Orderly(t, w, used, moves, at, goal, s, temps) ==>
      r.Ok? && Orderly(t, w, used, moves, at, goal, r.value, spent)
  {
    hide Settling, SameRecords, AlwaysFrom, CyclesKept, TempsOnCycles, Freeable, Inverse, Midway, MidwayFree, Destined, Distinguished, Placed;
    spent := temps + {chain.items[0].id};
    var item := s.pending[chain.again.value];
    assert item in moves by {
      assert chain.again.value in s.pending;
    }
    OpenSettling(t, s, used, item, moves);
    var ajar := Open(s, item);
    OpenStep(t, w, used, moves, at, goal, s, chain);
    r := Resolve(t, ajar, used, chain.items);
    if r.Ok? {
      AfterResolve(t, w, used, moves, at, goal, s, Positions(s.work.files, used), chain.items, ajar, r.value);
    }
    if Distinguished(at, goal) && Orderly(t, w, used, moves, at, goal, s, temps) {
      OpenOrderly(t, w, used, moves, at, goal, s, temps, chain);
      CycleOrderly(t, w, used, moves, at, goal, s, temps, chain, ajar, r.value);
    }
  }

  /** Opening a cycle moves one file of the chain and nothing else. */
  lemma OpenStep(t: Tree, w: Work, used: set<Id>, moves: seq<Relocation>, at: map<Id, Path>, goal: map<Id, Path>, s: MoveState, c: Chain)
    requires Destined(at, goal, moves) && Looping(t, w, used, moves, at, goal, s) && ValidChain(s, c) && c.again.Some?
    ensures c.again.value in s.pending && ById(s.work.files, s.pending[c.again.value].id).Some?
    ensures var ajar := Open(s, s.pending[c.again.value]);
      && SameRecords(w, ajar.work)
      && Backed(ajar.work, used, c.items)
      && OnlyMoved(Positions(s.work.files, used), c.items, Positions(ajar.work.files, used))
  {
    hide Settling, Destined, Placed, SameRecords, OnlyMoved;
    var j :| 0 <= j < |c.items| && c.items[j].id == c.again.value;
    var item := s.pending[c.again.value];
    assert item == c.items[j] && item in moves;
    OpenSettling(t, s, used, item, moves);
    OpenRecords(w, s, item);
    BackedItems(Open(s, item).work, used, moves, s, c.items);
    OneMoved(Positions(s.work.files, used), c.items, j, [Scratch(Minted(s.work.next))]);
  }

  lemma OneMoved(now: map<Id, Path>, items: seq<Relocation>, j: nat, p: Path)
    requires j < |items| && items[j].id in now
    ensures OnlyMoved(now, items, now[items[j].id := p])
  {
    assert items[j].id in ItemIds(items);
  }

  /** The opened cycle is free at its end. */
  lemma OpenOrderly(t: Tree, w: Work, used: set<Id>, moves: seq<Relocation>, at: map<Id, Path>, goal: map<Id, Path>, s: MoveState, temps: set<Id>, c: Chain)
    requires Destined(at, goal, moves) && Looping(t, w, used, moves, at, goal, s) && ValidChain(s, c) && c.again.Some?
    requires Distinguished(at, goal) && Orderly(t, w, used, moves, at, goal, s, temps)
    ensures c.again.value in s.pending && ById(s.work.files, s.pending[c.again.value].id).Some?
    ensures var ajar := Open(s, s.pending[c.again.value]);
      && Freeable(ajar, used, c.items)
      && |w.ops| <= |ajar.work.ops| == |s.work.ops| + 1
      && AlwaysFrom(t, ajar.work.ops, |w.ops|, Unoccupied)
  {
    var now := Positions(s.work.files, used);
    ChainFacts(at, goal, now, moves, s, c);
    var item := s.pending[c.again.value];
    assert item == c.items[0] && item in moves;
    OpenSettling(t, s, used, item, moves);
    OpenInverse(t, s, used, item);
    OpenUnoccupied(t, s, used, item, |w.ops|);
    ScratchFree(t, s, used);
    CycleFreeable(at, goal, moves, s, used, c, Open(s, item), [Scratch(Minted(s.work.next))]);
  }

  lemma BackedItems(w: Work, used: set<Id>, moves: seq<Relocation>, s: MoveState, items: seq<Relocation>)
    requires Backed(w, used, moves) && PendingMoves(moves, s.pending) && Linked(s, items)
    ensures Backed(w, used, items)
  {
    forall i | 0 <= i < |items|
      ensures items[i] in moves
    {
      assert s.pending[items[i].id] == items[i];
    }
  }

  // ------------------------------------------------------------------ all moves

  function PendingMap(moves: seq<Relocation>): (pending: map<Id, Relocation>)
    requires DistinctItems(moves)
    ensures forall id :: id in pending ==> pending[id].id == id && pending[id] in moves
    ensures forall m :: m in moves ==> m.id in pending
  {
    map m | m in moves :: m.id := m
  }

  lemma PendingMapKeys(moves: seq<Relocation>)
    requires DistinctItems(moves)
    ensures PendingMap(moves).Keys == ItemIds(moves)
    ensures |PendingMap(moves)| == |moves|
  {
    var pending := PendingMap(moves);
    forall id | id in ItemIds(moves)
      ensures id in pending
    {
      var i :| 0 <= i < |moves| && moves[i].id == id;
      assert moves[i] in moves;
    }
    assert pending.Keys == ItemIds(moves);
    ItemCount(moves);
    assert |pending| == |pending.Keys|;
  }

  lemma GoalFacts(at: map<Id, Path>, moves: seq<Relocation>)
    requires DistinctItems(moves) && forall i :: 0 <= i < |moves| ==> moves[i].id in at && at[moves[i].id] != moves[i].to
    ensures Destined(at, Landed(at, moves), moves)
    ensures forall id :: id in at && id !in ItemIds(moves) ==> Landed(at, moves)[id] == at[id]
  {
    LandedAt(at, moves);
    assert ItemIds(moves) <= at.Keys;
  }

  lemma CyclesPending(at: map<Id, Path>, goal: map<Id, Path>, pending: set<Id>)
    requires Injective(at) && goal.Keys == at.Keys
    requires forall id :: id in at && goal[id] != at[id] ==> id in pending
    ensures CyclesKept(at, goal, pending, {})
  {
    forall c, i | IsCycle(at, goal, c) && 0 <= i < |c|
      ensures c[i] in pending
    {
      var succ := if i + 1 < |c| then c[i + 1] else c[0];
      assert goal[c[i]] == at[succ] && succ != c[i];
    }
  }

  lemma StartLooping(t: Tree, w: Work, used: set<Id>, moves: seq<Relocation>)
    requires Settling(t, w, used) && Backed(w, used, moves)
    requires Destined(Positions(w.files, used), Landed(Positions(w.files, used), moves), moves)
    ensures var at := Positions(w.files, used);
      Looping(t, w, used, moves, at, Landed(at, moves), MoveState(w, PendingMap(moves), OccupiedBy(w.files, used)))
  {
    hide Settling, Backed, Landed, Positions, Drawn;
    NoneDrawn(w, w);
    PendingMapKeys(moves);
    StartPlaced(Positions(w.files, used), moves);
  }

  lemma StartPlaced(at: map<Id, Path>, moves: seq<Relocation>)
    requires Destined(at, Landed(at, moves), moves)
    ensures Placed(at, Landed(at, moves), ItemIds(moves), at)
  {
    LandedAt(at, moves);
  }

  lemma StartOrderly(t: Tree, w: Work, used: set<Id>, moves: seq<Relocation>)
    requires Settling(t, w, used)
    requires Destined(Positions(w.files, used), Landed(Positions(w.files, used), moves), moves)
    requires Distinguished(Positions(w.files, used), Landed(Positions(w.files, used), moves))
    ensures var at := Positions(w.files, used);
      Orderly(t, w, used, moves, at, Landed(at, moves), MoveState(w, PendingMap(moves), OccupiedBy(w.files, used)), {})
  {
    hide Positions, Landed, OccupiedBy, CyclesKept, Inverse, Injective, OldPaths, Proper, Run;
    var at := Positions(w.files, used);
    OccupiedInverse(w.files, used);
    PendingMapKeys(moves);
    LandedAt(at, moves);
    CyclesPending(at, Landed(at, moves), PendingMap(moves).Keys);
  }

  /** Nothing pending: every claimed file stands at its goal. */
  lemma AllLanded(at: map<Id, Path>, goal: map<Id, Path>, now: map<Id, Path>)
    requires Placed(at, goal, {}, now)
    ensures now == goal
  {
  }

  /** What the loop promises when the paths before and after it are pairwise distinct. */
  ghost predicate Unobstructed(t: Tree, w: Work, after: Work, moves: seq<Relocation>, at: map<Id, Path>, goal: map<Id, Path>, temps: set<Id>) {
    && AlwaysFrom(t, after.ops, |w.ops|, Unoccupied)
    && |after.ops| == |w.ops| + |moves| + |temps|
    && (forall c :: IsCycle(at, goal, c) ==> OneOf(c, temps))
    && TempsOnCycles(at, goal, temps)
  }

  /** The file-move loop as a whole. `temps` are the files that took a scratch name. */
  method MoveAll(ghost t: Tree, w: Work, used: set<Id>, moves: seq<Relocation>) returns (r: Result<Work>, ghost temps: set<Id>)
    requires Settling(t, w, used) && Backed(w, used, moves) && DistinctItems(moves)
    requires Destined(Positions(w.files, used), Landed(Positions(w.files, used), moves), moves)
    ensures r.Ok? ==> Settling(t, r.value, used) && SameRecords(w, r.value)
    ensures r.Ok? ==> Positions(r.value.files, used) == Landed(Positions(w.files, used), moves)
    ensures var at := Positions(w.files, used); var goal := Landed(at, moves);
      Distinguished(at, goal) ==> r.Ok? && Unobstructed(t, w, r.value, moves, at, goal, temps)
  {
    hide Settling, Backed, Positions, Landed, AlwaysFrom, Destined, SameRecords, Distinguished;
    ghost var at := Positions(w.files, used);
    ghost var goal := Landed(at, moves);
    ghost var distinct := Distinguished(at, goal);
    var s := MoveState(w, PendingMap(moves), OccupiedBy(w.files, used));
    temps := {};
    StartLooping(t, w, used, moves);
    if distinct {
      StartOrderly(t, w, used, moves);
    }
    for i := 0 to |moves|
      invariant Looping(t, w, used, moves, at, goal, s)
      invariant forall k :: 0 <= k < i ==> moves[k].id !in s.pending
      invariant distinct ==> Orderly(t, w, used, moves, at, goal, s, temps)
    {
      if moves[i].id in s.pending {
        var turned, spent := Turn(t, w, used, moves, at, goal, s, moves[i].id, temps);
        if turned.Thrown? {
          return Thrown(turned.reason), temps;
        }
        s, temps := turned.value, spent;
      }
    }
    NothingPending(moves, s.pending);
    AllLanded(at, goal, Positions(s.work.files, used));
    if distinct {
      EndOrderly(t, w, used, moves, at, goal, s, temps);
    }
    return Ok(s.work), temps;
  }

  lemma NothingPending(moves: seq<Relocation>, pending: map<Id, Relocation>)
    requires PendingMoves(moves, pending) && forall k :: 0 <= k < |moves| ==> moves[k].id !in pending
    ensures pending.Keys == {} && |pending| == 0
  {
    assert forall m :: m in moves ==> m.id !in pending;
    assert pending == map[];
  }

  lemma EndOrderly(t: Tree, w: Work, used: set<Id>, moves: seq<Relocation>, at: map<Id, Path>, goal: map<Id, Path>, s: MoveState, temps: set<Id>)
    requires Orderly(t, w, used, moves, at, goal, s, temps) && s.pending.Keys == {} && |s.pending| == 0
    ensures Unobstructed(t, w, s.work, moves, at, goal, temps)
  {
    forall c | IsCycle(at, goal, c)
      ensures OneOf(c, temps)
    {
      assert c[0] !in s.pending.Keys;
    }
  }
}
