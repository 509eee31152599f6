/**
 The whole file-move loop (plugin/src/operation-plan.ts:36): every pending
 file reaches its entry path, and when paths are pairwise distinct nothing is
 ever in the way and each cycle costs exactly one scratch name.
 */
module FileCycles {
  import opened Wrappers
  import opened Paths
  import opened OperationModel
  import opened PlanWork
  import opened FileMatching
  import opened FileRuns
  import opened FileMoves

  /** Two or more files each standing where the one before it, cyclically, wants to go. */
  ghost predicate IsCycle(at: map<Id, Path>, goal: map<Id, Path>, c: seq<Id>) {
    && |c| >= 2
    && (forall i, j :: 0 <= i < j < |c| ==> c[i] != c[j])
    && (forall i :: 0 <= i < |c| ==> c[i] in at && c[i] in goal)
    && (forall i :: 0 <= i < |c| - 1 ==> at[c[i + 1]] == goal[c[i]])
    && at[c[0]] == goal[c[|c| - 1]]
  }

  /** Exactly one of the files of the cycle is in `temps`. */
  ghost predicate OneOf(c: seq<Id>, temps: set<Id>) {
    exists i :: 0 <= i < |c| && c[i] in temps && forall j :: 0 <= j < |c| && c[j] in temps ==> j == i
  }

  /** Each cycle is still wholly pending, or was opened once and wholly resolved. */
  ghost predicate CyclesKept(at: map<Id, Path>, goal: map<Id, Path>, pending: set<Id>, temps: set<Id>) {
    forall c :: IsCycle(at, goal, c) ==>
      || (forall i :: 0 <= i < |c| ==> c[i] in pending && c[i] !in temps)
      || ((forall i :: 0 <= i < |c| ==> c[i] !in pending) && OneOf(c, temps))
  }

  ghost predicate TempsOnCycles(at: map<Id, Path>, goal: map<Id, Path>, temps: set<Id>) {
    forall id :: id in temps ==> exists c :: IsCycle(at, goal, c) && id in c
  }

  // ---------------------------------------------------------- chains and cycles

  ghost predicate IsChain(at: map<Id, Path>, goal: map<Id, Path>, k: seq<Id>) {
    && (forall i :: 0 <= i < |k| ==> k[i] in at && k[i] in goal)
    && (forall i :: 0 <= i < |k| - 1 ==> at[k[i + 1]] == goal[k[i]])
  }

  lemma NextOnCycle(at: map<Id, Path>, goal: map<Id, Path>, c: seq<Id>, x: Id, y: Id)
    requires IsCycle(at, goal, c) && Injective(at) && x in c && y in at && at[y] == goal[x]
    ensures y in c
  {
    var j :| 0 <= j < |c| && c[j] == x;
    var succ := if j + 1 < |c| then c[j + 1] else c[0];
    assert succ in c && at[succ] == goal[x];
  }

  lemma PreviousOnCycle(at: map<Id, Path>, goal: map<Id, Path>, c: seq<Id>, x: Id, y: Id)
    requires IsCycle(at, goal, c) && Injective(goal) && y in c && x in goal && at[y] == goal[x]
    ensures x in c
  {
    var j :| 0 <= j < |c| && c[j] == y;
    var pred := if j > 0 then c[j - 1] else c[|c| - 1];
    assert pred in c && goal[pred] == at[y];
  }

  /** A chain that meets a cycle lies on it. */
  lemma {:induction false} ChainOnCycle(at: map<Id, Path>, goal: map<Id, Path>, k: seq<Id>, c: seq<Id>, i: nat, j: nat)
    requires IsCycle(at, goal, c) && IsChain(at, goal, k) && Injective(at) && Injective(goal)
    requires i < |k| && j < |k| && k[i] in c
    ensures k[j] in c
    decreases if i < j then j - i else i - j
  {
    if i < j {
      NextOnCycle(at, goal, c, k[i], k[i + 1]);
      ChainOnCycle(at, goal, k, c, i + 1, j);
    } else if j < i {
      PreviousOnCycle(at, goal, c, k[i - 1], k[i]);
      ChainOnCycle(at, goal, k, c, i - 1, j);
    }
  }

  /** The cycle `c` is settled together with `k`, whose first file took the scratch name. */
  lemma CloseMet(at: map<Id, Path>, goal: map<Id, Path>, pending: set<Id>, temps: set<Id>, k: seq<Id>, c: seq<Id>, gone: set<Id>, i: nat)
    requires Injective(at) && Injective(goal) && IsCycle(at, goal, k) && IsCycle(at, goal, c)
    requires CyclesKept(at, goal, pending, temps)
    requires forall id :: id in gone <==> id in k
    requires gone <= pending && i < |k| && k[i] in c
    ensures forall j :: 0 <= j < |c| ==> c[j] !in pending - gone
    ensures OneOf(c, temps + {k[0]})
  {
    SameCycle(at, goal, k, c, i);
    var z :| 0 <= z < |c| && c[z] == k[0];
    assert c[z] in pending;
    var all := temps + {k[0]};
    assert c[z] in all;
    forall j | 0 <= j < |c| && c[j] in all
      ensures j == z
    {
      assert c[j] in pending && c[j] !in temps;
    }
  }

  /** A cycle that `k` does not meet stays as it was. */
  lemma CloseUnmet(at: map<Id, Path>, goal: map<Id, Path>, pending: set<Id>, temps: set<Id>, k: seq<Id>, c: seq<Id>, gone: set<Id>)
    requires IsCycle(at, goal, c) && CyclesKept(at, goal, pending, temps) && k != []
    requires forall id :: id in gone <==> id in k
    requires forall j :: 0 <= j < |k| ==> k[j] !in c
    ensures || (forall i :: 0 <= i < |c| ==> c[i] in pending - gone && c[i] !in temps + {k[0]})
            || ((forall i :: 0 <= i < |c| ==> c[i] !in pending - gone) && OneOf(c, temps + {k[0]}))
  {
    var all := temps + {k[0]};
    assert forall j :: 0 <= j < |c| ==> c[j] !in gone && c[j] != k[0];
    if OneOf(c, temps) {
      var i :| 0 <= i < |c| && c[i] in temps && forall j :: 0 <= j < |c| && c[j] in temps ==> j == i;
      assert c[i] in all && forall j :: 0 <= j < |c| && c[j] in all ==> j == i;
    }
  }

  /** Resolving the cycle `k` with the scratch name on `k[0]` settles it and touches no other cycle. */
  lemma CloseCycle(at: map<Id, Path>, goal: map<Id, Path>, pending: set<Id>, temps: set<Id>, k: seq<Id>, gone: set<Id>)
    requires Injective(at) && Injective(goal) && IsCycle(at, goal, k)
    requires CyclesKept(at, goal, pending, temps)
    requires forall id :: id in gone <==> id in k
    requires gone <= pending
    ensures CyclesKept(at, goal, pending - gone, temps + {k[0]})
    ensures k[0] !in temps
  {
    assert k[0] in pending;
    forall c | IsCycle(at, goal, c)
      ensures || (forall i :: 0 <= i < |c| ==> c[i] in pending - gone && c[i] !in temps + {k[0]})
              || ((forall i :: 0 <= i < |c| ==> c[i] !in pending - gone) && OneOf(c, temps + {k[0]}))
    {
      if exists i :: 0 <= i < |k| && k[i] in c {
        var i :| 0 <= i < |k| && k[i] in c;
        CloseMet(at, goal, pending, temps, k, c, gone, i);
      } else {
        CloseUnmet(at, goal, pending, temps, k, c, gone);
      }
    }
  }

  lemma SameCycle(at: map<Id, Path>, goal: map<Id, Path>, k: seq<Id>, c: seq<Id>, i: nat)
    requires Injective(at) && Injective(goal) && IsCycle(at, goal, k) && IsCycle(at, goal, c)
    requires i < |k| && k[i] in c
    ensures forall j :: 0 <= j < |k| ==> k[j] in c
    ensures forall j :: 0 <= j < |c| ==> c[j] in k
  {
    forall j | 0 <= j < |k|
      ensures k[j] in c
    {
      ChainOnCycle(at, goal, k, c, i, j);
    }
    var z :| 0 <= z < |c| && c[z] == k[i];
    forall j | 0 <= j < |c|
      ensures c[j] in k
    {
      ChainOnCycle(at, goal, c, k, z, j);
    }
  }

  /** Resolving a chain whose end is free touches no cycle. */
  lemma ClosePath(at: map<Id, Path>, goal: map<Id, Path>, pending: set<Id>, temps: set<Id>, k: seq<Id>, gone: set<Id>)
    requires Injective(at) && Injective(goal) && IsChain(at, goal, k) && k != []
    requires CyclesKept(at, goal, pending, temps)
    requires forall id :: id in gone <==> id in k
    requires gone <= pending
    requires forall id :: id in pending && id in at ==> at[id] != goal[k[|k| - 1]]
    ensures CyclesKept(at, goal, pending - gone, temps)
  {
    var last := k[|k| - 1];
    forall c, i | IsCycle(at, goal, c) && 0 <= i < |k|
      ensures k[i] !in c
    {
      if k[i] in c {
        ChainOnCycle(at, goal, k, c, i, |k| - 1);
        var j :| 0 <= j < |c| && c[j] == last;
        SuccessorPending(at, goal, pending, temps, c, j);
      }
    }
  }

  lemma SuccessorPending(at: map<Id, Path>, goal: map<Id, Path>, pending: set<Id>, temps: set<Id>, c: seq<Id>, j: nat)
    requires IsCycle(at, goal, c) && CyclesKept(at, goal, pending, temps) && j < |c| && c[j] in pending
    ensures exists x :: x in pending && x in at && at[x] == goal[c[j]]
  {
    var succ := if j + 1 < |c| then c[j + 1] else c[0];
    assert succ in pending && at[succ] == goal[c[j]];
  }

  // ------------------------------------------------------------------ the loop

  ghost function ChainIds(items: seq<Relocation>): (r: seq<Id>)
    ensures |r| == |items| && forall i :: 0 <= i < |r| ==> r[i] == items[i].id
  {
    seq(|items|, i requires 0 <= i < |items| => items[i].id)
  }

  /** Every move leads from where the file stands to a different place, its goal. */
  ghost predicate Destined(at: map<Id, Path>, goal: map<Id, Path>, moves: seq<Relocation>) {
    && goal.Keys == at.Keys
    && DistinctItems(moves)
    && forall i :: 0 <= i < |moves| ==>
      moves[i].id in at && goal[moves[i].id] == moves[i].to && at[moves[i].id] != moves[i].to
  }

  ghost predicate PendingMoves(moves: seq<Relocation>, pending: map<Id, Relocation>) {
    forall id :: id in pending ==> pending[id].id == id && pending[id] in moves
  }

  /** Pending files stand where they stood, all others stand at their goal. */
  ghost predicate Placed(at: map<Id, Path>, goal: map<Id, Path>, pending: set<Id>, now: map<Id, Path>) {
    && now.Keys == at.Keys && goal.Keys == at.Keys
    && forall id :: id in at ==> now[id] == if id in pending then at[id] else goal[id]
  }

  ghost predicate Distinguished(at: map<Id, Path>, goal: map<Id, Path>) {
    Injective(at) && Injective(goal)
  }

  lemma PendingFacts(at: map<Id, Path>, goal: map<Id, Path>, moves: seq<Relocation>, s: MoveState, id: Id)
    requires Destined(at, goal, moves) && PendingMoves(moves, s.pending) && id in s.pending
    ensures id in at && goal[id] == s.pending[id].to && at[id] != goal[id]
  {
    var i :| 0 <= i < |moves| && s.pending[id] == moves[i];
  }

  lemma NeverWalled(at: map<Id, Path>, goal: map<Id, Path>, now: map<Id, Path>, moves: seq<Relocation>, s: MoveState)
    requires Destined(at, goal, moves) && PendingMoves(moves, s.pending) && Distinguished(at, goal)
    requires Placed(at, goal, s.pending.Keys, now) && Inverse(s.occupied, now)
    ensures !Walled(s)
  {
    forall id | id in s.pending && s.pending[id].to in s.occupied
      ensures s.occupied[s.pending[id].to] in s.pending
    {
      PendingFacts(at, goal, moves, s, id);
      var x := s.occupied[s.pending[id].to];
      assert now[x] == goal[id];
      assert goal[x] == goal[id] ==> x == id;
    }
  }

  /** A walk over pending files is a chain of the initial positions, and a cycle if it repeats. */
  lemma ChainFacts(at: map<Id, Path>, goal: map<Id, Path>, now: map<Id, Path>, moves: seq<Relocation>, s: MoveState, c: Chain)
    requires Destined(at, goal, moves) && PendingMoves(moves, s.pending) && Distinguished(at, goal)
    requires Placed(at, goal, s.pending.Keys, now) && Inverse(s.occupied, now) && ValidChain(s, c)
    ensures var k := ChainIds(c.items);
      && IsChain(at, goal, k)
      && (forall i :: 0 <= i < |k| ==> k[i] in s.pending && goal[k[i]] == c.items[i].to && at[k[i]] == now[k[i]])
      && (c.again.None? ==> c.items[|c.items| - 1].to !in s.occupied)
      && (c.again.Some? ==> c.again.value == k[0] && IsCycle(at, goal, k))
  {
    ChainPlaces(at, goal, now, moves, s, c);
    if c.again.Some? {
      RepeatIsStart(at, goal, now, s, c);
    }
  }

  lemma ChainPlaces(at: map<Id, Path>, goal: map<Id, Path>, now: map<Id, Path>, moves: seq<Relocation>, s: MoveState, c: Chain)
    requires Destined(at, goal, moves) && PendingMoves(moves, s.pending)
    requires Placed(at, goal, s.pending.Keys, now) && Inverse(s.occupied, now) && ValidChain(s, c)
    ensures IsChain(at, goal, ChainIds(c.items))
    ensures forall i :: 0 <= i < |c.items| ==>
      var id := c.items[i].id;
      && id in s.pending && id in at && id in now
      && goal[id] == c.items[i].to && at[id] == now[id] && at[id] != goal[id]
    ensures c.again.None? ==> c.items[|c.items| - 1].to !in s.occupied
  {
    forall i | 0 <= i < |c.items|
      ensures var id := c.items[i].id;
        && id in s.pending && id in at && id in now
        && goal[id] == c.items[i].to && at[id] == now[id] && at[id] != goal[id]
    {
      PendingFacts(at, goal, moves, s, c.items[i].id);
    }
  }

  lemma RepeatIsStart(at: map<Id, Path>, goal: map<Id, Path>, now: map<Id, Path>, s: MoveState, c: Chain)
    requires ValidChain(s, c) && c.again.Some? && Injective(goal) && Inverse(s.occupied, now)
    requires IsChain(at, goal, ChainIds(c.items))
    requires forall i :: 0 <= i < |c.items| ==> c.items[i].id in now && now[c.items[i].id] == at[c.items[i].id]
    requires forall i :: 0 <= i < |c.items| ==> goal[c.items[i].id] == c.items[i].to
    ensures c.again.value == c.items[0].id && IsCycle(at, goal, ChainIds(c.items))
  {
    var k := ChainIds(c.items);
    var n := |k|;
    forall j | 0 < j < n
      ensures at[k[j]] != goal[k[n - 1]]
    {
      var i := j - 1;
      assert at[k[i + 1]] == goal[k[i]];
      assert k[i] != k[n - 1] && goal[k[i]] != goal[k[n - 1]];
    }
    var j :| 0 <= j < n && c.items[j].id == c.again.value;
    assert at[k[j]] == goal[k[n - 1]];
  }
}
