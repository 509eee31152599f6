/**
 The account kept for whoever writes a file that the engine also moves and
 replaces.
 */
module Ledger {
  import opened Wrappers
  import opened Environment

  /**
   `live` is what stands at the path, `saved` what has been moved out of the
   editor's reach. `owed` are his bytes that he has not overwritten or deleted
   himself, `taken` what he did away with, by the instant; `adopted` are bytes of
   the engine's own that it took for his; `overwritten` are saved bytes that a
   later move has replaced.
   */
  datatype Account = Account(clock: nat, live: Option<Bytes>, saved: set<Bytes>, owed: set<Bytes>,
                             taken: map<nat, Bytes>, adopted: set<Bytes>, overwritten: set<Bytes>)

  /**
   All that can happen to the file: the editor's next instant, a rename that
   moves it out of his reach (over the saved bytes `dropped`), a copy onto the
   vacant path, and the engine taking what is there for his. Nothing here puts
   bytes onto an occupied path.
   */
  datatype Act = Edit | Take(dropped: set<Bytes>) | Put(bytes: Bytes) | Adopt

  predicate Can(a: Account, act: Act) {
    match act
    case Edit => true
    case Take(dropped) => a.live.Some? && dropped <= a.saved && a.live.value !in dropped
    case Put(_) => a.live.None?
    case Adopt => a.live.Some?
  }

  function Do(editor: Editor, a: Account, act: Act): Account
    requires Can(a, act)
  {
    match act
    case Edit =>
      if editor(a.clock).None? then a.(clock := a.clock + 1)
      else
        var after, gone := editor(a.clock).value, (BytesOf(a.live) * a.owed) - a.saved;
        a.(clock := a.clock + 1, live := after, owed := a.owed - gone + BytesOf(after),
           taken := if gone == {} then a.taken else a.taken[a.clock := a.live.value])
    case Take(dropped) =>
      a.(live := None, saved := a.saved - dropped + BytesOf(a.live), owed := a.owed - dropped, overwritten := a.overwritten + dropped)
    case Put(bytes) => a.(live := Some(bytes))
    case Adopt => a.(owed := a.owed + BytesOf(a.live), adopted := a.adopted + BytesOf(a.live))
  }

  ghost predicate Leads(editor: Editor, a: Account, acts: seq<Act>, b: Account)
    decreases |acts|
  {
    if acts == [] then a == b else Can(a, acts[0]) && Leads(editor, Do(editor, a, acts[0]), acts[1..], b)
  }

  /** Nothing but such acts leads from `a` to `b`. */
  ghost predicate Honest(editor: Editor, a: Account, b: Account) {
    exists acts: seq<Act> :: Leads(editor, a, acts, b)
  }

  lemma OneAct(editor: Editor, a: Account, act: Act)
    requires Can(a, act)
    ensures Honest(editor, a, Do(editor, a, act))
  {
    assert [act][1..] == [];
    assert Leads(editor, a, [act], Do(editor, a, act));
  }

  lemma {:induction false} LeadsOn(editor: Editor, a: Account, x: seq<Act>, b: Account, y: seq<Act>, c: Account)
    requires Leads(editor, a, x, b) && Leads(editor, b, y, c)
    ensures Leads(editor, a, x + y, c)
    decreases |x|
  {
    if x == [] {
      assert x + y == y;
    } else {
      LeadsOn(editor, Do(editor, a, x[0]), x[1..], b, y, c);
      assert (x + y)[1..] == x[1..] + y;
    }
  }

  lemma HonestTransitive(editor: Editor, a: Account, b: Account, c: Account)
    requires Honest(editor, a, b) && Honest(editor, b, c)
    ensures Honest(editor, a, c)
  {
    var x: seq<Act> :| Leads(editor, a, x, b);
    var y: seq<Act> :| Leads(editor, b, y, c);
    LeadsOn(editor, a, x, b, y, c);
  }

  lemma {:induction false} ClockRuns(editor: Editor, a: Account, acts: seq<Act>, b: Account)
    requires Leads(editor, a, acts, b)
    ensures a.clock <= b.clock
    decreases |acts|
  {
    if acts != [] {
      ClockRuns(editor, Do(editor, a, acts[0]), acts[1..], b);
    }
  }

  // ----------------------------------------------------------- what it promises

  /** Everything owed to him is at the path or saved, and what he did away with is dated by his writes. */
  ghost predicate Held(editor: Editor, a: Account) {
    a.owed <= a.saved + BytesOf(a.live) && Dated(editor, a.taken, a.clock)
  }

  /** What was owed still is, or he has done away with it since, or a move has overwritten it. */
  ghost predicate Remembered(a: Account, b: Account) {
    forall x :: x in a.owed ==> x in b.owed || TookSince(b.taken, a.clock, x) || x in b.overwritten
  }

  /** So it is with all that he has written in between: only a later write of his does away with it. */
  ghost predicate WritesKept(editor: Editor, a: Account, b: Account) {
    forall n, x :: a.clock <= n < b.clock && editor(n) == Some(Some(x)) ==>
      x in b.owed || TookSince(b.taken, n + 1, x) || x in b.overwritten
  }

  /** Nothing else is owed, but what was adopted. */
  ghost predicate OnlyWrites(editor: Editor, a: Account, b: Account) {
    forall x :: x in b.owed ==> x in a.owed || WroteBetween(editor, a.clock, b.clock, x) || x in b.adopted
  }

  ghost predicate Longer(editor: Editor, a: Account, b: Account) {
    && a.clock <= b.clock && a.adopted <= b.adopted && a.overwritten <= b.overwritten && a.saved <= b.saved + b.overwritten
    && (forall n :: n in a.taken ==> n in b.taken && b.taken[n] == a.taken[n])
    && (forall n :: n in b.taken && n !in a.taken ==> a.clock <= n < b.clock && editor(n).Some?)
  }

  ghost predicate LosesNothing(editor: Editor, a: Account, b: Account) {
    Held(editor, b) && Longer(editor, a, b) && Remembered(a, b) && WritesKept(editor, a, b) && OnlyWrites(editor, a, b)
  }

  lemma OneLosesNothing(editor: Editor, a: Account, act: Act)
    requires Held(editor, a) && Can(a, act)
    ensures LosesNothing(editor, a, Do(editor, a, act))
  {
    var b := Do(editor, a, act);
    if act.Edit? && editor(a.clock).Some? {
      forall x | x in a.owed && x !in b.owed
        ensures TookSince(b.taken, a.clock, x)
      {
        assert b.taken[a.clock] == x;
      }
      forall x | x in b.owed && x !in a.owed
        ensures WroteBetween(editor, a.clock, a.clock + 1, x)
      {
        assert editor(a.clock) == Some(Some(x));
      }
    }
  }

  lemma TookLater(b: Account, c: Account, from: nat, x: Bytes)
    requires TookSince(b.taken, from, x) && forall n :: n in b.taken ==> n in c.taken && c.taken[n] == b.taken[n]
    ensures TookSince(c.taken, from, x)
  {
    var n :| n in b.taken && b.taken[n] == x && from <= n;
    assert c.taken[n] == x;
  }

  lemma LosesNothingOn(editor: Editor, a: Account, b: Account, c: Account)
    requires LosesNothing(editor, a, b) && LosesNothing(editor, b, c)
    ensures LosesNothing(editor, a, c)
  {
    forall x | x in b.owed && x !in c.owed && x !in c.overwritten
      ensures TookSince(c.taken, b.clock, x)
    {
    }
    forall from, x | TookSince(b.taken, from, x)
      ensures TookSince(c.taken, from, x)
    {
      TookLater(b, c, from, x);
    }
    forall x | x in c.owed && x !in a.owed && x !in c.adopted
      ensures WroteBetween(editor, a.clock, c.clock, x)
    {
      if x in b.owed {
        assert WroteBetween(editor, a.clock, b.clock, x);
      }
    }
  }

  /** Whatever the acts were. */
  lemma {:induction false} LeadsLosesNothing(editor: Editor, a: Account, acts: seq<Act>, b: Account)
    requires Held(editor, a) && Leads(editor, a, acts, b)
    ensures LosesNothing(editor, a, b)
    decreases |acts|
  {
    if acts != [] {
      var next := Do(editor, a, acts[0]);
      OneLosesNothing(editor, a, acts[0]);
      LeadsLosesNothing(editor, next, acts[1..], b);
      LosesNothingOn(editor, a, next, b);
    }
  }

  /**
   An honest account loses nothing: what was owed, and whatever the editor has
   written since, is at the path or saved, unless he has done away with it
   himself by a later write, or a move has overwritten it.
   */
  lemma HonestLosesNothing(editor: Editor, a: Account, b: Account)
    requires Held(editor, a) && Honest(editor, a, b)
    ensures LosesNothing(editor, a, b)
  {
    var acts: seq<Act> :| Leads(editor, a, acts, b);
    LeadsLosesNothing(editor, a, acts, b);
  }

  /** Every further honest step keeps the account honest. */
  lemma HonestFrom(editor: Editor, a: Account)
    ensures Honest(editor, a, a)
    ensures forall b, c :: Honest(editor, a, b) && Honest(editor, b, c) ==> Honest(editor, a, c)
    ensures forall b, c :: Honest(editor, b, c) ==> b.clock <= c.clock
  {
    assert Leads(editor, a, [], a);
    forall b, c | Honest(editor, a, b) && Honest(editor, b, c)
      ensures Honest(editor, a, c)
    {
      HonestTransitive(editor, a, b, c);
    }
    forall b, c | Honest(editor, b, c)
      ensures b.clock <= c.clock
    {
      var acts: seq<Act> :| Leads(editor, b, acts, c);
      ClockRuns(editor, b, acts, c);
    }
  }

  lemma NothingLostFrom(editor: Editor, a: Account)
    requires Held(editor, a)
    ensures forall b :: Honest(editor, a, b) ==> LosesNothing(editor, a, b)
  {
    forall b | Honest(editor, a, b)
      ensures LosesNothing(editor, a, b)
    {
      HonestLosesNothing(editor, a, b);
    }
  }

  /** While the editor leaves the path alone and nothing is overwritten everything owed stays owed. */
  lemma QuietLosesNothing(editor: Editor, a: Account, b: Account)
    requires Held(editor, a) && Honest(editor, a, b) && Quiet(editor, a.clock, b.clock) && b.overwritten == {}
    ensures a.owed <= b.owed && b.taken == a.taken
    ensures b.adopted == a.adopted && a.adopted <= a.owed ==> b.owed == a.owed
  {
    HonestLosesNothing(editor, a, b);
    assert forall n :: n in b.taken ==> n in a.taken;
    assert forall x :: !TookSince(b.taken, a.clock, x);
  }
}
