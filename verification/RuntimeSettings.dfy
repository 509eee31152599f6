/**
 Protecting incoming plugin settings and restoring them over whatever a stale
 runtime wrote (plugin/src/plugin-runtime.ts:131-162). Attempts may throw
 anywhere and be repeated; a writer may change the public file at any time.
 */
module RuntimeSettings {
  import opened Wrappers
  import opened Environment
  import opened Ledger

  /** What was at the public path when recovery began, and whether it has been moved away. */
  datatype Recovery = Recovery(expected: Option<Bytes>, vacated: bool)

  datatype Incoming = Incoming(data: Option<Bytes>, recovery: Option<Recovery>)

  /** A write takes what stood there, and nothing else is ever taken. */
  ghost predicate TookOnly(edit: Option<Option<Bytes>>, public: Option<Bytes>, before: map<nat, Bytes>, after: map<nat, Bytes>) {
    && (edit.None? ==> after == before)
    && forall n :: n in after ==> (n in before && after[n] == before[n]) || Some(after[n]) == public
  }

  class Settings {
    /** Whether `rename` replaces an existing destination. */
    const clobbers: bool
    const writer: Editor
    const adapter: Adapter

    var public: Option<Bytes>
    /** The private checkpoint of the incoming settings. */
    var copy: Option<Bytes>
    /** The file the runtime-written settings are moved to. */
    var aside: Option<Bytes>
    var incoming: Option<Incoming>

    /** Instants of the writer and calls of the adapter so far. */
    var clock: nat
    var calls: nat

    ghost var owed: set<Bytes>
    ghost var taken: map<nat, Bytes>
    ghost var overwritten: set<Bytes>

    constructor (public: Option<Bytes>, clobbers: bool, writer: Editor, adapter: Adapter)
      ensures Inv() && incoming.None? && this.public == public && this.clobbers == clobbers
      ensures this.writer == writer && this.adapter == adapter && clock == calls == 0
      ensures owed == BytesOf(public) && overwritten == {} && taken == map[]
    {
      this.public, this.clobbers, this.writer, this.adapter := public, clobbers, writer, adapter;
      copy, aside, incoming, clock, calls := None, None, None, 0, 0;
      owed, taken, overwritten := BytesOf(public), map[], {};
    }

    /** What is aside is out of the writer's reach. */
    ghost function Books(): (r: Account)
      reads this`clock, this`public, this`aside, this`owed, this`taken, this`overwritten
      ensures r.clock == clock
    {
      Account(clock, public, BytesOf(aside), owed, taken, {}, overwritten)
    }

    /** Recovery has not yet moved anything away, as far as it knows. */
    predicate Unmoved()
      reads this`incoming
    {
      incoming.None? || incoming.value.recovery.None? || !incoming.value.recovery.value.vacated
    }

    /**
     The checkpoint is intact; everything owed to a writer is at the public path
     or aside; what stands aside is his, and so is the public file until the
     incoming settings are copied back.
     */
    ghost predicate Inv()
      reads this`public, this`copy, this`aside, this`incoming, this`clock, this`owed, this`taken, this`overwritten
    {
      && (incoming.Some? && incoming.value.data.Some? ==> copy == incoming.value.data)
      && (incoming.None? || incoming.value.recovery.None? ==> aside.None?)
      && (incoming.Some? && incoming.value.recovery.Some? && !incoming.value.recovery.value.vacated ==> incoming.value.recovery.value.expected.Some?)
      && Held(writer, Books())
      && BytesOf(aside) <= owed
      && (Unmoved() ==> BytesOf(public) <= owed)
    }

    twostate predicate Kept()
      reads this
    {
      Inv() && Honest(writer, old(Books()), Books())
    }

    /** The runtime settings are aside already, yet recovery does not know it. */
    predicate HalfMoved()
      reads this`incoming, this`aside
    {
      && incoming.Some? && incoming.value.recovery.Some? && !incoming.value.recovery.value.vacated
      && aside.Some?
    }

    // ------------------------------------------------------------ environment

    /** The writer's next instant. */
    method Interfere()
      requires Inv()
      modifies `public, `owed, `taken, `clock
      ensures Kept() && clock == old(clock) + 1 && public == AfterEdit(writer(old(clock)), old(public)) && overwritten == old(overwritten)
      ensures writer(old(clock)).None? ==> owed == old(owed)
      ensures TookOnly(writer(old(clock)), old(public), old(taken), taken)
    {
      ghost var after := Do(writer, Books(), Edit);
      OneAct(writer, Books(), Edit);
      OneLosesNothing(writer, Books(), Edit);
      hide Honest;
      public := AfterEdit(writer(clock), public);
      owed, taken := after.owed, after.taken;
      clock := clock + 1;
      assert Books() == after;
    }

    /** Attempts may throw; the process does not stop. */
    method Attempt() returns (s: Step, f: Fate)
      modifies `calls
      ensures f == adapter(old(calls)) && calls == old(calls) + 1 && s == (if f.end.Done? then Done else Failed)
    {
      f := adapter(calls);
      s, calls := if f.end.Done? then Done else Failed, calls + 1;
    }

    method Look() returns (s: Step, bytes: Option<Bytes>)
      requires Inv()
      modifies `public, `owed, `taken, `clock, `calls
      ensures Kept() && bytes == public && public == AfterEdit(writer(old(clock)), old(public)) && overwritten == old(overwritten)
      ensures clock == old(clock) + 1 && calls == old(calls) + 1 && s == if adapter(old(calls)).end.Done? then Done else Failed
      ensures writer(old(clock)).None? ==> owed == old(owed)
      ensures TookOnly(writer(old(clock)), old(public), old(taken), taken)
    {
      Interfere();
      bytes := public;
      var fate;
      s, fate := Attempt();
    }

    // ---------------------------------------------------------------- protect

    /** `protectIncoming`: a verified private copy of exactly the settings that were installed. */
    method Protect(data: Option<Bytes>) returns (s: Step)
      requires Inv() && incoming.None?
      modifies this
      ensures Kept() && overwritten == old(overwritten) && aside == old(aside)
      ensures s.Done? ==> incoming == Some(Incoming(data, None)) && copy == (if data.Some? then data else old(copy))
      ensures s.Done? && data.Some? ==> public == data && clock == old(clock) + 2 && calls == old(calls) + 3
      ensures clock <= old(clock) + 2 && calls <= old(calls) + 3
      ensures Quiet(writer, old(clock), old(clock) + 2) ==> taken == old(taken)
      ensures !s.Done? ==> incoming.None?
      ensures Quiet(writer, old(clock), clock) ==> public == old(public) && owed == old(owed)
      ensures Quiet(writer, old(clock), old(clock) + 2) && Smooth(adapter, old(calls), old(calls) + 3) && (data.None? || old(public) == data) ==> s.Done?
    {
      hide Honest;
      HonestFrom(writer, Books());
      if data.Some? {
        var observed :- Look();
        if observed != data {
          return Failed;
        }
        var fate;
        s, fate := Attempt();
        copy := if s.Done? then data else None;
        if s.IsFailure() {
          return;
        }
        var again :- Look();
        if again != data {
          return Failed;
        }
      }
      incoming := Some(Incoming(data, None));
      s := Done;
    }

    // ---------------------------------------------------------------- restore

    /** The rename as it takes effect. */
    method TakeAside()
      requires Inv() && public.Some? && (aside.None? || clobbers) && incoming.Some? && incoming.value.recovery.Some? && Unmoved()
      modifies `public, `aside, `owed, `overwritten
      ensures Kept() && public.None? && aside == old(public)
      ensures overwritten == old(overwritten) + (if old(aside) != old(public) then BytesOf(old(aside)) else {})
      ensures if old(aside) != old(public) then owed !! BytesOf(old(aside)) else owed == old(owed)
    {
      ghost var dropped := if aside != public then BytesOf(aside) else {};
      ghost var after := Do(writer, Books(), Take(dropped));
      OneAct(writer, Books(), Take(dropped));
      OneLosesNothing(writer, Books(), Take(dropped));
      hide Honest, LosesNothing;
      owed, overwritten := after.owed, after.overwritten;
      aside, public := public, None;
      assert after.saved == BytesOf(aside) && Books() == after;
    }

    /** `rename` of the public file to the recovery path moves it whole; it may take effect and still be reported as failed. */
    method MoveAside() returns (s: Step)
      requires Inv() && incoming.Some? && incoming.value.recovery.Some? && Unmoved()
      modifies `public, `aside, `owed, `taken, `overwritten, `clock, `calls
      ensures Kept() && clock == old(clock) + 1 && calls == old(calls) + 1
      ensures var seen := AfterEdit(writer(old(clock)), old(public));
        var moved := seen.Some? && (old(aside).None? || clobbers) && (adapter(old(calls)).end.Done? || adapter(old(calls)).happens);
        && (if moved then public.None? && aside == seen else public == seen && aside == old(aside))
        && (s.Done? <==> moved && adapter(old(calls)).end.Done?)
        && overwritten == old(overwritten) + (if moved && old(aside) != seen then BytesOf(old(aside)) else {})
        && (moved && old(aside) != seen ==> owed !! BytesOf(old(aside)))
        && (writer(old(clock)).None? && !(moved && old(aside) != seen) ==> owed == old(owed))
      ensures TookOnly(writer(old(clock)), old(public), old(taken), taken)
    {
      hide Honest;
      HonestFrom(writer, Books());
      Interfere();
      var f;
      s, f := Attempt();
      if public.None? || (aside.Some? && !clobbers) {
        s := Failed;
      } else if s.Done? || f.happens {
        TakeAside();
      }
    }

    /** `copy` onto the public path leaves an occupied path alone and fails; cut short it may leave part of the bytes. */
    method CopyBack() returns (s: Step)
      requires Inv() && copy.Some? && !Unmoved()
      modifies `public, `owed, `taken, `clock, `calls
      ensures Kept() && overwritten == old(overwritten) && clock == old(clock) + 1 && calls >= old(calls)
      ensures var seen := AfterEdit(writer(old(clock)), old(public));
        if seen.Some? then s.Failed? && public == seen
        else public == (if s.Done? then copy else adapter(old(calls)).left) && (s.Done? <==> adapter(old(calls)).end.Done?) && calls == old(calls) + 1
      ensures writer(old(clock)).None? ==> owed == old(owed)
    {
      hide Honest;
      HonestFrom(writer, Books());
      Interfere();
      if public.Some? {
        return Failed;
      }
      var f;
      s, f := Attempt();
      ghost var before := Books();
      public := if s.Done? then copy else f.left;
      if public.Some? {
        OneAct(writer, before, Put(public.value));
        OneLosesNothing(writer, before, Put(public.value));
        assert Books() == Do(writer, before, Put(public.value));
      }
    }

    /** What an earlier attempt has recorded agrees with what is at the public path and aside. */
    ghost predicate InStep()
      requires incoming.Some?
      reads this`incoming, this`public, this`aside
    {
      incoming.value.recovery.Some? ==>
        var r := incoming.value.recovery.value;
        if public.None? then (r.vacated && r.expected.None?) || (aside == r.expected && r.expected.Some?)
        else !r.vacated && public == r.expected
    }

    /** Decide how far an earlier attempt has come; a mismatch holds the settings. */
    method Reconsider(current: Option<Bytes>) returns (s: Step)
      requires Inv() && incoming.Some? && current == public
      modifies `incoming, `calls
      ensures Inv() && calls == old(calls) + 1
      ensures incoming.Some? && incoming.value.data == old(incoming).value.data
      ensures s.Done? ==> incoming.value.recovery.Some?
      ensures s.Done? ==> var r := incoming.value.recovery.value; if r.vacated then current.None? else current == r.expected && current.Some?
      ensures s.Done? && incoming.value.recovery.value.vacated && incoming.value.recovery.value.expected.Some? ==>
                aside == incoming.value.recovery.value.expected
      ensures s.Done? && !incoming.value.recovery.value.vacated && aside.Some? ==>
                old(HalfMoved()) && incoming == old(incoming)
      ensures old(HalfMoved()) && current.Some? && adapter(old(calls)).end.Done? ==>
                (s.Done? <==> current == old(incoming).value.recovery.value.expected) && incoming == old(incoming)
      ensures old(incoming).value.recovery.None? && adapter(old(calls)).end.Done? ==>
                s.Done? && incoming.value.recovery == Some(Recovery(current, current.None?))
      ensures adapter(old(calls)).end.Done? ==> (s.Done? <==> old(InStep()))
      ensures old(InStep()) && s.Done? ==> (incoming.value.recovery.value.vacated <==> current.None?)
    {
      var fate;
      s, fate := Attempt(); // mkdir, or the hash of the file moved aside
      if s.IsFailure() {
        return;
      }
      if incoming.value.recovery.None? {
        incoming := Some(incoming.value.(recovery := Some(Recovery(current, current.None?))));
        return Done;
      }
      var r := incoming.value.recovery.value;
      if !r.vacated && aside == r.expected && aside.Some? && current.None? {
        r := r.(vacated := true);
        incoming := Some(incoming.value.(recovery := Some(r)));
      }
      if r.vacated && r.expected.Some? && aside != r.expected {
        return Failed;
      }
      if (r.vacated && current.Some?) || (!r.vacated && current != r.expected) {
        return Failed;
      }
      s := Done;
    }

    /** Mark the path vacated, unless the bytes that arrived are not those that were moved. */
    method NoteMoved(current: Option<Bytes>) returns (s: Step)
      requires Inv() && incoming.Some? && incoming.value.recovery.Some?
      modifies `incoming
      ensures Inv() && !Unmoved() && incoming.value.data == old(incoming).value.data && incoming.Some?
      ensures s == if aside == current then Done else Failed
    {
      incoming := Some(incoming.value.(recovery := Some(incoming.value.recovery.value.(vacated := true))));
      s := if aside == current then Done else Failed;
    }

    /** Look again, and move the public file aside. */
    method Vacate(current: Option<Bytes>) returns (s: Step)
      requires Inv() && incoming.Some? && incoming.value.recovery.Some? && Unmoved() && current.Some?
      modifies `public, `aside, `incoming, `owed, `taken, `overwritten, `clock, `calls
      ensures Kept() && incoming.Some? && incoming.value.data == old(incoming).value.data
      ensures s.Done? ==> !Unmoved()
      ensures calls >= old(calls)
      ensures Quiet(writer, old(clock), clock) && Smooth(adapter, old(calls), calls) && current == old(public) ==>
                (s.Done? <==> old(aside).None? || clobbers) && (s.Done? ==> public.None?)
      ensures overwritten != old(overwritten) ==>
                clobbers && old(aside).Some? && overwritten == old(overwritten) + BytesOf(old(aside))
      ensures Quiet(writer, old(clock), clock) ==>
                && (clobbers && old(aside).Some? && old(aside) != current && current == old(public) && Smooth(adapter, old(calls), calls)
                    ==> owed !! BytesOf(old(aside)))
                && (!clobbers || old(aside).None? || old(aside) == old(public) || current != old(public) ==> owed == old(owed))
    {
      hide Honest;
      HonestFrom(writer, Books());
      var again :- Look();
      if again != current {
        return Failed;
      }
      :- MoveAside();
      s := NoteMoved(current);
    }

    /** From a vacated path to the restored settings. */
    method PutBack(data: Option<Bytes>) returns (s: Step)
      requires Inv() && incoming.Some? && incoming.value.data == data && !Unmoved()
      modifies `public, `owed, `taken, `clock, `calls
      ensures Kept() && overwritten == old(overwritten)
      ensures s.Done? ==> public == data
      ensures calls >= old(calls)
      ensures Quiet(writer, old(clock), clock) && Smooth(adapter, old(calls), calls) ==> (s.Done? <==> old(public).None?)
      ensures Quiet(writer, old(clock), clock) ==> owed == old(owed)
    {
      hide Honest;
      HonestFrom(writer, Books());
      var occupied :- Look();
      if occupied.Some? {
        return Failed;
      }
      if data.Some? {
        :- CopyBack();
      }
      var restored :- Look();
      s := if restored == data then Done else Failed;
    }

    /** A move in this attempt would overwrite what an earlier one has moved aside. */
    ghost predicate WouldOverwrite()
      reads this`incoming, this`aside, this`public
    {
      && clobbers && HalfMoved() && incoming.value.data != public
      && public == incoming.value.recovery.value.expected && public != aside
    }

    /**
     There is nothing to restore, or it is in place already, or earlier attempts
     agree with what is found and what they have moved aside is not in the way.
     */
    ghost predicate Restorable()
      reads this`incoming, this`public, this`aside
    {
      incoming.None? || public == incoming.value.data || (InStep() && (public.None? || aside.None? || clobbers))
    }

    /**
     `restoreIncoming`. A normal return means that the public file held the
     incoming settings when last looked at. What is owed to the writer, or
     written by him meanwhile, is lost only where a rename clobbers, in an attempt
     that finds his bytes aside without knowing it, and the expected ones back at
     the public path; left alone and with every call succeeding, exactly then,
     and then it returns normally exactly when the settings are restorable.
     */
    method Restore() returns (s: Step)
      requires Inv()
      modifies this
      ensures Kept() && copy == old(copy) && calls >= old(calls)
      ensures LosesNothing(writer, old(Books()), Books())
      ensures incoming.Some? == old(incoming).Some? && (incoming.Some? ==> incoming.value.data == old(incoming).value.data)
      ensures s.Done? && incoming.Some? ==> public == incoming.value.data
      ensures overwritten != old(overwritten) ==>
                && clobbers && old(HalfMoved()) && overwritten == old(overwritten) + BytesOf(old(aside))
                && AfterEdit(writer(old(clock)), old(public)) == old(incoming).value.recovery.value.expected
      ensures Quiet(writer, old(clock), clock) && Smooth(adapter, old(calls), calls) ==>
                (!(old(owed) <= owed) <==> old(WouldOverwrite())) && (old(WouldOverwrite()) ==> BytesOf(old(aside)) !! owed)
      ensures Quiet(writer, old(clock), clock) && Smooth(adapter, old(calls), calls) ==> (s.Done? <==> old(Restorable()))
    {
      hide Honest, LosesNothing;
      HonestFrom(writer, Books());
      NothingLostFrom(writer, Books());
      if incoming.None? {
        return Done;
      }
      var data := incoming.value.data;
      var current :- Look();
      if current == data {
        return Done;
      }
      if data.Some? && copy != data {
        return Failed;
      }
      :- Reconsider(current);
      if !incoming.value.recovery.value.vacated {
        :- Vacate(current);
      }
      s := PutBack(data);
    }
  }

  /**
   Any number of attempts: the checkpoint survives them all, and so does, where
   renames do not clobber, everything owed to the writer and everything he
   writes meanwhile that he has not replaced himself.
   */
  method RestoreRepeatedly(p: Settings, attempts: nat) returns (s: Step)
    requires p.Inv()
    modifies p
    ensures p.Kept() && p.copy == old(p.copy)
    ensures LosesNothing(p.writer, old(p.Books()), p.Books())
    ensures !p.clobbers ==> p.overwritten == old(p.overwritten)
    ensures s.Done? && p.incoming.Some? ==> p.public == p.incoming.value.data
  {
    hide Honest, LosesNothing;
    HonestFrom(p.writer, p.Books());
    NothingLostFrom(p.writer, p.Books());
    s := Failed;
    var left := attempts;
    while left > 0 && !s.Done?
      invariant p.Kept() && p.copy == old(p.copy)
      invariant !p.clobbers ==> p.overwritten == old(p.overwritten)
      invariant s.Done? && p.incoming.Some? ==> p.public == p.incoming.value.data
    {
      s := p.Restore();
      left := left - 1;
    }
  }

  // ------------------------------------------------------------ a losing run

  const INCOMING: Bytes := [1]
  const EXPECTED: Bytes := [2]
  const OTHERS: Bytes := [3]

  /** Stale settings after the protection, other ones just before the rename, and the first ones again. */
  function Meddling(n: nat): Option<Option<Bytes>> {
    if n == 2 then Some(Some(EXPECTED)) else if n == 4 then Some(Some(OTHERS)) else if n == 5 then Some(Some(EXPECTED)) else None
  }

  /** The rename takes effect and is reported as failed. */
  function LyingRename(c: nat): Fate {
    Fate(if c == 6 then Failed else Done, true, None)
  }

  lemma ThreeBytes()
    ensures INCOMING != EXPECTED && EXPECTED != OTHERS && INCOMING != OTHERS
  {
    assert INCOMING[0] != EXPECTED[0] && EXPECTED[0] != OTHERS[0] && INCOMING[0] != OTHERS[0];
  }

  ghost predicate NeverTaken(taken: map<nat, Bytes>, b: Bytes) {
    forall n :: n in taken ==> taken[n] != b
  }

  /** The incoming settings are protected. */
  method Protected() returns (p: Settings)
    ensures fresh(p) && p.Inv() && p.clobbers && p.writer == Meddling && p.adapter == LyingRename
    ensures p.incoming == Some(Incoming(Some(INCOMING), None)) && p.public == Some(INCOMING) && p.aside.None?
    ensures p.clock == 2 && p.calls == 3 && p.taken == map[]
  {
    hide Honest;
    p := new Settings(Some(INCOMING), true, Meddling, LyingRename);
    var s := p.Protect(Some(INCOMING));
  }

  /** The first calls of `restoreIncoming`: recovery expects the stale settings. */
  method Began() returns (p: Settings)
    ensures fresh(p) && p.Inv() && p.clobbers && p.writer == Meddling && p.adapter == LyingRename
    ensures p.incoming == Some(Incoming(Some(INCOMING), Some(Recovery(Some(EXPECTED), false))))
    ensures p.public == Some(EXPECTED) && p.aside.None? && p.clock == 3 && p.calls == 5 && NeverTaken(p.taken, OTHERS)
  {
    hide Honest;
    ThreeBytes();
    p := Protected();
    var s, current := p.Look();
    s := p.Reconsider(current);
  }

  /** The calls of `restoreIncoming` up to the rename. */
  method MovedUnknowingly() returns (p: Settings)
    ensures fresh(p) && p.Inv() && p.clobbers && p.writer == Meddling && p.adapter == LyingRename
    ensures p.HalfMoved() && p.aside == Some(OTHERS) && p.public.None? && p.clock == 5 && p.calls == 7
    ensures p.incoming == Some(Incoming(Some(INCOMING), Some(Recovery(Some(EXPECTED), false)))) && NeverTaken(p.taken, OTHERS)
  {
    hide Honest;
    ThreeBytes();
    p := Began();
    var s, again := p.Look();
    s := p.MoveAside();
  }

  lemma NothingTaken(writer: Editor, a: Account, b: Account)
    requires LosesNothing(writer, a, b) && Quiet(writer, a.clock, b.clock)
    ensures b.taken == a.taken
  {
    assert forall n :: n in b.taken ==> n in a.taken;
  }

  /** The next attempt overwrites bytes of the writer that he never replaced. */
  method LostSettings() returns (p: Settings)
    ensures fresh(p) && WroteBetween(p.writer, 0, p.clock, OTHERS) && !TookSince(p.taken, 0, OTHERS)
    ensures OTHERS !in p.owed && p.aside != Some(OTHERS) && p.copy != Some(OTHERS)
  {
    ThreeBytes();
    p := MovedUnknowingly();
    assert Meddling(4) == Some(Some(OTHERS));
    p.Interfere();
    assert NeverTaken(p.taken, OTHERS) && p.WouldOverwrite();
    ghost var before := p.Books();
    hide Honest, LosesNothing;
    var s := p.Restore();
    assert Quiet(p.writer, before.clock, p.clock) && Smooth(p.adapter, 7, p.calls);
    NothingTaken(p.writer, before, p.Books());
  }
}
