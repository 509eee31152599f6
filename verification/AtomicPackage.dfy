/**
 The whole-directory switch of a plugin package (plugin/src/atomic-package.ts:37-73,
 103-118): stage, original and live directory change places by renames only,
 the journal says how far the switch has come, and a writer that still holds
 the original open may change it at any time.
 */
module AtomicPackage {
  import opened Wrappers

  /** Relative paths to hashes, or to device-local content. */
  type Files = map<string, string>

  /** A package directory: what the package manages, and what the device keeps beside it. */
  datatype Dir = Dir(managed: Files, local: Files)

  datatype Phase = Prepared | BackedUp | Promoting | Installed | LocalChanged

  datatype Journal = Journal(phase: Phase, unmanaged: set<string>)

  /** The newest valid journal record, if any; a torn first record cannot be verified. */
  datatype Slot = Missing | Torn | Saved(journal: Journal)

  /** How a call ends: refused by a check, or stopped by an adapter error or a crash. */
  datatype End = Finished | Refused | Stopped {
    predicate IsFailure() {
      !Finished?
    }

    function PropagateFailure(): End
      requires IsFailure()
    {
      this
    }
  }

  /** A call that persists `j`: on success it is the newest record; a failure may also leave a torn first record. */
  predicate SlotAfter(before: Slot, after: Slot, j: Journal, e: End) {
    && !e.Refused? && (e.Finished? ==> after == Saved(j))
    && (after == before || after == Saved(j) || (before.Missing? && after.Torn?))
  }

  function Managed(d: Option<Dir>): Files {
    if d.Some? then d.value.managed else map[]
  }

  function Local(d: Option<Dir>): Files {
    if d.Some? then d.value.local else map[]
  }

  /** `a` and `b` share out `all`. */
  ghost predicate Split(a: Files, b: Files, all: Files) {
    a.Keys !! b.Keys && a + b == all
  }

  lemma SplitMove(a: Files, b: Files, all: Files, name: string)
    requires Split(a, b, all) && name in a
    ensures Split(a - {name}, b[name := a[name]], all)
  {
    var x, y := a - {name}, b[name := a[name]];
    assert x + y == a + b;
  }

  lemma SplitSwap(a: Files, b: Files, all: Files)
    requires Split(a, b, all)
    ensures Split(b, a, all)
  {
    assert a + b == b + a;
  }

  lemma SplitAll(a: Files, b: Files, all: Files)
    requires Split(a, b, all) && a.Keys <= {}
    ensures b == all && a == map[]
  {
    assert a == map[];
    assert a + b == b;
  }

  /** What the writer leaves in the managed files of the original at each instant, if he writes at all. */
  type Writer = nat -> Option<Files>

  /** The managed files of the original once he has come to the instant `clock`. */
  function Left(writer: Writer, clock: nat, first: Files): Files {
    if clock == 0 then first
    else if writer(clock - 1).Some? then writer(clock - 1).value
    else Left(writer, clock - 1, first)
  }

  ghost predicate Wrote(writer: Writer, clock: nat) {
    exists n :: 0 <= n < clock && writer(n).Some?
  }

  lemma NextInstant(writer: Writer, clock: nat, first: Files)
    ensures Wrote(writer, clock + 1) <==> Wrote(writer, clock) || writer(clock).Some?
    ensures Left(writer, clock + 1, first) == if writer(clock).Some? then writer(clock).value else Left(writer, clock, first)
  {
  }

  /** How a call of the adapter ends: whether it is stopped, takes effect all the same, and leaves a torn first record. */
  datatype Call = Call(stops: bool, happens: bool, tears: bool)

  type Adapter = nat -> Call

  /** No call is stopped. */
  ghost predicate Smooth(adapter: Adapter, from: nat, end: nat) {
    forall c :: from <= c < end ==> !adapter(c).stops
  }

  /** How many calls are stopped. */
  ghost function Stops(adapter: Adapter, from: nat, end: nat): nat {
    if end <= from then 0 else Stops(adapter, from, end - 1) + if adapter(end - 1).stops then 1 else 0
  }

  lemma {:induction false} StopsMore(adapter: Adapter, from: nat, mid: nat, end: nat)
    requires from <= mid <= end
    ensures Stops(adapter, from, end) >= Stops(adapter, from, mid)
    ensures !Smooth(adapter, mid, end) ==> Stops(adapter, from, end) > Stops(adapter, from, mid)
  {
    if mid < end {
      StopsMore(adapter, from, mid, end - 1);
    }
  }

  class Package {
    const prior: Files
    const target: Files
    /** The device-local items of the original directory. */
    const items: Files
    /** Whether there was an original directory at all. */
    const existed: bool
    const writer: Writer
    const adapter: Adapter

    var root: Option<Dir>
    var stage: Option<Dir>
    var backup: Option<Dir>
    var slot: Slot

    /** Instants of the writer and calls of the adapter so far. */
    var clock: nat
    var calls: nat
    /** The writer has changed the original directory. */
    ghost var disturbed: bool

    constructor (root: Option<Dir>, prior: Files, target: Files, writer: Writer, adapter: Adapter)
      requires root.None? ==> prior == map[]
      requires root.Some? ==> root.value.managed == prior
      ensures Inv() && !disturbed && slot.Missing? && this.root == root && this.prior == prior && this.target == target
      ensures items == Local(root) && existed == root.Some? && this.writer == writer && this.adapter == adapter && clock == calls == 0
    {
      this.prior, this.target, this.items, this.existed := prior, target, Local(root), root.Some?;
      this.root, stage, backup, slot := root, None, None, Missing;
      this.writer, this.adapter, clock, calls := writer, adapter, 0, 0;
      disturbed := false;
    }

    // -------------------------------------------------------------- invariant

    /** The original directory is where it was, with all its items. */
    ghost predicate Untouched()
      reads this
    {
      backup.None? && (if existed then root.Some? && root.value.local == items else root.None? && items == map[])
    }

    /** The original is set aside; the items are shared between it and the stage. */
    ghost predicate Switching()
      reads this
    {
      && root.None? && stage.Some? && stage.value.managed == target
      && (if existed then backup.Some? && Split(backup.value.local, stage.value.local, items)
          else backup.None? && stage.value.local == map[] && items == map[])
    }

    /** The new directory is live with all items; the original is kept. */
    ghost predicate Switched()
      reads this
    {
      && root.Some? && root.value.managed == target && root.value.local == items && stage.None?
      && (if existed then backup.Some? && backup.value.local == map[] else backup.None?)
    }

    ghost predicate Staged()
      reads this
    {
      stage == Some(Dir(target, map[]))
    }

    /** What a journal in the given phase says about the directories. */
    ghost predicate Fits(j: Journal)
      reads this
    {
      && (Switching() ==> Local(stage).Keys <= j.unmanaged)
      && (Switched() ==> items.Keys <= j.unmanaged)
      && j.unmanaged <= items.Keys
      && (target == map[] ==> !Switched() && (Switching() ==> Local(stage) == map[]))
      && match j.phase
         case Prepared => (Untouched() && Staged()) || Switching()
         case BackedUp => Switching()
         case Promoting => (Switching() && Local(backup) == map[]) || Switched()
         case Installed => (Untouched() && Staged() && (disturbed || (root.Some? && Managed(root) == target))) || (Switching() && target == map[] && Local(stage) == map[]) || Switched()
         case LocalChanged => disturbed && ((Untouched() && Staged()) || Switching() || Switched())
    }

    /** The original directory, wherever it is. */
    ghost function OriginalContent(): Files
      reads this
    {
      if backup.Some? then backup.value.managed else Managed(root)
    }

    ghost predicate Calm()
      reads this
    {
      !disturbed ==> (existed ==> OriginalContent() == prior) && (!existed ==> prior == map[])
    }

    /** The original is as its writer left it. */
    ghost predicate AsLeft()
      reads this
    {
      (existed ==> OriginalContent() == Left(writer, clock, prior)) && (disturbed <==> existed && Wrote(writer, clock))
    }

    ghost predicate Inv()
      reads this
    {
      && AsLeft()
      && Calm() && (!existed ==> prior == map[] && !disturbed)
      && match slot
         case Missing => Untouched()
         case Torn => Untouched()
         case Saved(j) => Fits(j)
    }

    // ------------------------------------------------------------ environment

    method Attempt() returns (e: End, f: Call)
      modifies `calls
      ensures f == adapter(old(calls)) && calls == old(calls) + 1 && e == if f.stops then Stopped else Finished
    {
      f, calls := adapter(calls), calls + 1;
      e := if f.stops then Stopped else Finished;
    }

    /** Meanwhile a call has been stopped. */
    twostate predicate CallStopped()
      reads `calls
    {
      calls >= old(calls) && !Smooth(adapter, old(calls), calls)
    }

    /** The original is back in the live place, as its writer has left it, with all its items. */
    ghost predicate Restored()
      reads this
    {
      Untouched() && (existed ==> Managed(root) == Left(writer, clock, prior))
    }

    /** The writer has written at the last instant. */
    ghost predicate JustWritten()
      reads `clock
    {
      clock > 0 && writer(clock - 1).Some?
    }

    /** An original that is set aside is still the prior one. */
    ghost predicate OriginalKept()
      reads `backup
    {
      backup.Some? ==> Managed(backup) == prior
    }

    /** The next instant of a late writer, who may change managed files of the original directory. */
    method Write()
      requires Inv()
      modifies `root, `backup, `disturbed, `clock
      ensures Inv() && Local(root) == old(Local(root)) && Local(backup) == old(Local(backup))
      ensures root.Some? == old(root).Some? && backup.Some? == old(backup).Some?
      ensures existed && backup.Some? ==> root == old(root)
      ensures !existed ==> root == old(root) && backup == old(backup)
      ensures old(disturbed) ==> disturbed
      ensures !disturbed ==> root == old(root) && backup == old(backup)
      ensures clock == old(clock) + 1 && (writer(old(clock)).None? ==> root == old(root) && backup == old(backup))
      ensures forall j :: old(Fits(j)) ==> Fits(j)
    {
      hide Left, Wrote, Split;
      var edit := writer(clock);
      NextInstant(writer, clock, prior);
      clock := clock + 1;
      if edit.Some? && existed {
        var content := edit.value;
        if backup.Some? {
          backup, disturbed := Some(backup.value.(managed := content)), true;
        } else {
          root, disturbed := Some(root.value.(managed := content)), true;
        }
      }
    }

    /** `persist`, as the record files allow it (PackageRecords). */
    method Persist(j: Journal) returns (e: End)
      requires Inv() && Fits(j)
      modifies `slot, `calls
      ensures Inv() && SlotAfter(old(slot), slot, j, e) && calls == old(calls) + 1 && (e.Stopped? ==> CallStopped())
    {
      var f;
      e, f := Attempt();
      if e.Finished? || f.happens {
        slot := Saved(j);
      } else if slot.Missing? && f.tears {
        slot := Torn;
      }
    }

    // --------------------------------------------------------- the item moves

    /** One item from the backup to the stage, by a rename. */
    method MoveToStage(name: string, ghost j: Journal) returns (e: End)
      requires Inv() && slot == Saved(j) && Switching() && name in j.unmanaged && name in Local(backup)
      requires (j.phase == Prepared || j.phase == BackedUp) && target != map[]
      modifies `stage, `backup, `calls
      ensures Inv() && Switching() && !e.Refused? && calls == old(calls) + 1 && (e.Stopped? ==> CallStopped())
      ensures OriginalContent() == old(OriginalContent())
      ensures e.Finished? ==> Local(backup) == old(Local(backup)) - {name}
    {
      var f;
      e, f := Attempt();
      if e.Finished? || f.happens {
        SplitMove(Local(backup), Local(stage), items, name);
        stage := Some(stage.value.(local := stage.value.local[name := backup.value.local[name]]));
        backup := Some(backup.value.(local := backup.value.local - {name}));
      }
    }

    /** One item back from the stage to the backup. */
    method MoveBack(name: string, ghost j: Journal) returns (e: End)
      requires Inv() && slot == Saved(j) && Switching() && name in Local(stage) && j.phase.LocalChanged?
      modifies `stage, `backup, `calls
      ensures Inv() && Switching() && !e.Refused? && calls == old(calls) + 1 && (e.Stopped? ==> CallStopped())
      ensures OriginalContent() == old(OriginalContent())
      ensures e.Finished? ==> Local(stage) == old(Local(stage)) - {name}
    {
      var f;
      e, f := Attempt();
      if e.Finished? || f.happens {
        SplitSwap(Local(backup), Local(stage), items);
        SplitMove(Local(stage), Local(backup), items, name);
        SplitSwap(Local(stage) - {name}, Local(backup)[name := Local(stage)[name]], items);
        backup := Some(backup.value.(local := backup.value.local[name := stage.value.local[name]]));
        stage := Some(stage.value.(local := stage.value.local - {name}));
      }
    }

    /** `moveUnmanaged`: afterwards every item is in the stage. No check fails on the way. */
    method MoveUnmanaged(j: Journal) returns (e: End)
      requires Inv() && slot == Saved(j) && Switching() && Local(backup).Keys <= j.unmanaged
      requires (j.phase == Prepared || j.phase == BackedUp || j.phase == Promoting) && target != map[]
      modifies this
      ensures Inv() && Switching() && slot == Saved(j) && !e.Refused? && (old(disturbed) ==> disturbed)
      ensures calls >= old(calls) && (e.Stopped? ==> CallStopped())
      ensures e.Finished? ==> Local(backup) == map[] && Local(stage) == items
    {
      var left := j.unmanaged;
      while left != {}
        invariant left <= j.unmanaged && Inv() && Switching() && slot == Saved(j) && (old(disturbed) ==> disturbed) && calls >= old(calls)
        invariant Local(backup).Keys <= left
      {
        var name: string :| name in left;
        Write();
        var hasSource, hasDestination := name in Local(backup), name in Local(stage);
        ItemSomewhere(name, j);
        if hasSource && hasDestination {
          return Refused;
        }
        if !hasSource && !hasDestination {
          return Refused;
        }
        if hasSource {
          :- MoveToStage(name, j);
        }
        left := left - {name};
      }
      if existed {
        SplitAll(Local(backup), Local(stage), items);
      }
      e := Persist(j);
    }

    /** An item named by the journal is in exactly one of the two directories. */
    lemma ItemSomewhere(name: string, j: Journal)
      requires Inv() && Fits(j) && Switching() && name in j.unmanaged
      ensures (name in Local(backup)) != (name in Local(stage))
    {
      if existed {
        assert name in Local(backup) + Local(stage);
      }
    }

    // ---------------------------------------------------------------- restore

    /** Rename the new live directory back to the stage. */
    method Demote(ghost j: Journal) returns (e: End)
      requires Inv() && slot == Saved(j) && j.phase.LocalChanged? && Switched() && existed
      modifies `root, `stage, `calls
      ensures Inv() && !e.Refused? && calls == old(calls) + 1 && (e.Stopped? ==> CallStopped()) && OriginalContent() == old(OriginalContent())
      ensures e.Finished? ==> Switching()
    {
      var f;
      e, f := Attempt();
      if e.Finished? || f.happens {
        root, stage := None, root;
        assert map[] + items == items;
      }
    }

    /** Rename the original back to the live place. */
    method Reinstate(ghost j: Journal) returns (e: End)
      requires Inv() && slot == Saved(j) && (j.phase.LocalChanged? || j.phase.Prepared?)
      requires Switching() && existed && Local(stage) == map[]
      modifies `root, `backup, `calls
      ensures Inv() && !e.Refused? && calls == old(calls) + 1 && (e.Stopped? ==> CallStopped()) && OriginalContent() == old(OriginalContent())
      ensures e.Finished? ==> Untouched() && Staged() && Managed(root) == old(Managed(backup))
    {
      var f;
      e, f := Attempt();
      if e.Finished? || f.happens {
        SplitSwap(Local(backup), Local(stage), items);
        SplitAll(Local(stage), Local(backup), items);
        root, backup := backup, None;
      }
    }

    /** Every item back to the original. */
    method ReturnItems(j: Journal) returns (e: End)
      requires Inv() && slot == Saved(j) && j.phase.LocalChanged? && Switching() && existed
      modifies this
      ensures Inv() && slot == Saved(j) && disturbed && !e.Refused?
      ensures calls >= old(calls) && (e.Stopped? ==> CallStopped())
      ensures e.Finished? ==> Switching() && Local(stage) == map[]
    {
      var left := j.unmanaged;
      while left != {}
        invariant left <= j.unmanaged && Inv() && Switching() && slot == Saved(j) && calls >= old(calls)
        invariant Local(stage).Keys <= left
      {
        var name: string :| name in left;
        Write();
        if name in Local(stage) {
          ItemSomewhere(name, j);
          if name in Local(backup) {
            return Refused;
          }
          :- MoveBack(name, j);
        }
        left := left - {name};
      }
      assert Local(stage) == map[];
      e := Finished;
    }

    /**
     `restoreChangedOriginal`: once the change of authority is on record the
     original, as the writer left it, goes back to the live place with every
     item. No check fails on the way.
     */
    method RestoreChanged(j: Journal) returns (e: End)
      requires Inv() && disturbed && existed && slot.Saved? && j.unmanaged == slot.journal.unmanaged
      modifies this
      ensures Inv() && disturbed && slot.Saved? && !e.Refused?
      ensures calls >= old(calls) && (e.Stopped? ==> CallStopped())
      ensures e.Finished? ==> Untouched() && Staged() && slot.Saved? && slot.journal.phase == LocalChanged
      ensures e.Finished? ==> root == Some(Dir(Left(writer, clock, prior), items))
    {
      var changed := j.(phase := LocalChanged);
      :- Persist(changed);
      Write();
      if backup.None? {
        return if root.Some? then Finished else Refused;
      }
      if root.Some? {
        if Managed(root) != target || stage.Some? {
          return Refused;
        }
        :- Demote(changed);
        if Managed(stage) != target {
          return Refused;
        }
      }
      :- ReturnItems(changed);
      if root.Some? {
        return Refused;
      }
      :- Reinstate(changed);
      e := Persist(changed);
    }

    /** `guardOriginal`: a changed original takes the live place back, and the call is refused. */
    method GuardOriginal(j: Journal) returns (e: End)
      requires Inv() && slot.Saved? && j.unmanaged == slot.journal.unmanaged
      modifies this
      ensures Inv() && slot.Saved? && (old(disturbed) ==> disturbed)
      ensures calls >= old(calls) && (e.Stopped? ==> CallStopped())
      ensures !disturbed ==> !e.Refused?
      ensures e.Refused? ==> Restored() && slot.journal.phase == LocalChanged
      ensures e.Finished? ==> OriginalKept() && clock == old(clock) + 1
      ensures e.Finished? ==> slot == old(slot) && Local(root) == old(Local(root)) && Local(stage) == old(Local(stage)) && Local(backup) == old(Local(backup))
      ensures e.Finished? ==> stage == old(stage) && root.Some? == old(root).Some? && backup.Some? == old(backup).Some?
      ensures e.Finished? ==> backup.Some? ==> root == old(root) && Managed(backup) == prior
      ensures e.Finished? ==> forall k :: old(Fits(k)) ==> Fits(k)
    {
      Write();
      if backup.Some? && Managed(backup) != prior {
        var _ :- Attempt();
        :- RestoreChanged(j);
        return Refused;
      }
      e := Finished;
    }

    // ---------------------------------------------------------------- promote

    /** The new directory is live with every item, or the package was retired. */
    ghost predicate Landed()
      reads this
    {
      && slot.Saved? && slot.journal.phase == Installed
      && (root == Some(Dir(target, items))
          || (target == map[] && root.None? && (existed ==> Local(backup) == items)))
    }

    /** Rename the stage to the live place. */
    method Promote(ghost j: Journal) returns (e: End)
      requires Inv() && slot == Saved(j) && j.phase.Promoting? && Switching() && Local(backup) == map[] && target != map[]
      modifies `root, `stage, `calls
      ensures Inv() && !e.Refused? && calls == old(calls) + 1 && (e.Stopped? ==> CallStopped()) && (existed ==> OriginalContent() == old(OriginalContent()))
      ensures e.Finished? ==> Switched()
    {
      var f;
      e, f := Attempt();
      if existed {
        SplitAll(Local(backup), Local(stage), items);
      }
      if e.Finished? || f.happens {
        root, stage := stage, None;
      }
    }

    /** From the moved items to the installed package; both `install` and `recover` end like this. */
    method PromoteAndInstall(j: Journal) returns (e: End)
      requires Inv() && slot == Saved(j) && Switching() && Local(backup) == map[] && Local(stage) == items && target != map[]
      modifies this
      ensures Inv() && (old(disturbed) ==> disturbed) && (!disturbed ==> !e.Refused?)
      ensures calls >= old(calls) && (e.Stopped? ==> CallStopped())
      ensures e.Finished? ==> slot.Saved? && slot.journal.phase == Installed && root == Some(Dir(target, items)) && OriginalKept()
      ensures e.Refused? ==> Restored()
    {
      var promoting := j.(phase := Promoting);
      :- Persist(promoting);
      Write();
      :- Promote(promoting);
      Write();
      if Managed(root) != target {
        return Refused;
      }
      :- GuardOriginal(promoting);
      e := Persist(promoting.(phase := Installed));
    }

    // ---------------------------------------------------------------- install

    /** Set the original aside; a writer that raced the rename gets it back. */
    method SetAside(ghost j: Journal) returns (e: End)
      requires Inv() && slot == Saved(j) && j.phase.Prepared? && Untouched() && Staged() && existed
      modifies `root, `backup, `disturbed, `clock, `calls
      ensures Inv() && (old(disturbed) ==> disturbed) && (!disturbed ==> !e.Refused?)
      ensures calls >= old(calls) && (e.Stopped? ==> CallStopped())
      ensures e.Finished? ==> Switching() && Local(stage) == map[] && Local(backup) == items && OriginalKept()
      ensures e.Refused? ==> Restored()
    {
      var f;
      e, f := Attempt();
      if e.Finished? || f.happens {
        assert items + map[] == items;
        root, backup := None, root;
      }
      if e.IsFailure() {
        return;
      }
      Write();
      if Managed(backup) != prior {
        if root.None? {
          :- Reinstate(j);
        }
        return Refused;
      }
    }

    /** The switch itself, once the stage is on record. */
    method Switch(prepared: Journal) returns (e: End)
      requires Inv() && slot == Saved(prepared) && prepared == Journal(Prepared, items.Keys) && Untouched() && Staged()
      modifies this
      ensures Inv() && (old(disturbed) ==> disturbed) && (!disturbed ==> !e.Refused?)
      ensures calls >= old(calls) && (e.Stopped? ==> CallStopped())
      ensures e.Finished? ==> Landed() && OriginalKept()
      ensures e.Refused? ==> Restored()
    {
      hide Left, Wrote, Split;
      e := Finished;
      if root.Some? {
        :- SetAside(prepared);
      }
      var j := Journal(BackedUp, prepared.unmanaged + Local(backup).Keys);
      :- Persist(j);
      if target == map[] {
        e := Persist(j.(phase := Installed));
        return;
      }
      :- MoveUnmanaged(j);
      :- GuardOriginal(j);
      if root.Some? {
        return Refused;
      }
      e := PromoteAndInstall(j);
    }

    /** Observe the original, stage the target, and observe the original again. */
    method Stage() returns (e: End)
      requires Inv() && slot.Missing? && stage.None?
      modifies `root, `stage, `backup, `disturbed, `clock, `calls
      ensures Inv() && (old(disturbed) ==> disturbed) && (!disturbed ==> !e.Refused?) && Untouched()
      ensures calls >= old(calls) && (e.Stopped? ==> CallStopped())
      ensures e.Finished? ==> Staged()
      ensures existed && Left(writer, old(clock) + 1, prior) != prior ==> !e.Finished? && stage.None?
      ensures existed && Left(writer, old(clock) + 2, prior) != prior ==> !e.Finished?
    {
      hide Left, Wrote, Split;
      e := Finished;
      var _ :- Attempt();
      Write();
      if Managed(root) != prior {
        return Refused;
      }
      var _ :- Attempt();
      stage := Some(Dir(target, map[]));
      Write();
      if Managed(root) != prior {
        return Refused;
      }
    }

    /**
     `install` for one package whose prior state was observed as `prior`. The
     stage is private until the first journal record is durable; an original
     that has changed by then is left alone, and nothing is recorded.
     */
    method Install() returns (e: End)
      requires Inv() && slot.Missing? && stage.None?
      modifies this
      ensures Inv() && (!disturbed && !old(disturbed) ==> !e.Refused?)
      ensures calls >= old(calls) && (e.Stopped? ==> CallStopped())
      ensures e.Finished? ==> Landed() && OriginalKept()
      ensures e.Refused? ==> Restored()
      ensures existed && Left(writer, old(clock) + 1, prior) != prior ==> !e.Finished? && slot.Missing? && stage.None? && Restored()
      ensures existed && Left(writer, old(clock) + 2, prior) != prior ==> !e.Finished? && slot.Missing? && Restored()
    {
      hide Left, Wrote, Split;
      e := Finished;
      :- Stage();
      var j := Journal(Prepared, items.Keys);
      :- Persist(j);
      e := Switch(j);
    }

    // ---------------------------------------------------------------- recover

    /** How a finished recovery leaves an undisturbed package. */
    ghost predicate Recovered()
      reads this
    {
      || Landed()
      || (slot.Missing? && Untouched() && (existed ==> root == Some(Dir(prior, items))))
    }

    /** The rest of `recover` once the original is known to be set aside. */
    method Resume(j: Journal) returns (e: End)
      requires Inv() && slot == Saved(j) && (j.phase == Prepared || j.phase == BackedUp || j.phase == Promoting) && Switching()
      modifies this
      ensures Inv() && (old(disturbed) ==> disturbed) && (!disturbed ==> !e.Refused?)
      ensures calls >= old(calls) && (e.Stopped? ==> CallStopped())
      ensures e.Finished? ==> Landed() && OriginalKept()
      ensures e.Refused? ==> Restored() || JustWritten()
    {
      hide Left, Wrote;
      e := Finished;
      :- GuardOriginal(j);
      Write();
      if Managed(backup) != prior || Managed(stage) != target {
        return Refused;
      }
      if target == map[] {
        e := Persist(j.(phase := Installed));
        return;
      }
      var moving := j.(unmanaged := j.unmanaged + Local(backup).Keys);
      :- Persist(moving);
      :- MoveUnmanaged(moving);
      :- GuardOriginal(moving);
      e := PromoteAndInstall(moving);
    }

    /** The target is live already: unless the original has changed, that is put on record. */
    method Vouch(j: Journal) returns (e: End)
      requires Inv() && slot == Saved(j) && (j.phase == Prepared || j.phase == BackedUp || j.phase == Promoting)
      requires root.Some? && Managed(root) == target
      modifies this
      ensures Inv() && (old(disturbed) ==> disturbed) && (!disturbed ==> !e.Refused?)
      ensures calls >= old(calls) && (e.Stopped? ==> CallStopped())
      ensures e.Finished? ==> slot.Saved? && slot.journal.phase == Installed && OriginalKept() && (!disturbed ==> Landed())
      ensures e.Finished? && !disturbed ==> root == Some(Dir(target, items))
      ensures e.Refused? ==> Restored()
    {
      hide Left, Wrote;
      :- GuardOriginal(j);
      e := Persist(j.(phase := Installed));
    }

    /** The rest of `recover` for a switch that is neither installed nor reversed. */
    method GoOn(j: Journal) returns (e: End, handled: bool)
      requires Inv() && slot == Saved(j) && (j.phase == Prepared || j.phase == BackedUp || j.phase == Promoting)
      modifies this
      ensures Inv() && (old(disturbed) ==> disturbed) && (!disturbed ==> !e.Refused?)
      ensures calls >= old(calls) && (e.Stopped? ==> CallStopped())
      ensures e.Finished? ==> (slot.Missing? && Untouched()) || (slot.Saved? && slot.journal.phase == Installed && OriginalKept())
      ensures e.Finished? && !disturbed ==> Recovered()
      ensures e.Refused? ==> Restored() || JustWritten()
      ensures e.Finished? ==> (handled ==> slot.Saved? && (!disturbed ==> root == Some(Dir(target, items))))
      ensures e.Finished? && slot.Saved? && target != map[] ==> handled
    {
      hide Left, Wrote;
      handled := false;
      var _ :- Attempt();
      Write();
      if Managed(root) == target && root.Some? {
        e := Vouch(j);
        handled := true;
        return;
      }
      if j.phase.Prepared? && backup.None? && root.Some? {
        var f;
        e, f := Attempt();
        if e.Finished? || f.happens {
          slot := Missing;
        }
        return;
      }
      if root.Some? {
        return Refused, false;
      }
      e := Resume(j);
      handled := target != map[];
    }

    /**
     `recover` for one package. Undisturbed, no check refuses, and when it
     finishes the live directory is the target with every item, or the original
     untouched. `handled` vouches for the target being live.
     */
    method Recover() returns (e: End, handled: bool)
      requires Inv()
      modifies this
      ensures Inv() && (old(disturbed) ==> disturbed)
      ensures !disturbed && !old(slot).Torn? ==> !e.Refused?
      ensures old(slot).Torn? ==> e.Refused? && slot.Torn? && Untouched()
      ensures e.Finished? && !disturbed ==> Recovered()
      ensures e.Finished? && slot.Saved? && slot.journal.phase == LocalChanged ==> root == Some(Dir(Left(writer, clock, prior), items)) && backup.None?
      ensures calls >= old(calls) && (e.Stopped? ==> CallStopped())
      ensures e.Finished? && slot.Saved? && slot.journal.phase == Installed ==> OriginalKept()
      ensures e.Refused? && !old(slot).Torn? ==> Restored() || JustWritten()
      ensures old(slot.Saved? && slot.journal.phase == Installed && backup.Some?) && Left(writer, old(clock) + 1, prior) != prior ==> !e.Finished?
      ensures e.Finished? && slot.Saved? && slot.journal.phase == Installed && target != map[] && Managed(root) == target ==> handled
      ensures e.Finished? && handled ==> slot.Saved? && slot.journal.phase == Installed && (!disturbed ==> root == Some(Dir(target, items)))
    {
      hide Left, Wrote;
      handled := false;
      if slot.Missing? {
        return Finished, false;
      }
      if slot.Torn? {
        return Refused, false;
      }
      var j := slot.journal;
      if j.phase.LocalChanged? {
        if backup.Some? {
          var _ :- Attempt();
          :- RestoreChanged(j);
        }
        return Finished, false;
      }
      if j.phase.Installed? {
        :- GuardOriginal(j);
        handled := target != map[] && Managed(root) == target;
        return Finished, handled;
      }
      e, handled := GoOn(j);
    }
  }

  /** At every point of every run: the original as its writer left it, the items and the staged target are all still there. */
  lemma NothingLost(p: Package)
    requires p.Inv()
    ensures p.existed ==> var left := Left(p.writer, p.clock, p.prior); Managed(p.backup) == left || Managed(p.root) == left
    ensures p.existed && !p.disturbed ==> Managed(p.backup) == p.prior || Managed(p.root) == p.prior
    ensures p.slot.Saved? ==> Managed(p.stage) == p.target || Managed(p.root) == p.target
    ensures forall name :: name in p.items ==>
              || (name in Local(p.root) && Local(p.root)[name] == p.items[name])
              || (name in Local(p.backup) && Local(p.backup)[name] == p.items[name])
              || (name in Local(p.stage) && Local(p.stage)[name] == p.items[name])
  {
    forall name | name in p.items && p.Switching()
      ensures name in Local(p.backup) || name in Local(p.stage)
    {
      assert p.existed && name in Local(p.backup) + Local(p.stage);
    }
  }

  /**
   An installation that is interrupted anywhere, and as many recoveries as it
   takes: each that does not finish has met a call that was stopped.
   */
  method InstallThenRecover(p: Package, attempts: nat) returns (e: End)
    requires p.Inv() && p.slot.Missing? && p.stage.None? && !p.disturbed
    modifies p
    ensures p.Inv() && p.calls >= old(p.calls)
    ensures !p.disturbed && e.Finished? ==> p.Recovered()
    ensures !p.disturbed && e.Refused? ==> p.slot.Torn?
    ensures e.Stopped? ==> Stops(p.adapter, old(p.calls), p.calls) > attempts
  {
    e := p.Install();
    StopsMore(p.adapter, old(p.calls), old(p.calls), p.calls);
    var left := attempts;
    while e.Stopped? && left > 0
      invariant p.Inv() && p.calls >= old(p.calls) && left <= attempts
      invariant !p.disturbed && e.Finished? ==> p.Recovered()
      invariant !p.disturbed && e.Refused? ==> p.slot.Torn?
      invariant e.Stopped? ==> Stops(p.adapter, old(p.calls), p.calls) > attempts - left
    {
      ghost var before := p.calls;
      var next, _ := p.Recover();
      StopsMore(p.adapter, old(p.calls), before, p.calls);
      e := next;
      left := left - 1;
    }
  }
}
