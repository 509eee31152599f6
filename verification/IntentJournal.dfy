/**
 The journal of observed changes (plugin/src/intent-journal.ts:7, 18-28).
 */
module IntentJournal {
  import opened Wrappers
  import opened Paths
  import opened FileMatching
  import opened Environment

  // Recording runs one change at a time, but a flush may run beside it; the
  // methods are the stretches between two awaits.

  datatype Kind = Create | Modify | Delete | MoveKind | Observe

  datatype Intent = Intent(id: nat, sequence: nat, kind: Kind, entity: EntityKind, path: Path, from: Option<Path>, target: Option<Id>)

  function Highest(events: seq<Intent>): (r: nat)
    ensures forall e :: e in events ==> e.sequence <= r
    ensures r > 0 ==> exists e :: e in events && e.sequence == r
  {
    if events == [] then 0
    else
      var rest := Highest(events[..|events| - 1]);
      var last := events[|events| - 1];
      assert forall e :: e in events <==> e in events[..|events| - 1] || e == last;
      if last.sequence > rest then last.sequence else rest
  }

  /** `events.filter(event => event.sequence > sequence)` */
  function Above(events: seq<Intent>, sequence: nat): (r: seq<Intent>)
    ensures forall e :: e in r <==> e in events && e.sequence > sequence
  {
    if events == [] then []
    else
      var last := events[|events| - 1];
      assert forall e :: e in events <==> e in events[..|events| - 1] || e == last;
      Above(events[..|events| - 1], sequence) + if last.sequence > sequence then [last] else []
  }

  /** `left` holds the events at these ascending positions. */
  ghost predicate Picks(events: seq<Intent>, left: seq<Intent>, was: seq<nat>) {
    && |was| == |left|
    && (forall k :: 0 <= k < |was| ==> was[k] < |events| && left[k] == events[was[k]])
    && forall j, k :: 0 <= j < k < |was| ==> was[j] < was[k]
  }

  lemma PicksMore(events: seq<Intent>, left: seq<Intent>, was: seq<nat>, e: Intent)
    requires Picks(events, left, was)
    ensures Picks(events + [e], left, was) && Picks(events + [e], left + [e], was + [|events|])
  {
  }

  /** What is left keeps its order. */
  lemma {:induction false} AboveInOrder(events: seq<Intent>, sequence: nat) returns (was: seq<nat>)
    ensures Picks(events, Above(events, sequence), was)
  {
    was := [];
    if events != [] {
      var n := |events| - 1;
      was := AboveInOrder(events[..n], sequence);
      assert events == events[..n] + [events[n]];
      PicksMore(events[..n], Above(events[..n], sequence), was, events[n]);
      hide Picks;
      if events[n].sequence > sequence {
        was := was + [n];
      }
    }
  }

  /** `events.filter(event => event.sequence <= sequence)` */
  function UpTo(events: seq<Intent>, sequence: nat): (r: seq<Intent>)
    ensures forall e :: e in r <==> e in events && e.sequence <= sequence
  {
    if events == [] then []
    else
      var last := events[|events| - 1];
      assert forall e :: e in events <==> e in events[..|events| - 1] || e == last;
      UpTo(events[..|events| - 1], sequence) + if last.sequence <= sequence then [last] else []
  }

  predicate IsAbout(e: Intent, path: Path, entity: EntityKind) {
    e.path == path && e.entity == entity
  }

  /** The last intent about the path. */
  function LastAt(events: seq<Intent>, path: Path, entity: EntityKind): (r: Option<Intent>)
    ensures r.Some? ==> exists i :: 0 <= i < |events| && r.value == events[i] && IsAbout(events[i], path, entity)
                                    && forall j :: i < j < |events| ==> !IsAbout(events[j], path, entity)
    ensures r.None? ==> forall i :: 0 <= i < |events| ==> !IsAbout(events[i], path, entity)
  {
    if events == [] then None
    else
      var last := events[|events| - 1];
      assert forall e :: e in events <==> e in events[..|events| - 1] || e == last;
      if IsAbout(last, path, entity) then Some(last) else LastAt(events[..|events| - 1], path, entity)
  }

  ghost predicate NoDuplicates(events: seq<Intent>) {
    forall i, j :: 0 <= i < j < |events| ==> events[i] != events[j]
  }

  /** Remove an intent from a list. */
  function Without(intents: seq<Intent>, e: Intent): (r: seq<Intent>)
    ensures forall f :: f in r <==> f in intents && f != e
    ensures |r| <= |intents| && (e in intents ==> |r| < |intents|)
  {
    if intents == [] then []
    else
      var last := intents[|intents| - 1];
      assert forall f :: f in intents <==> f in intents[..|intents| - 1] || f == last;
      Without(intents[..|intents| - 1], e) + if last == e then [] else [last]
  }

  lemma AppendDuplicates(events: seq<Intent>, e: Intent)
    requires NoDuplicates(events)
    ensures NoDuplicates(events + [e]) <==> e !in events
  {
    var all := events + [e];
    if e in events {
      var i :| 0 <= i < |events| && events[i] == e;
      assert all[i] == all[|events|];
    }
  }

  type Disk = map<nat, Intent>

  /** Every intent the journal still knows: listed, pending or being written. */
  ghost function Known(events: seq<Intent>, pending: seq<Intent>, writing: Option<Intent>): (r: set<Intent>)
    ensures forall e :: e in r <==> e in events || e in pending || writing == Some(e)
  {
    (set e | e in events) + (set e | e in pending) + (if writing.Some? then {writing.value} else {})
  }

  /** Known and stored intents, all told. */
  ghost function Universe(known: set<Intent>, disk: Disk): set<Intent> {
    known + disk.Values
  }

  ghost predicate Unique(all: set<Intent>) {
    forall e, f :: e in all && f in all && (e.sequence == f.sequence || e.id == f.id) ==> e == f
  }

  ghost predicate Numbered(all: set<Intent>, sequence: nat, minted: nat) {
    forall e :: e in all ==> 0 < e.sequence <= sequence && e.id < minted
  }

  /** Durable, unless acknowledged. */
  ghost predicate Settled(e: Intent, disk: Disk, acknowledged: nat) {
    e.sequence <= acknowledged || (e.id in disk && disk[e.id] == e)
  }

  ghost predicate AllSettled(events: seq<Intent>, disk: Disk, acknowledged: nat) {
    forall e :: e in events ==> Settled(e, disk, acknowledged)
  }

  /** What is stored is known, or was acknowledged. */
  ghost predicate StoredKnown(disk: Disk, known: set<Intent>, acknowledged: nat) {
    forall id :: id in disk ==> disk[id].id == id && (disk[id] in known || disk[id].sequence <= acknowledged)
  }

  lemma AppendSettled(events: seq<Intent>, disk: Disk, acknowledged: nat, e: Intent)
    requires AllSettled(events, disk, acknowledged) && Settled(e, disk, acknowledged)
    ensures AllSettled(events + [e], disk, acknowledged)
  {
  }

  lemma StoredSettled(disk: Disk, acknowledged: nat, e: Intent)
    requires e.id in disk && disk[e.id] == e
    ensures Settled(e, disk, acknowledged)
  {
  }

  /** Removing acknowledged records leaves everything else settled. */
  lemma SettledFewer(events: seq<Intent>, less: seq<Intent>, disk: Disk, smaller: Disk, before: nat, after: nat)
    requires AllSettled(events, disk, before) && before <= after && forall e :: e in less ==> e in events
    requires forall id :: id in disk && disk[id].sequence > after ==> id in smaller && smaller[id] == disk[id]
    ensures AllSettled(less, smaller, after)
    ensures forall e :: Settled(e, disk, before) ==> Settled(e, smaller, after)
  {
  }

  lemma StoredFewer(disk: Disk, smaller: Disk, known: set<Intent>, less: set<Intent>, before: nat, after: nat)
    requires StoredKnown(disk, known, before) && before <= after
    requires forall e :: e in known && e.sequence > after ==> e in less
    requires forall id :: id in smaller ==> id in disk && smaller[id] == disk[id]
    ensures StoredKnown(smaller, less, after)
  {
  }

  lemma UniverseStored(known: set<Intent>, disk: Disk, e: Intent)
    requires e in known
    ensures Universe(known, disk[e.id := e]) <= Universe(known, disk)
  {
    var after := disk[e.id := e];
    forall f | f in after.Values
      ensures f in Universe(known, disk)
    {
      var id :| id in after && after[id] == f;
      if id != e.id {
        assert disk[id] in disk.Values;
      }
    }
  }

  lemma UniverseFewer(known: set<Intent>, less: set<Intent>, disk: Disk, smaller: Disk)
    requires less <= known && forall id :: id in smaller ==> id in disk && smaller[id] == disk[id]
    ensures Universe(less, smaller) <= Universe(known, disk)
  {
    forall f | f in smaller.Values
      ensures f in disk.Values
    {
      var id :| id in smaller && smaller[id] == f;
      assert disk[id] in disk.Values;
    }
  }

  lemma SmallerUniverse(all: set<Intent>, less: set<Intent>, sequence: nat, minted: nat)
    requires less <= all && Unique(all) && Numbered(all, sequence, minted)
    ensures Unique(less) && Numbered(less, sequence, minted)
  {
  }

  lemma NewIntent(known: set<Intent>, disk: Disk, sequence: nat, minted: nat, e: Intent)
    requires Unique(Universe(known, disk)) && Numbered(Universe(known, disk), sequence, minted)
    requires e.sequence == sequence + 1 && e.id == minted
    ensures Unique(Universe(known + {e}, disk)) && Numbered(Universe(known + {e}, disk), sequence + 1, minted + 1)
  {
    assert Universe(known + {e}, disk) == Universe(known, disk) + {e};
  }

  /** Ascending numbers. */
  ghost predicate Ascending(events: seq<Intent>) {
    forall i, j :: 0 <= i < j < |events| ==> events[i].sequence <= events[j].sequence
  }

  /** `e` among the events by its number, behind those of the same number. */
  function Insert(events: seq<Intent>, e: Intent): (r: seq<Intent>)
    ensures forall f :: f in r <==> f in events || f == e
  {
    if events == [] then [e]
    else
      var last := events[|events| - 1];
      assert forall f :: f in events <==> f in events[..|events| - 1] || f == last;
      if last.sequence <= e.sequence then events + [e] else Insert(events[..|events| - 1], e) + [last]
  }

  lemma {:induction false} InsertAscending(events: seq<Intent>, e: Intent)
    requires Ascending(events)
    ensures Ascending(Insert(events, e))
  {
    if events != [] && events[|events| - 1].sequence > e.sequence {
      var init, last := events[..|events| - 1], events[|events| - 1];
      InsertAscending(init, e);
      var rest := Insert(init, e);
      forall i | 0 <= i < |rest|
        ensures rest[i].sequence <= last.sequence
      {
        assert rest[i] in rest;
        assert rest[i] != e ==> rest[i] in init;
      }
    }
  }

  lemma KnownHas(events: seq<Intent>, pending: seq<Intent>, writing: Option<Intent>)
    ensures forall e :: e in Known(events, pending, writing) <==> e in events || e in pending || writing == Some(e)
  {
  }

  lemma ListedUniverse(known: set<Intent>, disk: Disk, listed: seq<Intent>)
    requires forall e :: e in known <==> e in listed
    requires forall e :: e in listed <==> e in disk.Values
    ensures forall e :: e in Universe(known, disk) <==> e in listed
  {
  }

  /** No record but those of `gone` is missing or changed. */
  ghost predicate Keeps(before: Disk, after: Disk, gone: seq<Intent>) {
    forall id :: id in before && before[id] !in gone ==> id in after && after[id] == before[id]
  }

  lemma KeepsOn(first: Disk, second: Disk, third: Disk, gone: seq<Intent>)
    requires Keeps(first, second, gone) && Keeps(second, third, gone)
    ensures Keeps(first, third, gone)
  {
  }

  ghost predicate Gone(events: seq<Intent>, disk: Disk) {
    forall e :: e in events ==> e.id !in disk
  }

  lemma NothingGone(disk: Disk, gone: seq<Intent>)
    ensures Gone([], disk) && Keeps(disk, disk, gone)
  {
  }

  lemma GoneNext(events: seq<Intent>, i: nat, disk: Disk)
    requires i < |events| && Gone(events[..i], disk) && events[i].id !in disk
    ensures Gone(events[..i + 1], disk)
  {
    assert events[..i + 1] == events[..i] + [events[i]];
  }

  ghost function Ids(events: seq<Intent>): set<nat> {
    set e | e in events :: e.id
  }

  lemma NoIds()
    ensures Ids([]) == {} && forall e: Intent :: Ids([e]) == {e.id}
  {
  }

  lemma IdsMore(events: seq<Intent>, more: seq<Intent>)
    ensures Ids(events + more) == Ids(events) + Ids(more)
  {
  }

  lemma NumberedBy(all: set<Intent>, top: nat, sequence: nat, minted: nat)
    requires Numbered(all, top, minted) && forall e :: e in all ==> e.sequence <= sequence
    ensures Numbered(all, sequence, minted)
  {
  }

  class Journal {
    var events: seq<Intent>
    /** Recorded in memory, not known to be durable. */
    var pending: seq<Intent>
    /** The one change whose write is under way. */
    var writing: Option<Intent>
    var sequence: nat
    var frozen: nat
    var minted: nat
    /** The durable records. */
    var disk: Disk
    /** The highest number acknowledged so far. */
    ghost var acknowledged: nat
    /** How the removals of records end, one call after the other. */
    const adapter: Adapter
    var calls: nat
    /** The events chosen by acknowledgements; their records may go. */
    ghost var retiring: set<Intent>

    constructor (adapter: Adapter)
      ensures Inv() && events == [] && pending == [] && writing.None? && frozen == 0 && sequence == 0 && disk == map[]
      ensures this.adapter == adapter && calls == 0
    {
      this.adapter, calls := adapter, 0;
      events, pending, writing, sequence, frozen, minted, disk := [], [], None, 0, 0, 0, map[];
      acknowledged, retiring := 0, {};
    }

    ghost function Open(): set<Intent>
      reads this
    {
      Known(events, pending, writing)
    }

    ghost function Mine(): set<Intent>
      reads this
    {
      Open() + retiring
    }

    /**
     Numbers and identities are unique, nothing is numbered above the counter,
     every unacknowledged event is durable and every durable record is known.
     */
    ghost predicate Inv()
      reads this
    {
      && frozen <= sequence
      && (forall e :: e in retiring ==> e.sequence <= acknowledged)
      && Unique(Universe(Mine(), disk)) && Numbered(Universe(Mine(), disk), sequence, minted)
      && (writing.Some? ==> writing.value.sequence == sequence)
      && (writing.Some? ==> writing.value in pending || Settled(writing.value, disk, acknowledged))
      && AllSettled(events, disk, acknowledged)
      && StoredKnown(disk, Mine(), acknowledged)
    }

    // ---------------------------------------------------------------- record

    /**
     The synchronous part of `record`: repeat a modify that is still open, or
     number a new intent. Either way the number is above every number a
     snapshot has frozen.
     */
    method Begin(kind: Kind, path: Path, entity: EntityKind, from: Option<Path>, target: Option<Id>) returns (e: Intent, coalesced: bool)
      requires Inv() && writing.None?
      modifies this
      ensures Inv() && frozen == old(frozen) && events == old(events) && disk == old(disk) && acknowledged == old(acknowledged) && retiring == old(retiring)
      ensures e.sequence > frozen && e.path == path && e.entity == entity && e.kind == kind
      ensures calls == old(calls)
      ensures coalesced <==> kind.Modify? && var p := LastAt(events, path, entity); p.Some? && p.value.kind.Modify? && p.value.sequence > frozen
      ensures coalesced ==> e == LastAt(events, path, entity).value && e in events && sequence == old(sequence) && pending == old(pending) && writing.None?
      ensures !coalesced ==> e == Intent(old(minted), old(sequence) + 1, kind, entity, path, from, target) && sequence == e.sequence && writing == Some(e) && pending == old(pending) + [e]
      ensures minted == if coalesced then old(minted) else old(minted) + 1
    {
      hide Unique, Numbered, AllSettled, Universe;
      if kind.Modify? {
        var previous := LastAt(events, path, entity);
        if previous.Some? && previous.value.kind.Modify? && previous.value.sequence > frozen {
          return previous.value, true;
        }
      }
      e, coalesced := Intent(minted, sequence + 1, kind, entity, path, from, target), false;
      NewIntent(Mine(), disk, sequence, minted, e);
      ghost var before := Mine();
      sequence, minted := sequence + 1, minted + 1;
      pending, writing := pending + [e], Some(e);
      assert Mine() == before + {e};
    }

    /**
     The write has succeeded. The event is appended whether or not a flush has
     already appended it, so it is listed twice exactly when one has.
     */
    method End()
      requires Inv() && writing.Some?
      modifies this
      ensures Inv() && writing.None? && frozen == old(frozen) && sequence == old(sequence) && acknowledged == old(acknowledged) && retiring == old(retiring)
      ensures calls == old(calls)
      ensures events == old(events) + [old(writing).value] && minted == old(minted)
      ensures disk == old(disk) || disk == old(disk)[old(writing).value.id := old(writing).value]
      ensures forall e :: e in pending <==> e in old(pending) && e != old(writing).value
      ensures old(NoDuplicates(events)) ==> (NoDuplicates(events) <==> old(writing).value !in old(events))
    {
      hide Unique, Numbered, Universe, NoDuplicates, AllSettled, StoredKnown, Settled, Known;
      var e := writing.value;
      var written: bool := *;
      ghost var before := Mine();
      if e in pending || written {
        Store(e);
        StoredSettled(disk, acknowledged, e);
      }
      pending := Without(pending, e);
      if NoDuplicates(events) {
        AppendDuplicates(events, e);
      }
      AppendSettled(events, disk, acknowledged, e);
      events, writing := events + [e], None;
      assert Mine() == before;
    }

    /** A record becomes durable. */
    method Store(e: Intent)
      requires Inv() && e in Mine()
      modifies `disk
      ensures Inv() && disk == old(disk)[e.id := e]
    {
      hide Universe;
      UniverseStored(Mine(), disk, e);
      SmallerUniverse(Universe(Mine(), disk), Universe(Mine(), disk[e.id := e]), sequence, minted);
      SettledStored(e);
      disk := disk[e.id := e];
    }

    /** Storing a known intent takes no other one from the disk. */
    lemma SettledStored(e: Intent)
      requires Inv() && e in Mine()
      ensures AllSettled(events, disk[e.id := e], acknowledged) && StoredKnown(disk[e.id := e], Mine(), acknowledged)
      ensures writing.Some? ==> writing.value in pending || Settled(writing.value, disk[e.id := e], acknowledged)
    {
      forall f | f in Mine() && f.id == e.id
        ensures f == e
      {
        assert f in Universe(Mine(), disk) && e in Universe(Mine(), disk);
      }
    }

    /** The write has failed, perhaps after the record became durable: the intent stays pending. */
    method Fail()
      requires Inv() && writing.Some? && (writing.value in pending || writing.value in events)
      modifies `writing, `disk
      ensures Inv() && writing.None?
    {
      hide Unique, Numbered, Universe, AllSettled;
      var durable: bool := *;
      if durable {
        Store(writing.value);
      }
      ghost var before := Mine();
      writing := None;
      assert Mine() == before;
    }

    // ----------------------------------------------------------------- flush

    /** One turn of the loop in `flush`, once its write has succeeded. */
    method FlushOne(e: Intent)
      requires Inv() && e in pending
      modifies this
      ensures Inv() && frozen == old(frozen) && sequence == old(sequence) && acknowledged == old(acknowledged) && retiring == old(retiring)
      ensures writing == old(writing) && disk == old(disk)[e.id := e]
      ensures forall f :: f in events <==> f in old(events) || f == e
      ensures forall f :: f in pending <==> f in old(pending) && f != e
      ensures old(NoDuplicates(events)) ==> NoDuplicates(events)
    {
      hide Unique, Numbered, Universe, NoDuplicates, AllSettled, StoredKnown, Settled, Known;
      ghost var before := Mine();
      KnownHas(events, pending, writing);
      Store(e);
      StoredSettled(disk, acknowledged, e);
      AppendSettled(events, disk, acknowledged, e);
      if e !in events {
        if NoDuplicates(events) {
          AppendDuplicates(events, e);
        }
        events := events + [e];
      }
      pending := Without(pending, e);
      KnownHas(events, pending, writing);
      assert Mine() == before;
    }

    // -------------------------------------------------------------- snapshot

    /**
     The end of `snapshot`. Acknowledging the highest number returned covers
     nothing that was not returned, exactly when no intent still pending is
     numbered below it.
     */
    method Freeze() returns (snapshot: seq<Intent>)
      requires Inv()
      modifies `frozen
      ensures Inv() && frozen == sequence && snapshot == events && Highest(snapshot) <= frozen
      ensures (forall e :: e in Open() && e.sequence <= Highest(snapshot) ==> e in snapshot)
              <==> (forall e :: e in pending && e !in events ==> e.sequence > Highest(snapshot))
    {
      hide Unique, StoredKnown, AllSettled;
      WritingIsLast();
      frozen := sequence;
      snapshot := events;
    }

    /** The change being written bears the highest number of all. */
    lemma WritingIsLast()
      requires Inv()
      ensures Highest(events) <= sequence
      ensures forall e :: e in Open() && e.sequence <= Highest(events) && e !in events ==> e in pending
    {
      if Highest(events) > 0 {
        var f :| f in events && f.sequence == Highest(events);
        assert f in Universe(Mine(), disk);
      }
      forall e | e in Open() && e.sequence <= Highest(events) && e !in events
        ensures e in pending
      {
        assert e in Universe(Mine(), disk);
      }
    }

    // ----------------------------------------------------------- acknowledge

    /** The start of the removals: the events to go are chosen once. */
    method BeginAcknowledge(upTo: nat) returns (chosen: seq<Intent>)
      requires Inv()
      modifies `acknowledged, `retiring
      ensures Inv() && chosen == UpTo(events, upTo)
      ensures retiring == old(retiring) + set e | e in chosen
      ensures acknowledged == if upTo > old(acknowledged) then upTo else old(acknowledged)
    {
      hide Unique, Numbered, Universe, Known;
      chosen := UpTo(events, upTo);
      ghost var known, before := Mine(), acknowledged;
      KnownHas(events, pending, writing);
      retiring := retiring + set e | e in chosen;
      if upTo > acknowledged {
        acknowledged := upTo;
      }
      assert Mine() == known;
      SettledFewer(events, events, disk, disk, before, acknowledged);
    }

    /** One record is removed; the removal may fail, with or without effect. */
    method RemoveRecord(e: Intent) returns (s: Step)
      requires Inv() && e in retiring
      modifies `disk, `calls
      ensures Inv() && calls == old(calls) + 1 && s == adapter(old(calls)).end
      ensures disk == if s.Done? || adapter(old(calls)).happens then old(disk) - {e.id} else old(disk)
      ensures e.id in old(disk) ==> old(disk)[e.id] == e
    {
      hide Unique, Numbered, Universe, AllSettled, StoredKnown, Known, Settled;
      var f := adapter(calls);
      s, calls := f.end, calls + 1;
      OwnRecord(e);
      if s.Done? || f.happens {
        ghost var stored := disk;
        disk := disk - {e.id};
        SettledFewer(events, events, stored, disk, acknowledged, acknowledged);
        StoredFewer(stored, disk, Mine(), Mine(), acknowledged, acknowledged);
        UniverseFewer(Mine(), Mine(), stored, disk);
        SmallerUniverse(Universe(Mine(), stored), Universe(Mine(), disk), sequence, minted);
      }
    }

    lemma OwnRecord(e: Intent)
      requires Inv() && e in retiring
      ensures e.id in disk ==> disk[e.id] == e
      ensures e.sequence <= acknowledged
    {
      if e.id in disk {
        assert disk[e.id] in disk.Values && e in Universe(Mine(), disk) && disk[e.id] in Universe(Mine(), disk);
      }
    }

    /** Past the removals: what is numbered higher stays, whether or not it was there when they began. */
    method EndAcknowledge(upTo: nat)
      requires Inv() && upTo <= acknowledged
      modifies `events
      ensures Inv() && events == Above(old(events), upTo)
    {
      hide Unique, Numbered, Universe, AllSettled, StoredKnown, Known, Settled;
      ghost var known, listed := Mine(), events;
      KnownHas(events, pending, writing);
      events := Above(events, upTo);
      KnownHas(events, pending, writing);
      SettledFewer(listed, events, disk, disk, acknowledged, acknowledged);
      StoredFewer(disk, disk, known, Mine(), acknowledged, acknowledged);
      UniverseFewer(known, Mine(), disk, disk);
      SmallerUniverse(Universe(known, disk), Universe(Mine(), disk), sequence, minted);
    }

    /** A whole change: its number, and its write unless it repeats an open modify. */
    method Record(change: Change) returns (e: Intent, coalesced: bool)
      requires Inv() && writing.None?
      modifies this
      ensures Inv() && writing.None? && frozen == old(frozen) && acknowledged == old(acknowledged) && retiring == old(retiring)
      ensures sequence >= old(sequence) && e.sequence > frozen && e.path == change.path
      ensures coalesced ==> e in events && events == old(events) && disk == old(disk)
      ensures !coalesced ==> events == old(events) + [e] && e.sequence == old(sequence) + 1 && e.id == old(minted)
      ensures minted == if coalesced then old(minted) else old(minted) + 1
      ensures disk == old(disk) || disk == old(disk)[e.id := e]
      ensures e.sequence > acknowledged ==> e.id in disk && disk[e.id] == e
      ensures calls == old(calls)
      ensures coalesced <==> change.kind.Modify? && var p := LastAt(old(events), change.path, change.entity); p.Some? && p.value.kind.Modify? && p.value.sequence > frozen
      ensures coalesced ==> e == LastAt(old(events), change.path, change.entity).value
      ensures forall id :: id in old(disk) ==> id in disk && disk[id] == old(disk)[id]
      ensures forall f :: f in retiring && f.id !in old(disk) ==> f.id !in disk
    {
      hide Unique, Numbered, Universe, StoredKnown, Known, NoDuplicates;
      FreshIdentity();
      e, coalesced := Begin(change.kind, change.path, change.entity, change.from, change.target);
      if !coalesced {
        End();
      }
    }

    /** No record and no event bears the next identity. */
    lemma FreshIdentity()
      requires Inv()
      ensures minted !in disk && forall f :: f in Mine() ==> f.id < minted && 0 < f.sequence <= sequence
    {
      forall id | id in disk
        ensures id < minted
      {
        assert disk[id] in disk.Values && disk[id] in Universe(Mine(), disk);
      }
      forall f | f in Mine()
        ensures f.id < minted && 0 < f.sequence <= sequence
      {
        assert f in Universe(Mine(), disk);
      }
    }

    /** Changes recorded one after the other; `added` are those that got a number of their own. */
    method RecordEach(changes: seq<Change>) returns (recorded: seq<Intent>, ghost added: seq<Intent>)
      requires Inv() && writing.None?
      modifies this
      ensures Inv() && writing.None? && frozen == old(frozen) && acknowledged == old(acknowledged) && retiring == old(retiring)
      ensures calls == old(calls)
      ensures |recorded| == |changes| && events == old(events) + added
      ensures forall e :: e in recorded ==> e in events && e.sequence > frozen
      ensures forall e :: e in added ==> e in recorded && e.sequence > old(sequence)
      ensures forall id :: id in old(disk) ==> id in disk && disk[id] == old(disk)[id]
      ensures forall f :: f in retiring && f.id !in old(disk) ==> f.id !in disk
      ensures sequence >= old(sequence) && minted >= old(minted) && (changes == [] ==> added == recorded == [])
      ensures disk.Keys <= old(disk.Keys) + Ids(added)
    {
      hide Inv, Mine, Ids;
      recorded, added := [], [];
      NoIds();
      for i := 0 to |changes|
        invariant disk.Keys <= old(disk.Keys) + Ids(added)
        invariant Inv() && writing.None? && frozen == old(frozen) && acknowledged == old(acknowledged) && retiring == old(retiring)
        invariant calls == old(calls)
        invariant i == 0 ==> added == []
        invariant |recorded| == i && events == old(events) + added && sequence >= old(sequence) && minted >= old(minted)
        invariant forall e :: e in recorded ==> e in events && e.sequence > frozen
        invariant forall e :: e in added ==> e in recorded && e.sequence > old(sequence)
        invariant forall id :: id in old(disk) ==> id in disk && disk[id] == old(disk)[id]
        invariant forall f :: f in retiring && f.id !in old(disk) ==> f.id !in disk
      {
        var e, coalesced := Record(changes[i]);
        recorded := recorded + [e];
        ghost var appended := if coalesced then [] else [e];
        IdsMore(added, appended);
        added := added + appended;
      }
    }

    /** Some changes are recorded, then the next record is removed. */
    method RemoveNext(chosen: seq<Intent>, i: nat, changes: seq<Change>) returns (s: Step, recorded: seq<Intent>, ghost added: seq<Intent>)
      requires Inv() && writing.None? && i < |chosen| && (forall e :: e in chosen ==> e in retiring)
      requires Gone(chosen[..i], disk)
      modifies this
      ensures Inv() && writing.None? && frozen == old(frozen) && acknowledged == old(acknowledged) && retiring == old(retiring)
      ensures calls == old(calls) + 1 && s == adapter(old(calls)).end
      ensures events == old(events) + added && sequence >= old(sequence) && minted >= old(minted) && (changes == [] ==> added == recorded == [])
      ensures forall e :: e in added ==> e in recorded && e.sequence > old(sequence)
      ensures forall e :: e in recorded ==> e in events && e.sequence > frozen
      ensures Gone(chosen[..i], disk) && (s.Done? ==> Gone(chosen[..i + 1], disk))
      ensures Keeps(old(disk), disk, chosen) && disk.Keys <= old(disk.Keys) + Ids(added)
    {
      hide Inv, Mine, Ids;
      recorded, added := RecordEach(changes);
      assert chosen[i] in chosen && forall e :: e in chosen[..i] ==> e in chosen;
      s := RemoveRecord(chosen[i]);
      if s.Done? {
        GoneNext(chosen, i, disk);
      }
    }

    /** The removals, with changes recorded before each. */
    method RemoveRecords(chosen: seq<Intent>, rounds: seq<seq<Change>>) returns (s: Step, recorded: seq<Intent>, ghost added: seq<Intent>)
      requires Inv() && writing.None? && (forall e :: e in chosen ==> e in retiring)
      modifies this
      ensures Inv() && writing.None? && frozen == old(frozen) && acknowledged == old(acknowledged) && minted >= old(minted)
      ensures calls >= old(calls) && (Smooth(adapter, old(calls), calls) ==> s.Done?)
      ensures events == old(events) + added && (rounds == [] ==> added == recorded == [])
      ensures forall e :: e in added ==> e in recorded && e.sequence > old(sequence)
      ensures forall e :: e in recorded ==> e in events && e.sequence > frozen
      ensures s.Done? ==> Gone(chosen, disk)
      ensures Keeps(old(disk), disk, chosen) && disk.Keys <= old(disk.Keys) + Ids(added)
    {
      hide Inv, Mine, Keeps, Gone, Ids;
      recorded, added := [], [];
      NothingGone(disk, chosen);
      NoIds();
      assert chosen[..0] == [];
      for i := 0 to |chosen|
        invariant Inv() && writing.None? && frozen == old(frozen) && acknowledged == old(acknowledged) && retiring == old(retiring)
        invariant calls >= old(calls)
        invariant events == old(events) + added && sequence >= old(sequence) && minted >= old(minted) && (rounds == [] ==> added == recorded == [])
        invariant forall e :: e in added ==> e in recorded && e.sequence > old(sequence)
        invariant forall e :: e in recorded ==> e in events && e.sequence > frozen
        invariant Gone(chosen[..i], disk) && Keeps(old(disk), disk, chosen) && disk.Keys <= old(disk.Keys) + Ids(added)
      {
        ghost var before, appended := disk, [];
        var more;
        s, more, appended := RemoveNext(chosen, i, if i < |rounds| then rounds[i] else []);
        KeepsOn(old(disk), before, disk, chosen);
        IdsMore(added, appended);
        recorded, added := recorded + more, added + appended;
        if !s.Done? {
          return;
        }
      }
      assert chosen[..|chosen|] == chosen;
      s := Done;
    }

    /**
     `acknowledge` after its flush, with changes recorded before each removal.
     On success the events above the number are left, old and new, and the
     records of all that were chosen are gone; a change recorded meanwhile is
     still listed exactly when its number is higher, as it is whenever the
     number was frozen.
     */
    method Acknowledge(upTo: nat, rounds: seq<seq<Change>>) returns (s: Step, recorded: seq<Intent>, ghost added: seq<Intent>)
      requires Inv() && writing.None?
      modifies this
      ensures Inv() && writing.None? && frozen == old(frozen) && minted >= old(minted)
      ensures calls >= old(calls) && (Smooth(adapter, old(calls), calls) ==> s.Done?)
      ensures acknowledged == if upTo > old(acknowledged) then upTo else old(acknowledged)
      ensures events == if s.Done? then Above(old(events) + added, upTo) else old(events) + added
      ensures rounds == [] ==> added == recorded == []
      ensures forall e :: e in added ==> e in recorded && e.sequence > old(sequence)
      ensures forall e :: e in recorded ==> e in old(events) + added && e.sequence > frozen
      ensures s.Done? ==> forall e :: e in old(events) && e.sequence <= upTo ==> e.id !in disk
      ensures Keeps(old(disk), disk, UpTo(old(events), upTo)) && disk.Keys <= old(disk.Keys) + Ids(added)
      ensures forall e :: e in events && e.sequence > acknowledged ==> e.id in disk && disk[e.id] == e
    {
      hide Inv, Mine, Keeps, Ids, Above, UpTo;
      var chosen := BeginAcknowledge(upTo);
      s, recorded, added := RemoveRecords(chosen, rounds);
      if s.Done? {
        EndAcknowledge(upTo);
      }
      ListedDurable();
    }

    lemma NumbersPositive()
      requires Inv()
      ensures forall e :: e in events ==> e.sequence > 0
    {
      forall e | e in events
        ensures e.sequence > 0
      {
        assert e in Universe(Mine(), disk);
      }
    }

    lemma ListedDurable()
      requires Inv()
      ensures forall e :: e in events && e.sequence > acknowledged ==> e.id in disk && disk[e.id] == e
    {
    }

    // ---------------------------------------------------------------- reload

    /** The records found, by number. */
    method ListStored() returns (listed: seq<Intent>)
      ensures Ascending(listed) && forall e :: e in listed <==> e in disk.Values
    {
      listed := [];
      var todo := disk.Values;
      while todo != {}
        invariant todo <= disk.Values && Ascending(listed)
        invariant forall e :: e in listed <==> e in disk.Values && e !in todo
      {
        var e :| e in todo;
        InsertAscending(listed, e);
        listed := Insert(listed, e);
        todo := todo - {e};
      }
    }

    lemma StoredAreSettled(listed: seq<Intent>)
      requires Inv() && forall e :: e in listed <==> e in disk.Values
      ensures AllSettled(listed, disk, 0)
      ensures forall known :: (forall e :: e in listed ==> e in known) ==> StoredKnown(disk, known, 0)
      ensures forall e :: e in listed ==> e in Universe(Mine(), disk)
    {
      forall known | forall e :: e in listed ==> e in known
        ensures StoredKnown(disk, known, 0)
      {
        assert forall id :: id in disk ==> disk[id] in disk.Values;
      }
    }

    /** The next start: what is on disk is listed by number, and the counter starts from there. */
    method Reload()
      requires Inv()
      modifies this
      ensures Inv() && pending == [] && writing.None? && disk == old(disk) && minted == old(minted) && frozen == 0 && acknowledged == 0
      ensures calls == old(calls)
      ensures Ascending(events) && sequence == Highest(events)
      ensures forall e :: e in events <==> e in disk.Values
    {
      hide Unique, Numbered, Known, Ascending, Universe, AllSettled, StoredKnown;
      var listed := ListStored();
      ghost var all, top := Universe(Mine(), disk), sequence;
      StoredAreSettled(listed);
      events, pending, writing := listed, [], None;
      sequence, frozen := Highest(listed), 0;
      acknowledged, retiring := 0, {};
      KnownHas(events, pending, writing);
      ListedUniverse(Mine(), disk, listed);
      SmallerUniverse(all, Universe(Mine(), disk), top, minted);
      NumberedBy(Universe(Mine(), disk), top, Highest(listed), minted);
    }
  }

  /** A change as the vault's event reports it. */
  datatype Change = Change(kind: Kind, path: Path, entity: EntityKind, from: Option<Path>, target: Option<Id>)

  /**
   A snapshot, then the acknowledgement of everything it returned, with changes
   recorded before each removal: every one of them is still listed, numbered
   above what was acknowledged and durable, and on success nothing else is
   listed.
   */
  method RecordAfterSnapshot(j: Journal, rounds: seq<seq<Change>>) returns (snapshot: seq<Intent>, recorded: seq<Intent>, s: Step)
    requires j.Inv() && j.writing.None? && j.acknowledged <= j.sequence
    modifies j
    ensures j.Inv() && snapshot == old(j.events)
    ensures forall e :: e in recorded ==> e in j.events && e.sequence > Highest(snapshot) && e.id in j.disk && j.disk[e.id] == e
    ensures s.Done? ==> forall e :: e in j.events <==> e in recorded
    ensures s.Done? ==> forall e :: e in snapshot ==> e.id !in j.disk
    ensures !s.Done? ==> forall e :: e in j.events <==> e in snapshot || e in recorded
  {
    hide Journal.Inv, Journal.Mine;
    ghost var added;
    snapshot := j.Freeze();
    s, recorded, added := j.Acknowledge(Highest(snapshot), rounds);
  }

  /** What a restart lists: the records found, by number. */
  ghost predicate ListedFrom(loaded: seq<Intent>, disk: Disk) {
    Ascending(loaded) && forall e :: e in loaded <==> e in disk.Values
  }

  /** The number a change gets after a restart: that of a modify it repeats, or the next after the highest found. */
  function NumberAfter(loaded: seq<Intent>, change: Change): nat {
    var p := LastAt(loaded, change.path, change.entity);
    if change.kind.Modify? && p.Some? && p.value.kind.Modify? then p.value.sequence else Highest(loaded) + 1
  }

  /**
   A restart, a change, and the acknowledgement of a number kept from before
   the restart, as a saved batch carries it (plugin/src/engine.ts:1150). The
   change is numbered from what the disk still holds, so it is dropped, record
   and all, exactly when the kept number reaches that.
   */
  method RecordAfterRestart(j: Journal, change: Change, upTo: nat) returns (e: Intent, ghost loaded: seq<Intent>, s: Step)
    requires j.Inv()
    modifies j
    ensures j.Inv() && e.path == change.path && ListedFrom(loaded, old(j.disk)) && e.sequence == NumberAfter(loaded, change)
    ensures s.Done? ==> (e in j.events <==> NumberAfter(loaded, change) > upTo)
    ensures s.Done? && NumberAfter(loaded, change) <= upTo ==> e.id !in j.disk
    ensures j.calls >= old(j.calls) && (Smooth(j.adapter, old(j.calls), j.calls) ==> s.Done?)
    ensures e in loaded || e.id == old(j.minted)
  {
    hide Journal.Inv, Journal.Mine;
    j.Reload();
    j.NumbersPositive();
    loaded := j.events;
    var coalesced;
    e, coalesced := j.Record(change);
    assert e in j.events;
    var more;
    ghost var added;
    s, more, added := j.Acknowledge(upTo, []);
  }

  /** Every removal succeeds. */
  function Willing(c: nat): Environment.Fate {
    Environment.Fate.Fate(Done, true, None)
  }

  /** A journal with one change, a snapshot of it, and its acknowledgement. */
  method AcknowledgedFirst(before: Change) returns (j: Journal, snapshot: seq<Intent>)
    ensures fresh(j) && j.Inv() && j.adapter == Willing && |snapshot| == 1 && Highest(snapshot) == 1
    ensures j.disk == map[] && snapshot[0].id < j.minted
  {
    hide Journal.Inv, Journal.Mine, Keeps, Above, UpTo, Ids;
    j := new Journal(Willing);
    var first, coalesced := j.Record(before);
    assert !coalesced && j.events == [first];
    snapshot := j.Freeze();
    assert [first][..0] == [];
    var s, recorded;
    ghost var added;
    s, recorded, added := j.Acknowledge(Highest(snapshot), []);
    NoIds();
    assert first in snapshot;
    assert j.disk.Keys == {};
  }

  /**
   The removals are complete, the saved batch is not yet cleared, and the next
   start renumbers: its first change has number 1 and is dropped together with
   the batch, though no snapshot has returned it.
   */
  method FirstChangeForgotten(before: Change, after: Change) returns (j: Journal, snapshot: seq<Intent>, e: Intent)
    ensures |snapshot| == 1 && e !in snapshot && e.path == after.path && e.sequence == 1
    ensures e !in j.events && e.id !in j.disk
  {
    hide Journal.Inv, Journal.Mine, Highest;
    j, snapshot := AcknowledgedFirst(before);
    ghost var loaded;
    var s;
    e, loaded, s := RecordAfterRestart(j, after, Highest(snapshot));
    NothingLoaded(loaded, after);
  }

  lemma NothingLoaded(loaded: seq<Intent>, change: Change)
    requires ListedFrom(loaded, map[])
    ensures loaded == [] && NumberAfter(loaded, change) == 1
  {
    HasMember(loaded);
  }

  lemma HasMember(events: seq<Intent>)
    ensures events != [] ==> exists e :: e in events
  {
    if events != [] {
      assert events[0] in events;
    }
  }

  // -------------------------------------------------------- creation identities

  /** A creation or deletion carried along the moves that followed it. */
  datatype Indexed = Indexed(kind: Kind, target: Option<Id>)

  type Index = map<(EntityKind, Path), Indexed>

  type Key = (EntityKind, Path)

  /** Whether the move event takes along an entity that stands at `path`. */
  predicate Carries(e: Intent, key: Key) {
    && IsMove(e)
    && (if e.entity.FileEntity? then key == (FileEntity, e.from.value)
        else key.1 == e.from.value || Under(key.1, e.from.value))
  }

  predicate IsMove(e: Intent) {
    e.kind.MoveKind? && e.from.Some? && e.from.value != []
  }

  /** A deleted folder takes the creations below it off the index. */
  predicate Clears(e: Intent, key: Key) {
    e.kind.Delete? && e.entity.FolderEntity? && Under(key.1, e.path)
  }

  predicate Originates(e: Intent) {
    e.kind.Create? || e.kind.Delete?
  }

  /** Where the move takes an entity. */
  function Shift(e: Intent, key: Key): Key
    requires Carries(e, key)
  {
    (key.0, e.path + key.1[|e.from.value|..])
  }

  lemma ShiftInjective(e: Intent)
    ensures forall a: Key, b: Key :: Carries(e, a) && Carries(e, b) && Shift(e, a) == Shift(e, b) ==> a == b
  {
    forall a: Key, b: Key | Carries(e, a) && Carries(e, b) && Shift(e, a) == Shift(e, b)
      ensures a == b
    {
      assert a.1 == e.from.value + a.1[|e.from.value|..] && b.1 == e.from.value + b.1[|e.from.value|..];
      assert Shift(e, a).1[|e.path|..] == a.1[|e.from.value|..] && Shift(e, b).1[|e.path|..] == b.1[|e.from.value|..];
    }
  }

  /** Where an entity that stands at `key` stands after the events, unless a deleted folder takes it off. */
  function Trail(events: seq<Intent>, key: Key): Option<Key> {
    if events == [] then Some(key)
    else
      var before := Trail(events[..|events| - 1], key);
      var last := events[|events| - 1];
      if before.None? || Clears(last, before.value) then None
      else if Carries(last, before.value) then Some(Shift(last, before.value))
      else before
  }

  /** Event `i` is a creation or deletion whose trail ends at `key`. */
  ghost predicate Origin(events: seq<Intent>, i: nat, key: Key)
    requires i < |events|
  {
    Originates(events[i]) && Trail(events[i + 1..], (events[i].entity, events[i].path)) == Some(key)
  }

  ghost predicate Stood(events: seq<Intent>, key: Key) {
    exists i: nat :: i < |events| && Origin(events, i, key)
  }

  ghost predicate Stems(events: seq<Intent>, key: Key, item: Indexed) {
    exists i: nat :: i < |events| && Origin(events, i, key) && item == Indexed(events[i].kind, events[i].target)
  }

  ghost predicate AllStem(events: seq<Intent>, index: Index) {
    forall key :: key in index ==> Stems(events, key, index[key])
  }

  /** One event later the trail of an origin ends where the event leaves it. */
  lemma OriginOn(events: seq<Intent>, e: Intent, i: nat)
    requires i < |events|
    ensures forall key :: Origin(events + [e], i, key) <==>
              exists k :: Origin(events, i, k) && !Clears(e, k) && key == if Carries(e, k) then Shift(e, k) else k
  {
    var all := events + [e];
    assert all[i] == events[i];
    assert all[i + 1..][..|all[i + 1..]| - 1] == events[i + 1..];
    assert all[i + 1..][|all[i + 1..]| - 1] == e;
  }

  lemma StemsOn(events: seq<Intent>, e: Intent, key: Key, item: Indexed)
    requires Stems(events, key, item) && !Clears(e, key)
    ensures Stems(events + [e], if Carries(e, key) then Shift(e, key) else key, item)
  {
    var i: nat :| i < |events| && Origin(events, i, key) && item == Indexed(events[i].kind, events[i].target);
    OriginOn(events, e, i);
    assert (events + [e])[i] == events[i];
    assert Origin(events + [e], i, if Carries(e, key) then Shift(e, key) else key);
  }

  lemma StemsNew(events: seq<Intent>, e: Intent)
    requires Originates(e)
    ensures Stems(events + [e], (e.entity, e.path), Indexed(e.kind, e.target))
  {
    var all := events + [e];
    assert all[|events|] == e && all[|events| + 1..] == [];
    assert Origin(all, |events|, (e.entity, e.path));
  }

  // -------------------------------------------------- the index as a function

  function CarriedKeys(index: Index, e: Intent): (r: set<Key>)
    ensures forall key :: key in r <==> key in index && Carries(e, key)
  {
    set key | key in index && Carries(e, key)
  }

  /** The entries at `done` have moved on, over whatever stood at their new places. */
  function PartlyCarried(index: Index, e: Intent, done: set<Key>): Index
    requires forall key :: key in done ==> key in index && Carries(e, key)
  {
    LeftBehind(index, done) + Brought(index, e, done)
  }

  function LeftBehind(index: Index, done: set<Key>): Index {
    map key | key in index && key !in done :: index[key]
  }

  function Brought(index: Index, e: Intent, done: set<Key>): Index
    requires forall key :: key in done ==> key in index && Carries(e, key)
  {
    ShiftInjective(e);
    map key | key in done :: Shift(e, key) := index[key]
  }

  function IndexStep(index: Index, e: Intent): Index {
    if IsMove(e) then PartlyCarried(index, e, CarriedKeys(index, e))
    else if Originates(e) then
      (map key | key in index && !Clears(e, key) :: index[key])[(e.entity, e.path) := Indexed(e.kind, e.target)]
    else index
  }

  function IndexOf(events: seq<Intent>): Index {
    if events == [] then map[] else IndexStep(IndexOf(events[..|events| - 1]), events[|events| - 1])
  }

  ghost predicate SameAt(before: Index, after: Index, key: Key) {
    (key in after <==> key in before) && (key in before ==> after[key] == before[key])
  }

  /** A folder move takes along every entry at its old path or below it; a file move takes the entry of that file. */
  ghost predicate MovedAlong(before: Index, after: Index, from: Path, to: Path, entity: EntityKind, key: Key) {
    if entity.FileEntity? then
      if key == (FileEntity, to) && (FileEntity, from) in before then key in after && after[key] == before[(FileEntity, from)]
      else if key == (FileEntity, from) then key !in after
      else SameAt(before, after, key)
    else
      if to <= key.1 && (key.0, from + key.1[|to|..]) in before then key in after && after[key] == before[(key.0, from + key.1[|to|..])]
      else if from <= key.1 then key !in after
      else SameAt(before, after, key)
  }

  /** A creation or deletion stands at its path; a deleted folder takes everything below it off. */
  ghost predicate Entered(before: Index, after: Index, e: Intent, key: Key) {
    if key == (e.entity, e.path) then key in after && after[key] == Indexed(e.kind, e.target)
    else if e.kind.Delete? && e.entity.FolderEntity? && e.path != [] && e.path < key.1 then key !in after
    else SameAt(before, after, key)
  }

  /** What one more event does to the index, place by place. */
  ghost predicate FollowsAt(before: Index, after: Index, e: Intent, key: Key) {
    if e.kind.MoveKind? && e.from.Some? && e.from.value != [] then MovedAlong(before, after, e.from.value, e.path, e.entity, key)
    else if e.kind.Create? || e.kind.Delete? then Entered(before, after, e, key)
    else SameAt(before, after, key)
  }

  lemma IndexAfter(events: seq<Intent>, e: Intent, key: Key)
    ensures FollowsAt(IndexOf(events), IndexOf(events + [e]), e, key)
  {
    var before, after := IndexOf(events), IndexStep(IndexOf(events), e);
    assert (events + [e])[..|events|] == events;
    assert IndexOf(events + [e]) == after;
    if IsMove(e) {
      BroughtIs(before, e, CarriedKeys(before, e));
      if e.entity.FileEntity? {
        FileBrought(e, key);
      } else {
        FolderBrought(e, key);
      }
    }
  }

  /** The one place from which a file move brings something to `key`. */
  lemma FileBrought(e: Intent, key: Key)
    requires IsMove(e) && e.entity.FileEntity?
    ensures Carries(e, (FileEntity, e.from.value)) && Shift(e, (FileEntity, e.from.value)) == (FileEntity, e.path)
    ensures forall k: Key :: Carries(e, k) ==> k == (FileEntity, e.from.value)
  {
    assert e.path + e.from.value[|e.from.value|..] == e.path;
  }

  /** The one place from which a folder move brings something to `key`. */
  lemma FolderBrought(e: Intent, key: Key)
    requires IsMove(e) && e.entity.FolderEntity?
    ensures forall k: Key :: Carries(e, k) && Shift(e, k) == key ==> e.path <= key.1 && k == (key.0, e.from.value + key.1[|e.path|..])
    ensures e.path <= key.1 ==> var k := (key.0, e.from.value + key.1[|e.path|..]); Carries(e, k) && Shift(e, k) == key
    ensures Carries(e, key) <==> e.from.value <= key.1
  {
    forall k: Key | Carries(e, k) && Shift(e, k) == key
      ensures e.path <= key.1 && k == (key.0, e.from.value + key.1[|e.path|..])
    {
      assert k.1 == e.from.value + k.1[|e.from.value|..];
      assert key.1[|e.path|..] == k.1[|e.from.value|..];
    }
    if e.path <= key.1 {
      var rest := key.1[|e.path|..];
      var k := (key.0, e.from.value + rest);
      assert k.1[..|e.from.value|] == e.from.value && k.1[|e.from.value|..] == rest;
      assert key.1 == e.path + rest;
      assert rest == [] ==> k.1 == e.from.value;
    }
  }

  /** A place is indexed exactly when the trail of some creation or deletion ends there. */
  lemma {:induction false} IndexedIff(events: seq<Intent>, key: Key)
    ensures key in IndexOf(events) <==> Stood(events, key)
    decreases |events|
  {
    hide Stood, Shift, Under;
    NothingStood(key);
    if events != [] {
      var init, e := events[..|events| - 1], events[|events| - 1];
      assert events == init + [e];
      forall k: Key
        ensures k in IndexOf(init) <==> Stood(init, k)
      {
        IndexedIff(init, k);
      }
      StoodOn(init, e, key);
      assert IndexOf(events) == IndexStep(IndexOf(init), e);
    }
  }

  lemma NothingStood(key: Key)
    ensures !Stood([], key)
  {
  }

  lemma StoodOn(events: seq<Intent>, e: Intent, key: Key)
    ensures Stood(events + [e], key) <==>
              || (Originates(e) && key == (e.entity, e.path))
              || exists k :: Stood(events, k) && !Clears(e, k) && key == if Carries(e, k) then Shift(e, k) else k
  {
    var all := events + [e];
    assert all[|events|] == e && all[|events| + 1..] == [];
    assert Origin(all, |events|, key) <==> Originates(e) && key == (e.entity, e.path);
    if Stood(all, key) {
      var i: nat :| i < |all| && Origin(all, i, key);
      if i < |events| {
        OriginOn(events, e, i);
      }
    }
    if k :| Stood(events, k) && !Clears(e, k) && key == if Carries(e, k) then Shift(e, k) else k {
      var i: nat :| i < |events| && Origin(events, i, k);
      OriginOn(events, e, i);
      assert Origin(all, i, key);
    }
  }

  // ----------------------------------------------------------------- the loops

  predicate Prefix(p: Path, q: Path) {
    |p| <= |q| && q[..|p|] == p
  }

  /** No move leads into the folder it starts from, or onto a folder around it. */
  ghost predicate Apart(e: Intent) {
    IsMove(e) ==> e.path == e.from.value || (!Prefix(e.path, e.from.value) && !Prefix(e.from.value, e.path))
  }

  /** What a move brings does not land on what it takes. */
  lemma LandsClear(e: Intent, a: Key, b: Key)
    requires Apart(e) && Carries(e, a) && Carries(e, b) && a != b
    ensures Shift(e, a) != b
  {
    PrefixesNest(e.path, e.from.value, Shift(e, a).1);
    assert a.1 == e.from.value + a.1[|e.from.value|..];
  }

  lemma PrefixesNest(p: Path, q: Path, r: Path)
    ensures Prefix(p, r) && Prefix(q, r) ==> Prefix(p, q) || Prefix(q, p)
  {
    if Prefix(p, r) && Prefix(q, r) {
      assert |p| <= |q| ==> q[..|p|] == p;
      assert |q| <= |p| ==> p[..|q|] == q;
    }
  }

  /** Take one entry from its place and put it where the move leads. */
  function CarryOne(index: Index, e: Intent, key: Key, item: Indexed): Index
    requires Carries(e, key)
  {
    (index - {key})[Shift(e, key) := item]
  }

  lemma CarryOneMore(index: Index, e: Intent, done: set<Key>, key: Key)
    requires forall k :: k in done ==> k in index && Carries(e, k)
    requires key in index && Carries(e, key) && key !in done && Apart(e)
    ensures PartlyCarried(index, e, done + {key}) == CarryOne(PartlyCarried(index, e, done), e, key, index[key])
  {
    var l, b, to := LeftBehind(index, done), Brought(index, e, done), Shift(e, key);
    BroughtOneMore(index, e, done, key);
    assert LeftBehind(index, done + {key}) == l - {key};
    assert key !in b by {
      forall k | k in done
        ensures Shift(e, k) != key
      {
        LandsClear(e, k, key);
      }
    }
    Overlay(l, b, key, to, index[key]);
  }

  lemma BroughtOneMore(index: Index, e: Intent, done: set<Key>, key: Key)
    requires forall k :: k in done ==> k in index && Carries(e, k)
    requires key in index && Carries(e, key) && key !in done
    ensures Brought(index, e, done + {key}) == Brought(index, e, done)[Shift(e, key) := index[key]]
  {
    hide Brought, Carries, Shift;
    var b, c := Brought(index, e, done), Brought(index, e, done + {key});
    BroughtIs(index, e, done);
    BroughtIs(index, e, done + {key});
    forall k
      ensures k in c <==> k in b || k == Shift(e, key)
      ensures k in c ==> c[k] == if k == Shift(e, key) then index[key] else b[k]
    {
      if k in c {
        var x :| x in done + {key} && k == Shift(e, x);
      }
    }
  }

  /** Every one of the entries is at its new place, and nothing else is. */
  lemma BroughtIs(index: Index, e: Intent, done: set<Key>)
    requires forall k :: k in done ==> k in index && Carries(e, k)
    ensures forall x :: x in done ==> Shift(e, x) in Brought(index, e, done) && Brought(index, e, done)[Shift(e, x)] == index[x]
    ensures forall k :: k in Brought(index, e, done) ==> exists x :: x in done && k == Shift(e, x)
  {
    ShiftInjective(e);
    hide Carries, Shift;
  }

  lemma Overlay(l: Index, b: Index, key: Key, to: Key, item: Indexed)
    requires key !in b
    ensures (l - {key}) + b[to := item] == ((l + b) - {key})[to := item]
  {
  }

  /** The entries a move takes along go to their new keys one by one, in any order; the others stay. */
  method CarryAll(ghost events: seq<Intent>, e: Intent, index: Index) returns (r: Index)
    requires AllStem(events, index) && IsMove(e)
    ensures AllStem(events + [e], r)
    ensures Apart(e) ==> r == IndexStep(index, e)
  {
    hide Stems, Carries, Shift, PartlyCarried, Apart, CarryOne;
    var matches := CarriedKeys(index, e);
    r := index;
    var todo := matches;
    forall key | key in index
      ensures Stems(events + [e], if Carries(e, key) then Shift(e, key) else key, index[key])
    {
      StemsOn(events, e, key, index[key]);
    }
    assert matches - todo == {};
    CarriedNone(index, e);
    while todo != {}
      invariant todo <= matches
      invariant forall key :: key in r ==> (key in todo && r[key] == index[key]) || Stems(events + [e], key, r[key])
      invariant Apart(e) ==> r == PartlyCarried(index, e, matches - todo)
    {
      var key: Key :| key in todo;
      if Apart(e) {
        CarryOneMore(index, e, matches - todo, key);
      }
      assert matches - (todo - {key}) == matches - todo + {key};
      CarryOneElsewhere(r, e, key, index[key]);
      r := CarryOne(r, e, key, index[key]);
      todo := todo - {key};
    }
    assert matches - todo == matches;
    CarriedAll(index, e);
  }

  lemma CarriedNone(index: Index, e: Intent)
    ensures PartlyCarried(index, e, {}) == index
  {
  }

  lemma CarriedAll(index: Index, e: Intent)
    requires IsMove(e)
    ensures PartlyCarried(index, e, CarriedKeys(index, e)) == IndexStep(index, e)
  {
  }

  lemma CarryOneElsewhere(index: Index, e: Intent, key: Key, item: Indexed)
    requires Carries(e, key)
    ensures var r := CarryOne(index, e, key, item);
      && Shift(e, key) in r && r[Shift(e, key)] == item
      && (key in r ==> key == Shift(e, key))
      && forall k :: k in r && k != Shift(e, key) ==> k in index && r[k] == index[k]
  {
  }

  /** A creation or deletion enters the index; a deleted folder first clears what lies below it. */
  method EnterOne(ghost events: seq<Intent>, e: Intent, index: Index) returns (r: Index)
    requires AllStem(events, index) && !IsMove(e) && Originates(e)
    ensures AllStem(events + [e], r) && r == IndexStep(index, e)
  {
    hide Stems;
    r := index;
    if e.entity.FolderEntity? && e.kind.Delete? {
      r := map key | key in index && !Under(key.1, e.path) :: index[key];
    }
    assert r == map key | key in index && !Clears(e, key) :: index[key];
    OthersStem(events, e, index);
    StemsNew(events, e);
    r := r[(e.entity, e.path) := Indexed(e.kind, e.target)];
  }

  lemma OthersStem(events: seq<Intent>, e: Intent, index: Index)
    requires AllStem(events, index) && !IsMove(e)
    ensures forall key :: key in index && !Clears(e, key) ==> Stems(events + [e], key, index[key])
  {
    forall key | key in index && !Clears(e, key)
      ensures Stems(events + [e], key, index[key])
    {
      StemsOn(events, e, key, index[key]);
    }
  }

  lemma NotIndexed(events: seq<Intent>, e: Intent, index: Index)
    requires AllStem(events, index) && !IsMove(e) && !Originates(e)
    ensures AllStem(events + [e], index) && IndexStep(index, e) == index
  {
    hide Stems;
    OthersStem(events, e, index);
  }

  /** Whatever stands in a vault stands in a folder of it. */
  ghost predicate Rooted(vault: set<Path>) {
    forall p, q :: p in vault && q != [] && Prefix(q, p) ==> q in vault
  }

  /** A rename takes an entity from where it stood to where nothing stood. */
  ghost predicate Renames(before: set<Path>, after: set<Path>, e: Intent) {
    && Rooted(before) && Rooted(after)
    && e.from.Some? && e.from.value in before && e.from.value !in after && e.path != [] && e.path !in before && e.path in after
  }

  /** Every move on the list is a rename of some vault. */
  ghost predicate Observed(events: seq<Intent>) {
    forall e :: e in events && IsMove(e) ==> exists before, after :: Renames(before, after, e)
  }

  /** No vault moves a folder into itself, or onto a folder around it: of what is observed nothing is left out. */
  lemma ObservedApart(events: seq<Intent>)
    requires Observed(events)
    ensures AllApart(events)
  {
    forall e | e in events && IsMove(e)
      ensures Apart(e)
    {
      var before, after :| Renames(before, after, e);
    }
  }

  ghost predicate AllApart(events: seq<Intent>) {
    forall e :: e in events ==> Apart(e)
  }

  /**
   `indexedIntentCreates`: whatever stands in the index is the identity of an
   observed creation or deletion at the end of its trail. Unless a folder is
   moved into itself or onto a folder around it, the index holds all of them,
   and where trails meet the one that arrived last.
   */
  method IndexedIntentCreates(events: seq<Intent>) returns (index: Index)
    ensures AllStem(events, index)
    ensures AllApart(events) ==> index == IndexOf(events)
    ensures Observed(events) ==> index == IndexOf(events)
  {
    if Observed(events) {
      ObservedApart(events);
    }
    hide AllStem, Apart, IndexStep, Observed;
    index := map[];
    NothingStems();
    for i := 0 to |events|
      invariant AllStem(events[..i], index)
      invariant AllApart(events[..i]) ==> index == IndexOf(events[..i])
    {
      var e := events[i];
      assert events[..i + 1] == events[..i] + [e];
      assert AllApart(events[..i + 1]) <==> AllApart(events[..i]) && Apart(e);
      if IsMove(e) {
        index := CarryAll(events[..i], e, index);
      } else if Originates(e) {
        index := EnterOne(events[..i], e, index);
      } else {
        NotIndexed(events[..i], e, index);
      }
    }
    assert events[..|events|] == events;
  }

  lemma NothingStems()
    ensures AllStem([], map[])
  {
  }

  /**
   A folder moved into itself, a to a/b: the entry of a lands on a/b, and is
   taken off again when the entry of a/b moves on.
   */
  lemma MovedIntoItself(one: Id, two: Id)
    ensures var a, ab: Path := [Name("a")], [Name("a"), Name("b")];
      var made := [Intent(0, 1, Create, FolderEntity, a, None, Some(one)), Intent(1, 2, Create, FolderEntity, ab, None, Some(two))];
      var e := Intent(2, 3, MoveKind, FolderEntity, ab, Some(a), None);
      var first, second: Key := (FolderEntity, a), (FolderEntity, ab);
      && Carries(e, first) && Carries(e, second)
      && Stood(made + [e], second)
      && var index := IndexOf(made);
      && first in index && second in index
      && second !in CarryOne(CarryOne(index, e, first, index[first]), e, second, index[second])
  {
    var a, ab: Path := [Name("a")], [Name("a"), Name("b")];
    var x, y := Intent(0, 1, Create, FolderEntity, a, None, Some(one)), Intent(1, 2, Create, FolderEntity, ab, None, Some(two));
    var made := [x, y];
    var e := Intent(2, 3, MoveKind, FolderEntity, ab, Some(a), None);
    var first, second: Key := (FolderEntity, a), (FolderEntity, ab);
    assert made[..1] == [x] && [x][..0] == [] && |a| != |ab|;
    assert IndexOf([x]) == map[first := Indexed(Create, Some(one))];
    assert IndexOf(made) == map[first := Indexed(Create, Some(one)), second := Indexed(Create, Some(two))];
    assert Shift(e, first).1 == ab && |Shift(e, second).1| == 3;
    IndexedIff(made, first);
    StoodOn(made, e, second);
  }
}
