/**
 The record files behind a package's journal (plugin/src/atomic-package.ts:23-36).
 A write takes the next number the process knows of, which is up to date after
 a read and after every write that has finished.
 */
module PackageRecords {
  import opened Wrappers
  import opened SequencedRecords
  import opened AtomicPackage

  ghost predicate UniqueValid(disk: Disk<Journal>) {
    forall m, n :: m in disk && n in disk && m != n && Valid(disk[m]) && Valid(disk[n]) ==> disk[m].sequence != disk[n].sequence
  }

  /** What the files amount to. */
  ghost predicate Amounts(disk: Disk<Journal>, slot: Slot) {
    match slot
    case Missing => disk == map[]
    case Torn => disk != map[] && forall n :: n in disk ==> !Valid(disk[n])
    case Saved(j) => Reads(disk, j)
  }

  lemma AmountsToOne(disk: Disk<Journal>, a: Slot, b: Slot)
    requires Amounts(disk, a) && Amounts(disk, b)
    ensures a == b
  {
    if a.Saved? && b.Saved? {
      ReadsOne(disk, a.journal, b.journal);
    }
  }

  /** A torn file beside what is there. */
  lemma TornBeside(disk: Disk<Journal>, n: nat, slot: Slot)
    requires Amounts(disk, slot) && n !in disk
    ensures Amounts(disk[n := Stored.Torn], if slot.Missing? then Slot.Torn else slot)
  {
    if slot.Saved? {
      TornReads(disk, n, slot.journal);
    }
  }

  class Records {
    var disk: Disk<Journal>
    /** Names are drawn from a source that never repeats. */
    var minted: nat
    /** The highest number this process has read or written. */
    var sequence: nat
    const adapter: Adapter
    var calls: nat

    constructor (adapter: Adapter)
      ensures Inv() && Current() && Amounts(disk, Missing) && this.adapter == adapter && calls == 0
    {
      this.adapter := adapter;
      disk, minted, sequence, calls := map[], 0, 0, 0;
    }

    /** Meanwhile a call has been stopped. */
    twostate predicate CallStopped()
      reads `calls
    {
      !Smooth(adapter, old(calls), calls)
    }

    ghost predicate Inv()
      reads this
    {
      UniqueValid(disk) && forall n :: n in disk ==> n < minted
    }

    ghost predicate Current()
      reads this
    {
      ValidBelow(disk, sequence) && sequence <= MAX_SAFE
    }

    /** Another process starts, and knows of no number. */
    method Restart()
      requires Inv()
      modifies `sequence
      ensures Inv()
    {
      sequence := 0;
    }

    /** `records`: the newest valid file; without one, files that cannot be verified refuse the recovery. */
    method Read() returns (slot: Slot)
      requires Inv() && sequence <= MAX_SAFE
      modifies `sequence
      ensures Inv() && Current() && Amounts(disk, slot)
    {
      slot := if |disk| == 0 then Missing else Slot.Torn;
      var todo := disk.Keys;
      var best := 0;
      ghost var at: nat := 0;
      while todo != {}
        invariant todo <= disk.Keys && sequence <= MAX_SAFE
        invariant forall n :: n in disk && n !in todo && Valid(disk[n]) ==> disk[n].sequence <= sequence
        invariant slot.Missing? <==> disk == map[]
        invariant slot.Torn? ==> forall n :: n in disk && n !in todo ==> !Valid(disk[n])
        invariant slot.Saved? ==> at in disk && at !in todo && Valid(disk[at]) && slot == Saved(disk[at].record) && disk[at].sequence == best
        invariant slot.Saved? ==> forall n :: n in disk && n !in todo && Valid(disk[n]) ==> disk[n].sequence <= best
      {
        var n: nat :| n in todo;
        if Valid(disk[n]) {
          if !slot.Saved? || disk[n].sequence > best {
            slot, best := Saved(disk[n].record), disk[n].sequence;
            at := n;
          }
          if disk[n].sequence > sequence {
            sequence := disk[n].sequence;
          }
        }
        todo := todo - {n};
      }
      assert slot.Saved? ==> Newest(disk, at);
    }

    /**
     `persist`: the new file, then the process's number, then the old files one
     by one; it may be cut short anywhere. The next read finds what `SlotAfter`
     allows a package to go on with.
     */
    method Persist(j: Journal, ghost before: Slot) returns (e: End, ghost after: Slot)
      requires Inv() && Current() && sequence < MAX_SAFE && Amounts(disk, before)
      modifies this
      ensures Inv() && sequence <= MAX_SAFE && Amounts(disk, after) && SlotAfter(before, after, j, e)
      ensures calls > old(calls) && (e.Stopped? ==> CallStopped())
      ensures e.Finished? ==> Current() && exists name: nat :: disk == map[name := Packed(j, true, sequence)]
    {
      var oldFiles, file := disk.Keys, minted;
      minted := minted + 1;
      var f := adapter(calls);
      calls := calls + 1;
      e, after := Stopped, before;
      if f.stops && !f.happens {
        if f.tears {
          TornBeside(disk, file, before);
          disk := disk[file := Stored.Torn];
          after := if before.Missing? then Slot.Torn else before;
        }
        return;
      }
      HighestReads(disk, file, Packed(j, true, sequence + 1), sequence);
      disk := disk[file := Packed(j, true, sequence + 1)];
      after := Saved(j);
      if f.stops {
        return;
      }
      sequence := sequence + 1;
      e := RemoveOld(oldFiles, file);
    }

    /** The old files go one by one. */
    method RemoveOld(oldFiles: set<nat>, file: nat) returns (e: End)
      requires Inv() && file !in oldFiles && disk.Keys == oldFiles + {file} && Current()
      requires Valid(disk[file]) && disk[file].sequence == sequence && Newest(disk, file)
      modifies `disk, `calls
      ensures Inv() && Current() && !e.Refused? && Amounts(disk, Saved(old(disk)[file].record))
      ensures calls >= old(calls) && (e.Stopped? ==> CallStopped())
      ensures e.Finished? ==> disk == map[file := old(disk)[file]]
    {
      var todo := oldFiles;
      while todo != {}
        invariant todo <= oldFiles && disk.Keys == todo + {file}
        invariant forall n :: n in disk ==> disk[n] == old(disk)[n]
        invariant calls >= old(calls)
      {
        var n: nat :| n in todo;
        var f := adapter(calls);
        calls := calls + 1;
        if !f.stops || f.happens {
          disk := disk - {n};
          todo := todo - {n};
        }
        if f.stops {
          assert Newest(disk, file);
          return Stopped;
        }
      }
      assert Newest(disk, file) && disk == map[file := disk[file]];
      e := Finished;
    }
  }
}
