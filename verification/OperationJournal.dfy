/**
 The write-ahead record of a batch (plugin/src/operation-journal.ts:23-29).
 */
module OperationJournal {
  import opened Wrappers
  import opened Environment
  import opened SequencedRecords

  datatype LoadResult = Nothing | Loaded(record: string) | Corrupt

  /** A save counts the file's number, whether or not its checksum holds. */
  predicate Counted(s: Stored<string>) {
    s.Packed? && Safe(s.sequence)
  }

  ghost predicate UniqueSequences(disk: Disk<string>) {
    forall m, n :: m in disk && n in disk && m != n && Counted(disk[m]) && Counted(disk[n]) ==> disk[m].sequence != disk[n].sequence
  }

  ghost predicate AllBelow(disk: Disk<string>, sequence: int) {
    forall n :: n in disk && Counted(disk[n]) ==> disk[n].sequence <= sequence
  }

  /** Some readable file is numbered `q` or higher. */
  ghost predicate Reaches(disk: Disk<string>, q: int) {
    exists n :: n in disk && Counted(disk[n]) && disk[n].sequence >= q
  }

  lemma ReachesMore(disk: Disk<string>, name: nat, s: Stored<string>)
    requires name !in disk
    ensures forall q :: Reaches(disk, q) ==> Reaches(disk[name := s], q)
  {
    var after := disk[name := s];
    forall q | Reaches(disk, q)
      ensures Reaches(after, q)
    {
      var n :| n in disk && Counted(disk[n]) && disk[n].sequence >= q;
      assert n in after;
    }
  }

  class Journal {
    var disk: Disk<string>
    /** Names are drawn from a source that never repeats. */
    var minted: nat
    /** How the calls end: with or without effect, or with a part of a file left. */
    const adapter: Adapter
    var calls: nat

    constructor (adapter: Adapter)
      ensures Inv() && disk == map[] && this.adapter == adapter && calls == 0
    {
      this.adapter := adapter;
      disk, minted, calls := map[], 0, 0;
    }

    ghost predicate Inv()
      reads this
    {
      UniqueSequences(disk) && forall n :: n in disk ==> n < minted
    }

    method Attempt() returns (s: Step, f: Fate)
      modifies `calls
      ensures f == adapter(old(calls)) && s == f.end && calls == old(calls) + 1
    {
      f := adapter(calls);
      s, calls := f.end, calls + 1;
    }

    method Load() returns (r: LoadResult)
      requires Inv()
      ensures r.Nothing? <==> disk == map[]
      ensures r.Loaded? ==> Reads(disk, r.record)
      ensures r.Corrupt? <==> disk != map[] && forall n :: n in disk ==> !Valid(disk[n])
    {
      if |disk| == 0 {
        return Nothing;
      }
      r := Corrupt;
      var todo := disk.Keys;
      var best := -MAX_SAFE - 1;
      ghost var at: nat := 0;
      while todo != {}
        invariant todo <= disk.Keys
        invariant r.Corrupt? || r.Loaded?
        invariant r.Corrupt? ==> forall n :: n in disk && n !in todo ==> !Valid(disk[n])
        invariant r.Loaded? ==> at in disk && at !in todo && Valid(disk[at]) && disk[at].record == r.record && disk[at].sequence == best
        invariant r.Loaded? ==> forall n :: n in disk && n !in todo && Valid(disk[n]) ==> disk[n].sequence <= best
      {
        var n: nat :| n in todo;
        if Valid(disk[n]) && (r.Corrupt? || disk[n].sequence > best) {
          r, best := Loaded(disk[n].record), disk[n].sequence;
          at := n;
        }
        todo := todo - {n};
      }
      assert r.Loaded? ==> Newest(disk, at);
      assert disk != map[];
    }

    /** The highest number among the readable files, at least zero. */
    method HighestSequence() returns (sequence: nat)
      requires Inv()
      ensures AllBelow(disk, sequence) && sequence <= MAX_SAFE
      ensures sequence > 0 ==> exists n :: n in disk && Counted(disk[n]) && disk[n].sequence == sequence
    {
      sequence := 0;
      var todo := disk.Keys;
      while todo != {}
        invariant todo <= disk.Keys && sequence <= MAX_SAFE
        invariant forall n :: n in disk && n !in todo && Counted(disk[n]) ==> disk[n].sequence <= sequence
        invariant sequence > 0 ==> exists n :: n in disk && Counted(disk[n]) && disk[n].sequence == sequence
      {
        var n: nat :| n in todo;
        if Counted(disk[n]) && disk[n].sequence > sequence {
          sequence := disk[n].sequence;
        }
        todo := todo - {n};
      }
    }

    /** The new file is there; the old ones go one by one. */
    method RemoveOld(oldFiles: set<nat>, name: nat, sequence: nat) returns (s: Step)
      requires Inv() && name in disk && name !in oldFiles && disk.Keys == oldFiles + {name}
      requires disk[name].Packed? && disk[name].intact && disk[name].sequence == sequence + 1
      requires forall n :: n in oldFiles && Counted(disk[n]) ==> disk[n].sequence <= sequence
      modifies `disk, `calls
      ensures Inv() && name in disk && disk[name] == old(disk[name])
      ensures calls >= old(calls) && (Smooth(adapter, old(calls), calls) ==> s.Done?)
      ensures sequence < MAX_SAFE ==> Reads(disk, disk[name].record)
      ensures sequence < MAX_SAFE ==> Reaches(disk, sequence + 1)
      ensures s.Done? ==> disk == map[name := old(disk[name])]
    {
      var todo := oldFiles;
      while todo != {}
        invariant todo <= oldFiles && disk.Keys == todo + {name} && disk[name] == old(disk[name])
        invariant forall n :: n in todo ==> disk[n] == old(disk[n])
        invariant Inv() && calls >= old(calls)
      {
        var n: nat :| n in todo;
        var f;
        s, f := Attempt();
        if s.Done? || f.happens {
          disk := disk - {n};
          todo := todo - {n};
        }
        if s.IsFailure() {
          if sequence < MAX_SAFE {
            assert Newest(disk, name);
          }
          return;
        }
      }
      s := Done;
      if sequence < MAX_SAFE {
        assert Newest(disk, name);
      }
      assert disk == map[name := disk[name]];
    }

    /** The new file as a crash may leave it: not at all, torn, or whole. */
    method WriteNew(name: nat, s0: Stored<string>, sequence: nat) returns (s: Step)
      requires Inv() && name !in disk && name < minted && AllBelow(disk, sequence)
      requires s0.Packed? && s0.intact && s0.sequence == sequence + 1
      modifies `disk, `calls
      ensures Inv() && (s.Done? ==> disk == old(disk)[name := s0])
      ensures calls == old(calls) + 1 && s == adapter(old(calls)).end
      ensures sequence < MAX_SAFE ==> forall p :: old(Reads(disk, p)) ==> Reads(disk, p) || Reads(disk, s0.record)
      ensures forall q :: old(Reaches(disk, q)) ==> Reaches(disk, q)
    {
      ReachesMore(disk, name, s0);
      ReachesMore(disk, name, Torn);
      var f;
      s, f := Attempt();
      if s.Done? || f.happens {
        if sequence < MAX_SAFE {
          HighestReads(disk, name, s0, sequence);
        }
        disk := disk[name := s0];
      } else if f.left.Some? {
        forall p | Reads(disk, p)
          ensures Reads(disk[name := Torn], p)
        {
          TornReads(disk, name, p);
        }
        disk := disk[name := Torn];
      }
    }

    /**
     Replace the record. A crash anywhere, a torn write or a removal cut short
     leaves the previous record or the new one readable, unless the numbers are
     used up: the file numbered after `MAX_SAFE` is never accepted again.
     */
    method Save(record: string) returns (s: Step, sequence: nat, name: nat)
      requires Inv()
      modifies this
      ensures Inv() && AllBelow(old(disk), sequence)
      ensures calls >= old(calls) && (Smooth(adapter, old(calls), calls) ==> s.Done?)
      ensures sequence < MAX_SAFE ==> forall p :: old(Reads(disk, p)) ==> Reads(disk, p) || Reads(disk, record)
      ensures s.Done? ==> disk == map[name := Packed(record, true, sequence + 1)]
      ensures s.Done? ==> (Reads(disk, record) <==> sequence < MAX_SAFE)
      ensures sequence < MAX_SAFE ==> forall q :: q <= sequence && old(Reaches(disk, q)) ==> Reaches(disk, q)
      ensures sequence < MAX_SAFE && s.Done? ==> Reaches(disk, sequence + 1)
    {
      hide UniqueSequences, Reads;
      var oldFiles := disk.Keys;
      var highest := HighestSequence();
      var file := minted;
      sequence, name := highest, file;
      minted := minted + 1;
      s := WriteNew(file, Packed(record, true, highest + 1), highest);
      if s.Done? {
        s := RemoveOld(oldFiles, file, highest);
        if s.Done? {
          OnlyFile(disk, file);
        }
      }
    }
  }

  /** What one save left: how it ended, the number it wrote under, the files after it. */
  datatype Saved = Saved(end: Step, number: nat, disk: Disk<string>)

  /** The save finished, and its file is the only one. */
  ghost predicate Finished(saved: Saved, record: string) {
    saved.end.Done? && exists name: nat :: saved.disk == map[name := Packed(record, true, saved.number)]
  }

  /** A finished save wrote one file, under a number below all later ones. */
  ghost predicate Numbered(run: seq<Saved>, records: seq<string>)
    requires |run| <= |records|
  {
    && (forall i :: 0 <= i < |run| && run[i].end.Done? ==> Finished(run[i], records[i]))
    && forall i, j :: 0 <= i < j < |run| && run[i].end.Done? ==> run[i].number < run[j].number
  }

  /** The numbers used so far leave room. */
  ghost predicate Room(run: seq<Saved>) {
    forall i :: 0 <= i < |run| ==> run[i].number <= MAX_SAFE
  }

  /** The file of every finished save is outnumbered by what is readable now. */
  ghost predicate AllReached(run: seq<Saved>, disk: Disk<string>) {
    forall i :: 0 <= i < |run| && run[i].end.Done? ==> Reaches(disk, run[i].number)
  }

  /** A load returns what it returned before the run or a record of the run. */
  ghost predicate Recoverable(before: Disk<string>, after: Disk<string>, records: seq<string>) {
    forall p :: Reads(before, p) ==> exists q :: Reads(after, q) && (q == p || q in records)
  }

  lemma NumberedMore(run: seq<Saved>, records: seq<string>, disk: Disk<string>, next: Saved)
    requires |run| < |records| && Numbered(run, records) && AllReached(run, disk)
    requires AllBelow(disk, next.number - 1) && (next.end.Done? ==> Finished(next, records[|run|]))
    ensures Numbered(run + [next], records)
  {
    hide Finished;
    var all := run + [next];
    forall i, j | 0 <= i < j < |all| && all[i].end.Done?
      ensures all[i].number < all[j].number
    {
      if j == |run| {
        assert Reaches(disk, run[i].number);
      }
    }
  }

  lemma ReachedMore(run: seq<Saved>, before: Disk<string>, after: Disk<string>, next: Saved)
    requires AllReached(run, before) && AllBelow(before, next.number - 1)
    requires forall q :: q < next.number && Reaches(before, q) ==> Reaches(after, q)
    requires next.end.Done? ==> Reaches(after, next.number)
    ensures AllReached(run + [next], after)
  {
    forall i | 0 <= i < |run| && run[i].end.Done?
      ensures Reaches(after, run[i].number)
    {
      assert Reaches(before, run[i].number) && run[i].number < next.number;
    }
  }

  lemma RecoverableOn(first: Disk<string>, before: Disk<string>, after: Disk<string>, records: seq<string>, record: string)
    requires Recoverable(first, before, records) && record in records
    requires forall p :: Reads(before, p) ==> Reads(after, p) || Reads(after, record)
    ensures Recoverable(first, after, records)
  {
    hide Reads;
  }

  /**
   Over any saves, however each of them ends: a finished save has left its file
   alone on the disk, numbered below all that come after, and what could be
   loaded at the start has not become unreadable.
   */
  method SaveAll(j: Journal, records: seq<string>) returns (run: seq<Saved>)
    requires j.Inv()
    modifies j
    ensures j.Inv() && |run| == |records|
    ensures j.calls >= old(j.calls) && (Smooth(j.adapter, old(j.calls), j.calls) ==> forall i :: 0 <= i < |run| ==> run[i].end.Done?)
    ensures run != [] ==> j.disk == run[|run| - 1].disk
    ensures Room(run) ==> Numbered(run, records) && Recoverable(old(j.disk), j.disk, records)
    ensures Room(run) ==> forall i :: 0 <= i < |run| && run[i].end.Done? ==> Reads(run[i].disk, records[i])
  {
    hide Journal.Inv, Reads, Reaches, AllBelow, Finished, Numbered, AllReached, Recoverable;
    run := [];
    Untouched(j.disk, records);
    for i := 0 to |records|
      invariant j.Inv() && |run| == i && (run != [] ==> j.disk == run[i - 1].disk)
      invariant j.calls >= old(j.calls) && (Smooth(j.adapter, old(j.calls), j.calls) ==> forall k :: 0 <= k < i ==> run[k].end.Done?)
      invariant Room(run) ==> Numbered(run, records) && AllReached(run, j.disk) && Recoverable(old(j.disk), j.disk, records)
      invariant Room(run) ==> forall k :: 0 <= k < i && run[k].end.Done? ==> Reads(run[k].disk, records[k])
    {
      ghost var before := j.disk;
      var s, sequence, name := j.Save(records[i]);
      var next := Saved(s, sequence + 1, j.disk);
      assert run + [next] != [] && (Room(run + [next]) ==> Room(run) && sequence < MAX_SAFE) by {
        assert forall k :: 0 <= k < i ==> (run + [next])[k] == run[k];
        assert (run + [next])[i] == next;
      }
      assert s.Done? ==> Finished(next, records[i]) by {
        FinishedAs(next, records[i], name);
      }
      if Room(run + [next]) {
        NumberedMore(run, records, before, next);
        ReachedMore(run, before, j.disk, next);
        RecoverableOn(old(j.disk), before, j.disk, records, records[i]);
      }
      run := run + [next];
    }
  }

  lemma FinishedAs(saved: Saved, record: string, name: nat)
    ensures saved.end.Done? && saved.disk == map[name := Packed(record, true, saved.number)] ==> Finished(saved, record)
  {
  }

  lemma Untouched(disk: Disk<string>, records: seq<string>)
    ensures Numbered([], records) && AllReached([], disk) && Recoverable(disk, disk, records)
  {
  }
}
