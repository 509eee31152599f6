/**
 The content index (plugin/src/vault-inventory.ts:32-83). Calls overlap; the
 methods are the stretches between two awaits. `marks` is the history of
 `markDirty` calls, and a moment in time is its length.
 */
module VaultInventory {
  import opened Wrappers

  type Path = string

  datatype Row = Row(hash: string, size: nat)

  type Rows = map<Path, Row>

  function Count(marks: seq<Path>, path: Path): nat {
    if marks == [] then 0
    else Count(marks[..|marks| - 1], path) + if marks[|marks| - 1] == path then 1 else 0
  }

  /** As many marks as before: none has been added. */
  lemma {:induction false} SameCount(marks: seq<Path>, start: nat, path: Path)
    requires start <= |marks|
    ensures Count(marks[..start], path) <= Count(marks, path)
    ensures Count(marks[..start], path) == Count(marks, path) ==> path !in marks[start..]
  {
    if start == |marks| {
      assert marks[..start] == marks && marks[start..] == [];
    } else {
      var n := |marks| - 1;
      SameCount(marks[..n], start, path);
      assert marks[..n][..start] == marks[..start];
      assert marks[start..] == marks[..n][start..] + [marks[n]];
    }
  }

  class Inventory {
    const bucketOf: Path -> nat

    var entries: Rows
    var sessionVerified: set<Path>
    var dirty: set<Path>
    var generations: map<Path, nat>
    var dirtyBuckets: set<nat>
    /** The bucket files. */
    var saved: map<nat, Rows>
    /** The rows of the buckets a flush has still to write. */
    var flushing: map<nat, Rows>

    /** The paths a flush has still to look at. */
    var uncollected: set<Path>

    ghost var marks: seq<Path>
    /** When the read behind an entry began. */
    ghost var readAt: map<Path, nat>
    /** Entries removed whose flags are still to be cleared. */
    ghost var removing: multiset<Path>
    /** Buckets changed and still to be marked. */
    ghost var unmarked: multiset<nat>

    /** `load`: whatever the bucket files hold; none of it has been marked since. */
    constructor (saved: map<nat, Rows>, entries: Rows, bucketOf: Path -> nat)
      requires forall b :: RowsOf(entries, bucketOf, b) == if b in saved then saved[b] else map[]
      ensures Inv() && sessionVerified == {} && this.entries == entries && this.bucketOf == bucketOf
    {
      this.saved, this.entries, this.bucketOf := saved, entries, bucketOf;
      sessionVerified, dirty, generations, dirtyBuckets, flushing, uncollected := {}, {}, map[], {}, map[], {};
      marks, readAt, removing, unmarked := [], map p | p in entries :: 0, multiset{}, multiset{};
    }

    static function RowsOf(entries: Rows, bucketOf: Path -> nat, b: nat): Rows {
      map p | p in entries && bucketOf(p) == b :: entries[p]
    }

    function Generation(path: Path): nat
      reads this`generations
    {
      if path in generations then generations[path] else 0
    }

    /** The read behind the entry began after the last mark of its path. */
    ghost predicate ReadSinceMarked(path: Path)
      reads this`readAt, this`marks
    {
      path in readAt && readAt[path] <= |marks| && path !in marks[readAt[path]..]
    }

    /**
     An entry is dirty exactly when it is stale: the others hold a hash read
     wholly after the last mark of their path, or loaded with none since.
     */
    ghost predicate DirtyIsStale()
      reads this`entries, this`dirty, this`readAt, this`marks
    {
      StaleGiven(dirty)
    }

    ghost predicate StaleGiven(flags: set<Path>)
      reads this`entries, this`readAt, this`marks
    {
      forall p :: p in entries ==> (p in flags <==> !ReadSinceMarked(p))
    }

    /** Every entry that is not dirty holds a hash read wholly after the last mark of its path, or loaded with none since. */
    ghost predicate FreshEntries()
      reads this`entries, this`dirty, this`readAt, this`marks
    {
      forall p :: p in entries && p !in dirty ==> ReadSinceMarked(p)
    }

    ghost predicate ReadBefore()
      reads this`readAt, this`marks
    {
      forall p :: p in readAt ==> readAt[p] <= |marks|
    }

    ghost predicate CountsMarks()
      reads this`generations, this`marks
    {
      forall p :: Generation(p) == Count(marks, p)
    }

    /** Verified paths have entries, but for removals under way. */
    ghost predicate VerifiedKnown()
      reads this`sessionVerified, this`entries, this`removing
    {
      VerifiedGiven(sessionVerified, removing)
    }

    ghost predicate VerifiedGiven(verified: set<Path>, going: multiset<Path>)
      reads this`entries
    {
      forall p :: p in verified ==> p in entries || p in going
    }

    lemma VerifiedWithout(path: Path)
      requires VerifiedKnown()
      ensures VerifiedGiven(sessionVerified - {path}, removing - multiset{path})
    {
      forall p | p in sessionVerified && p != path && p in removing
        ensures p in removing - multiset{path}
      {
      }
    }

    ghost predicate BucketPending(b: nat)
      reads this`dirtyBuckets, this`unmarked
    {
      b in dirtyBuckets || b in unmarked
    }

    /** A bucket that nobody has to mark or write agrees with its file. */
    ghost predicate BucketsAgree()
      reads this`entries, this`dirtyBuckets, this`unmarked, this`flushing, this`uncollected, this`saved
    {
      && (forall b :: BucketPending(b) || b in flushing || RowsOf(entries, bucketOf, b) == if b in saved then saved[b] else map[])
      && (forall b :: b in flushing ==> BucketPending(b) || flushing[b] == RowsOf(entries - uncollected, bucketOf, b))
    }

    ghost predicate Inv()
      reads this
    {
      CountsMarks() && ReadBefore() && DirtyIsStale() && VerifiedKnown() && BucketsAgree()
    }

    /** `pendingVerification` before it is clamped at zero. */
    function Unverified(): int
      reads this
    {
      |entries| - |sessionVerified|
    }

    /** With no removal under way the count of unverified entries is never clamped, and zero only when all are verified. */
    lemma NeverClamped()
      requires Inv() && removing == multiset{}
      ensures Unverified() >= 0
      ensures Unverified() == 0 <==> entries.Keys == sessionVerified
    {
      assert sessionVerified <= entries.Keys;
      assert |entries| == |entries.Keys|;
      var rest := entries.Keys - sessionVerified;
      assert entries.Keys == sessionVerified + rest;
      assert rest == {} <==> entries.Keys == sessionVerified;
    }

    // ------------------------------------------------------------------ marks

    method MarkDirty(path: Path)
      requires Inv()
      modifies `generations, `dirty, `sessionVerified, `marks
      ensures Inv() && marks == old(marks) + [path] && path in dirty && path !in sessionVerified
      ensures entries == old(entries) && removing == old(removing) && readAt == old(readAt)
    {
      hide BucketsAgree, BucketPending, RowsOf, Count;
      MarkCounts(path);
      generations := generations[path := Generation(path) + 1];
      dirty, sessionVerified := dirty + {path}, sessionVerified - {path};
      ghost var before := marks;
      marks := marks + [path];
      forall p | p in entries
        ensures p in dirty <==> !ReadSinceMarked(p)
      {
        if p in readAt {
          assert marks[readAt[p]..] == before[readAt[p]..] + [path];
          assert path in marks[readAt[p]..];
        }
      }
    }

    lemma MarkCounts(path: Path)
      ensures forall p :: Count(marks + [path], p) == Count(marks, p) + if p == path then 1 else 0
    {
      assert (marks + [path])[..|marks|] == marks;
    }

    // ---------------------------------------------------------------- inspect

    /** A generation read at the moment `start`. */
    ghost predicate Observed(path: Path, generation: nat, start: nat)
      reads this`marks
    {
      start <= |marks| && generation == Count(marks[..start], path)
    }

    method BeginInspect(path: Path) returns (generation: nat, ghost start: nat)
      requires Inv()
      ensures Observed(path, generation, start) && start == |marks|
    {
      generation, start := Generation(path), |marks|;
      assert marks[..|marks|] == marks;
    }

    /**
     The end of a successful `inspect`: the entry and all its flags change in
     one stretch, unless the path was marked since the inspection began.
     */
    method Commit(path: Path, generation: nat, ghost start: nat, row: Row) returns (done: bool)
      requires Inv() && Observed(path, generation, start)
      modifies `entries, `sessionVerified, `dirty, `readAt, `unmarked
      ensures Inv() && start <= |marks|
      ensures done <==> path !in marks[start..]
      ensures done ==> entries == old(entries)[path := row] && readAt == old(readAt)[path := start]
      ensures done ==> sessionVerified == old(sessionVerified) + {path} && dirty == old(dirty) - {path}
      ensures !done ==> entries == old(entries) && dirty == old(dirty) && sessionVerified == old(sessionVerified)
    {
      hide Count, StaleGiven, VerifiedGiven, BucketsAgree;
      SameCount(marks, start, path);
      done := generation == Generation(path);
      if !done {
        Marked(path, generation, start);
        return;
      }
      Store(path, start, row);
    }

    method Store(path: Path, ghost start: nat, row: Row)
      requires Inv() && start <= |marks| && path !in marks[start..]
      modifies `entries, `sessionVerified, `dirty, `readAt, `unmarked
      ensures Inv()
      ensures entries == old(entries)[path := row] && sessionVerified == old(sessionVerified) + {path}
      ensures dirty == old(dirty) - {path} && readAt == old(readAt)[path := start]
    {
      hide CountsMarks, BucketsAgree, StaleGiven, VerifiedGiven, ReadSinceMarked;
      StoreStale(path, start, row);
      SetEntry(path, start, row);
      VerifiedMore(path);
      sessionVerified := sessionVerified + {path};
      dirty := dirty - {path};
    }

    /** With a fresh entry and a cleared flag, dirty is still stale. */
    lemma StoreStale(path: Path, start: nat, row: Row)
      requires DirtyIsStale() && start <= |marks| && path !in marks[start..]
      ensures StaleWith(entries[path := row], readAt[path := start], dirty - {path})
    {
    }

    ghost predicate StaleWith(rows: Rows, times: map<Path, nat>, flags: set<Path>)
      reads this`marks
    {
      forall p :: p in rows ==> (p in flags <==> !(p in times && times[p] <= |marks| && p !in marks[times[p]..]))
    }

    lemma VerifiedMore(path: Path)
      requires path in entries && VerifiedKnown()
      ensures VerifiedGiven(sessionVerified + {path}, removing)
    {
    }

    method SetEntry(path: Path, ghost start: nat, row: Row)
      requires BucketsAgree() && VerifiedKnown()
      requires StaleWith(entries[path := row], readAt[path := start], dirty - {path})
      modifies `entries, `readAt, `unmarked
      ensures BucketsAgree() && VerifiedKnown() && StaleGiven(dirty - {path})
      ensures entries == old(entries)[path := row] && readAt == old(readAt)[path := start]
    {
      OtherRows(path, entries[path := row]);
      entries := entries[path := row];
      readAt := readAt[path := start];
      unmarked := unmarked + multiset{bucketOf(path)};
    }

    /** Another generation: the path was marked since. */
    lemma Marked(path: Path, generation: nat, start: nat)
      requires CountsMarks() && Observed(path, generation, start) && generation != Generation(path)
      ensures path in marks[start..]
    {
      MoreMarks(marks, start, path);
    }

    static lemma WholeCount(marks: seq<Path>, start: nat, path: Path)
      requires start <= |marks|
      ensures start == |marks| ==> Count(marks[..start], path) == Count(marks, path)
    {
      if start == |marks| {
        assert marks[..start] == marks;
      }
    }

    static lemma {:induction false} MoreMarks(marks: seq<Path>, start: nat, path: Path)
      requires start <= |marks| && Count(marks[..start], path) != Count(marks, path)
      ensures path in marks[start..]
      decreases |marks|
    {
      WholeCount(marks, start, path);
      var n := |marks| - 1;
      assert marks[..n][..start] == marks[..start];
      assert marks[start..] == marks[..n][start..] + [marks[n]];
      if marks[n] != path {
        MoreMarks(marks[..n], start, path);
      }
    }

    /** Changing one entry leaves the other buckets alone. */
    lemma OtherRows(path: Path, after: Rows)
      requires forall p :: p != path ==> (p in after <==> p in entries) && (p in entries ==> after[p] == entries[p])
      ensures forall b :: b != bucketOf(path) ==> RowsOf(after, bucketOf, b) == RowsOf(entries, bucketOf, b)
      ensures forall b :: b != bucketOf(path) ==> RowsOf(after - uncollected, bucketOf, b) == RowsOf(entries - uncollected, bucketOf, b)
    {
    }

    /** The bucket is known at last. */
    method MarkBucket(b: nat)
      requires Inv() && b in unmarked
      modifies `dirtyBuckets, `unmarked
      ensures Inv() && b in dirtyBuckets
    {
      dirtyBuckets := dirtyBuckets + {b};
      unmarked := unmarked - multiset{b};
    }

    /** The entry goes; its bucket is still to be marked. */
    method TakeEntry(path: Path)
      requires BucketsAgree() && path in entries
      modifies `entries, `unmarked
      ensures BucketsAgree() && entries == old(entries) - {path} && unmarked == old(unmarked) + multiset{bucketOf(path)}
    {
      OtherRows(path, entries - {path});
      entries := entries - {path};
      unmarked := unmarked + multiset{bucketOf(path)};
    }

    /** `inspect` finds no file: the entry goes at once, its flags only after the bucket is known. */
    method RemoveMissing(path: Path)
      requires Inv() && path in entries
      modifies `entries, `removing, `unmarked
      ensures Inv() && entries == old(entries) - {path} && removing == old(removing) + multiset{path}
    {
      hide BucketsAgree, CountsMarks;
      TakeEntry(path);
      removing := removing + multiset{path};
    }

    /**
     The flags of a removed entry are cleared. Every remaining entry that is
     not dirty is still fresh exactly when no overlapping inspection has stored
     an entry for the path that is dirty by now: the guard that is missing here.
     */
    method FinishMissing(path: Path)
      requires Inv() && path in removing
      modifies `sessionVerified, `dirty, `removing
      ensures CountsMarks() && ReadBefore() && VerifiedKnown() && BucketsAgree()
      ensures FreshEntries() <==> !(path in entries && path in old(dirty))
      ensures FreshEntries() ==> Inv()
      ensures removing == old(removing) - multiset{path}
      ensures dirty == old(dirty) - {path} && sessionVerified == old(sessionVerified) - {path}
    {
      hide BucketsAgree, CountsMarks, Count, RowsOf, BucketPending, VerifiedGiven;
      ClearVerified(path);
      FreshWithout(path);
      dirty := dirty - {path};
    }

    method ClearVerified(path: Path)
      requires Inv() && path in removing
      modifies `sessionVerified, `removing
      ensures Inv() && sessionVerified == old(sessionVerified) - {path} && removing == old(removing) - multiset{path}
    {
      hide BucketsAgree, CountsMarks, DirtyIsStale, VerifiedGiven;
      VerifiedWithout(path);
      sessionVerified, removing := sessionVerified - {path}, removing - multiset{path};
    }

    /** Clearing one flag leaves all entries fresh unless it was the flag of an entry. */
    lemma FreshWithout(path: Path)
      requires DirtyIsStale()
      ensures (forall p :: p in entries && p !in dirty - {path} ==> ReadSinceMarked(p)) <==> !(path in entries && path in dirty)
      ensures !(path in entries && path in dirty) ==> StaleGiven(dirty - {path})
    {
      assert path in entries && path in dirty ==> !ReadSinceMarked(path);
    }

    /** `finishListing` for one path that is no longer listed. */
    method DropUnlisted(path: Path)
      requires Inv() && path in entries
      modifies `entries, `sessionVerified, `dirty, `unmarked
      ensures Inv() && entries == old(entries) - {path} && path !in sessionVerified && path !in dirty
    {
      hide BucketsAgree, CountsMarks;
      TakeEntry(path);
      sessionVerified, dirty := sessionVerified - {path}, dirty - {path};
    }

    // ------------------------------------------------------------------ flush

    /** The marked buckets are taken over; their rows are still to be collected. */
    method BeginFlush()
      requires Inv() && flushing == map[] && uncollected == {}
      modifies `dirtyBuckets, `flushing, `uncollected
      ensures Inv() && dirtyBuckets == {} && flushing.Keys == old(dirtyBuckets) && uncollected == entries.Keys
    {
      flushing := map b | b in dirtyBuckets :: map[];
      dirtyBuckets, uncollected := {}, entries.Keys;
    }

    /** One entry of the walk over the index; entries that change later mark their bucket again. */
    method CollectRow(path: Path)
      requires Inv() && path in uncollected
      modifies `flushing, `uncollected
      ensures Inv() && uncollected == old(uncollected) - {path} && flushing.Keys == old(flushing).Keys
    {
      var b := bucketOf(path);
      CollectedRows(path);
      if path in entries && b in flushing {
        flushing := flushing[b := flushing[b][path := entries[path]]];
      }
      uncollected := uncollected - {path};
    }

    lemma CollectedRows(path: Path)
      requires path in uncollected
      ensures forall b :: b != bucketOf(path) || path !in entries ==>
                RowsOf(entries - (uncollected - {path}), bucketOf, b) == RowsOf(entries - uncollected, bucketOf, b)
      ensures path in entries ==>
                RowsOf(entries - (uncollected - {path}), bucketOf, bucketOf(path))
                == RowsOf(entries - uncollected, bucketOf, bucketOf(path))[path := entries[path]]
    {
    }

    method WriteBucket(b: nat)
      requires Inv() && b in flushing && uncollected == {}
      modifies `saved, `flushing
      ensures Inv() && saved == old(saved)[b := old(flushing)[b]] && flushing == old(flushing) - {b}
    {
      assert entries - uncollected == entries;
      saved := saved[b := flushing[b]];
      flushing := flushing - {b};
    }

    /** A failed flush marks what it has not written; the file it was writing may be torn. */
    method AbortFlush()
      requires Inv()
      modifies `saved, `flushing, `uncollected, `dirtyBuckets
      ensures Inv() && flushing == map[] && uncollected == {} && dirtyBuckets == old(dirtyBuckets) + old(flushing).Keys
    {
      hide CountsMarks, ReadBefore, DirtyIsStale, VerifiedGiven, RowsOf;
      if flushing != map[] {
        var b: nat :| b in flushing;
        var torn: Rows := *;
        saved := saved[b := torn];
      }
      dirtyBuckets := dirtyBuckets + flushing.Keys;
      flushing, uncollected := map[], {};
    }

    /** When everything is marked and written, the bucket files are the index. */
    lemma FlushedAgrees()
      requires Inv() && flushing == map[] && dirtyBuckets == {} && unmarked == multiset{}
      ensures forall p :: p in entries ==> bucketOf(p) in saved && p in saved[bucketOf(p)] && saved[bucketOf(p)][p] == entries[p]
    {
      forall p | p in entries
        ensures bucketOf(p) in saved && p in saved[bucketOf(p)] && saved[bucketOf(p)][p] == entries[p]
      {
        var b := bucketOf(p);
        assert !BucketPending(b);
        assert p in RowsOf(entries, bucketOf, b);
      }
    }
  }

  /**
   Two overlapping inspections of one path: the first has removed the entry and
   waits for its bucket, the second stores a new entry, the path is marked
   again, and the first clears the mark. The entry is stale and not dirty.
   */
  method LostMark(inventory: Inventory, path: Path, row: Row)
    requires inventory.Inv() && path in inventory.entries
    modifies inventory
    ensures path in inventory.entries && path !in inventory.dirty && !inventory.ReadSinceMarked(path)
    ensures !inventory.FreshEntries()
  {
    inventory.RemoveMissing(path);
    var generation, start := inventory.BeginInspect(path);
    assert inventory.marks[start..] == [];
    var done := inventory.Commit(path, generation, start, row);
    inventory.MarkDirty(path);
    assert inventory.marks[start..] == [path];
    inventory.FinishMissing(path);
  }

  // -------------------------------------------------------------------- audit

  /** The remainder of `i` by `n`. */
  function Wrap(i: nat, n: nat): (r: nat)
    requires 0 < n
    ensures r < n
  {
    if i < n then i else Wrap(i - n, n)
  }

  /** The paths at the positions `from` to `to` of the cyclic audit list. */
  ghost function Visited(paths: seq<Path>, from: nat, to: nat): set<Path>
    requires |paths| > 0
  {
    set i | from <= i < to :: paths[Wrap(i, |paths|)]
  }

  /** Whether the audit has to read the file of the entry. */
  predicate Due(inventory: Inventory, aged: set<Path>, path: Path)
    reads inventory`sessionVerified, inventory`dirty
  {
    path !in inventory.sessionVerified || path in aged || path in inventory.dirty
  }

  /** The entries among the paths hold what was read in this session, after the last mark. */
  ghost predicate Audited(inventory: Inventory, paths: set<Path>)
    reads inventory`sessionVerified, inventory`dirty, inventory`entries
  {
    forall p :: p in paths && p in inventory.entries ==> p in inventory.sessionVerified && p !in inventory.dirty
  }

  /** One visit: an entry that is due is read and stored. */
  method Visit(inventory: Inventory, path: Path, aged: set<Path>, contents: Path -> Row, ghost before: set<Path>) returns (checked: bool)
    requires inventory.Inv() && Audited(inventory, before)
    modifies inventory`entries, inventory`sessionVerified, inventory`dirty, inventory`readAt, inventory`unmarked
    ensures inventory.Inv() && Audited(inventory, before + {path})
    ensures checked <==> path in inventory.entries && old(Due(inventory, aged, path))
    ensures inventory.entries == if checked then old(inventory.entries)[path := contents(path)] else old(inventory.entries)
    ensures inventory.entries.Keys == old(inventory.entries.Keys)
    ensures forall p :: p != path ==> (p in inventory.sessionVerified <==> p in old(inventory.sessionVerified)) && (p in inventory.dirty <==> p in old(inventory.dirty))
    ensures forall p :: p != path ==> (Due(inventory, aged, p) <==> old(Due(inventory, aged, p)))
    ensures old(Due(inventory, aged, path)) || !Due(inventory, aged, path)
  {
    checked := path in inventory.entries && Due(inventory, aged, path);
    if checked {
      var generation, start := inventory.BeginInspect(path);
      assert inventory.marks[start..] == [];
      var done := inventory.Commit(path, generation, start, contents(path));
    }
  }

  /**
   `verifyStep` while nothing is marked: it visits at least one path, in cyclic
   order, reads the entries that are due, and may stop early whenever its
   budgets are used up. Every entry it has visited is verified and clean.
   */
  method VerifyStep(inventory: Inventory, paths: seq<Path>, cursor: nat, aged: set<Path>, contents: Path -> Row, maxFiles: nat, ghost before: set<Path>)
    returns (next: nat)
    requires inventory.Inv() && Audited(inventory, before)
    requires |paths| > 0 && maxFiles > 0
    modifies inventory`entries, inventory`sessionVerified, inventory`dirty, inventory`readAt, inventory`unmarked
    ensures inventory.Inv() && cursor < next <= cursor + |paths|
    ensures Audited(inventory, before + Visited(paths, cursor, next))
    ensures inventory.entries.Keys == old(inventory.entries.Keys)
    ensures forall p :: p in inventory.entries ==>
              inventory.entries[p] == if p in Visited(paths, cursor, next) && (p !in old(inventory.sessionVerified) || p in aged || p in old(inventory.dirty))
                                      then contents(p) else old(inventory.entries)[p]
  {
    DueIs(inventory, aged);
    hide Inventory.Inv, Due;
    next := cursor;
    var checked, visited := 0, 0;
    assert before + Visited(paths, cursor, cursor) == before;
    while visited < |paths| && visited < 512 && checked < maxFiles
      invariant next == cursor + visited && visited <= |paths|
      invariant checked > 0 ==> visited > 0
      invariant inventory.Inv() && Audited(inventory, before + Visited(paths, cursor, next)) && inventory.entries.Keys == old(inventory.entries.Keys)
      invariant forall p :: p !in Visited(paths, cursor, next) ==> (Due(inventory, aged, p) <==> old(Due(inventory, aged, p)))
      invariant forall p :: Due(inventory, aged, p) ==> old(Due(inventory, aged, p))
      invariant forall p :: p in inventory.entries ==>
                  inventory.entries[p] == if p in Visited(paths, cursor, next) && old(Due(inventory, aged, p)) then contents(p) else old(inventory.entries)[p]
    {
      var late: bool := *;
      if visited > 0 && late {
        break;
      }
      var path := paths[Wrap(next, |paths|)];
      var due := Visit(inventory, path, aged, contents, before + Visited(paths, cursor, next));
      assert Visited(paths, cursor, next + 1) == Visited(paths, cursor, next) + {path};
      assert before + Visited(paths, cursor, next + 1) == before + Visited(paths, cursor, next) + {path};
      next, visited := next + 1, visited + 1;
      if due {
        checked := checked + 1;
        var spent: bool := *;
        if spent {
          break;
        }
      }
    }
  }

  /** An entry has to be read unless it was verified in this session, recently enough, and not marked since. */
  lemma DueIs(inventory: Inventory, aged: set<Path>)
    ensures forall p :: Due(inventory, aged, p) <==> p !in inventory.sessionVerified || p in aged || p in inventory.dirty
  {
  }

  lemma FullCircle(paths: seq<Path>, from: nat, to: nat, path: Path)
    requires path in paths && to >= from + |paths|
    ensures path in Visited(paths, from, to)
  {
    var j :| 0 <= j < |paths| && paths[j] == path;
    var i := Reached(from, j, |paths|);
    assert paths[Wrap(i, |paths|)] == path;
  }

  /** Every residue occurs among `n` consecutive numbers. */
  lemma {:induction false} Reached(from: nat, j: nat, n: nat) returns (i: nat)
    requires j < n
    ensures from <= i < from + n && Wrap(i, n) == j
  {
    if from == 0 {
      i := j;
    } else {
      i := Reached(from - 1, j, n);
      if i < from {
        i := i + n;
      }
    }
  }

  /** As many quiet steps as there are paths leave nothing pending: every entry is verified and clean. */
  method DrainAudit(inventory: Inventory, paths: seq<Path>, cursor: nat, aged: set<Path>, contents: Path -> Row, maxFiles: nat, steps: nat)
    requires inventory.Inv() && inventory.removing == multiset{}
    requires |paths| > 0 && maxFiles > 0 && steps >= |paths| && forall p :: p in inventory.entries ==> p in paths
    modifies inventory`entries, inventory`sessionVerified, inventory`dirty, inventory`readAt, inventory`unmarked
    ensures inventory.Inv() && inventory.Unverified() == 0 && forall p :: p in inventory.entries ==> p !in inventory.dirty
  {
    hide Inventory.Inv;
    var at := cursor;
    assert Visited(paths, cursor, cursor) == {};
    for i := 0 to steps
      invariant at >= cursor + i && inventory.Inv() && Audited(inventory, Visited(paths, cursor, at))
      invariant inventory.entries.Keys == old(inventory.entries.Keys)
    {
      ghost var before := at;
      at := VerifyStep(inventory, paths, at, aged, contents, maxFiles, Visited(paths, cursor, at));
      assert Visited(paths, cursor, at) == Visited(paths, cursor, before) + Visited(paths, before, at);
    }
    forall p | p in inventory.entries
      ensures p in Visited(paths, cursor, at)
    {
      assert p in old(inventory.entries.Keys);
      FullCircle(paths, cursor, at, p);
    }
    AllVerified(inventory);
  }

  lemma AllVerified(inventory: Inventory)
    requires inventory.Inv() && inventory.removing == multiset{}
    requires forall p :: p in inventory.entries ==> p in inventory.sessionVerified
    ensures inventory.Unverified() == 0
  {
    inventory.NeverClamped();
    assert inventory.entries.Keys == inventory.sessionVerified;
  }
}
