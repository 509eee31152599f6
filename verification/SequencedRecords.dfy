/**
 Records that are never overwritten (plugin/src/operation-journal.ts:23-29,
 plugin/src/atomic-package.ts:23-36).
 */
module SequencedRecords {
  // Each write is a new file with a number, the valid file with the highest
  // number counts, and old files are removed afterwards.

  /** A record file: unreadable, or a record with its checksum verdict and its number. */
  datatype Stored<R> = Torn | Packed(record: R, intact: bool, sequence: int)

  /** Files by their unique names. */
  type Disk<R> = map<nat, Stored<R>>

  /** `Number.MAX_SAFE_INTEGER` */
  const MAX_SAFE := 9007199254740991

  predicate Safe(n: int) {
    -MAX_SAFE <= n <= MAX_SAFE
  }

  /** A read accepts the file. */
  predicate Valid<R>(s: Stored<R>) {
    s.Packed? && s.intact && Safe(s.sequence)
  }

  ghost predicate Newest<R>(disk: Disk<R>, n: nat) {
    n in disk && Valid(disk[n]) && forall m :: m in disk && Valid(disk[m]) && m != n ==> disk[m].sequence < disk[n].sequence
  }

  /** A read returns `record`, whatever order the files are listed in. */
  ghost predicate Reads<R>(disk: Disk<R>, record: R) {
    exists n :: Newest(disk, n) && disk[n].record == record
  }

  /** Packed with a checksum that holds, under a number that is exact as a floating-point number. */
  ghost predicate Acceptable<R>(s: Stored<R>) {
    s.Packed? && s.intact && -9007199254740991 <= s.sequence <= 9007199254740991
  }

  /** A read returns the record of an acceptable file with the highest number, and only of one. */
  lemma ReadsIff<R>(disk: Disk<R>, record: R)
    ensures Reads(disk, record) <==>
            exists n :: n in disk && Acceptable(disk[n]) && disk[n].record == record
                        && forall m :: m in disk && m != n && Acceptable(disk[m]) ==> disk[m].sequence < disk[n].sequence
  {
    assert forall s: Stored<R> :: Valid(s) <==> Acceptable(s);
    if n :| n in disk && Acceptable(disk[n]) && disk[n].record == record
            && forall m :: m in disk && m != n && Acceptable(disk[m]) ==> disk[m].sequence < disk[n].sequence {
      assert Newest(disk, n);
    }
  }

  ghost predicate ValidBelow<R>(disk: Disk<R>, sequence: int) {
    forall n :: n in disk && Valid(disk[n]) ==> disk[n].sequence <= sequence
  }

  lemma ReadsOne<R>(disk: Disk<R>, a: R, b: R)
    requires Reads(disk, a) && Reads(disk, b)
    ensures a == b
  {
    var m :| Newest(disk, m) && disk[m].record == a;
    var n :| Newest(disk, n) && disk[n].record == b;
    assert m == n;
  }

  /** A valid file numbered above all others is what a read returns. */
  lemma HighestReads<R>(disk: Disk<R>, n: nat, s: Stored<R>, sequence: int)
    requires ValidBelow(disk, sequence) && n !in disk && Valid(s) && s.sequence > sequence
    ensures Reads(disk[n := s], s.record)
  {
    assert Newest(disk[n := s], n);
  }

  /** A torn file changes nothing. */
  lemma TornReads<R>(disk: Disk<R>, n: nat, record: R)
    requires Reads(disk, record) && n !in disk
    ensures Reads(disk[n := Torn], record)
  {
    var m :| Newest(disk, m) && disk[m].record == record;
    assert Newest(disk[n := Torn], m);
  }

  /** `Number.isSafeInteger` bounds the numbers that can be read. */
  lemma OnlyFile<R>(disk: Disk<R>, n: nat)
    requires disk.Keys == {n} && disk[n].Packed? && disk[n].intact && disk[n].sequence >= 0
    ensures Reads(disk, disk[n].record) <==> disk[n].sequence <= MAX_SAFE
  {
    if disk[n].sequence <= MAX_SAFE {
      assert Newest(disk, n);
    }
  }
}
