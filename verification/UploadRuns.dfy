/**
 Runs of the upload server that go wrong (apps/server/src/content-upload.ts:87-136,
 196-224): file operations that outlive their lease, and two requests of one
 process, which share the owner of the lease.
 */
module UploadRuns {
  import opened Wrappers
  import opened ContentUpload
  import opened UploadRequests

  const FIRST := Worker(1, 0)
  const OTHER_PROCESS := Worker(2, 0)
  const SAME_PROCESS := Worker(1, 1)

  // ----------------------------------------------------------- a stalled request

  const BYTE: Bytes := [7]
  const OTHER: Bytes := [8]

  /** The first request has the lease and has come as far as `l`; the staging file held `file` when it began. */
  function Stalled(size: nat, hash: Digest, file: Bytes, began: nat, l: Local, verified: set<nat>): Session {
    Begun(size, hash).(file := file, lease := Some(Lease(1, began + LEASE_MS)), locals := map[FIRST := l], verified := verified, now := began)
  }

  /** The session as the first request finds it, with bytes a crash has left in the staging file. */
  function Fresh(size: nat, hash: Digest, file: Bytes, began: nat): Session {
    Begun(size, hash).(file := file, lease := if began == 0 then None else Some(Lease(1, began)), now := began)
  }

  lemma StalledScan(size: nat, hash: Digest, file: Bytes, began: nat)
    ensures Run(Fresh(size, hash, file, began), [Acquire(FIRST), Scan(FIRST)]) == Stalled(size, hash, file, began, Scanned(0, |file|), {})
  {
    RunTwo(Fresh(size, hash, file, began), Acquire(FIRST), Scan(FIRST));
    var none: map<Worker, Local> := map[];
    assert none[FIRST := Entered(0, false)][FIRST := Scanned(0, |file|)] == map[FIRST := Scanned(0, |file|)];
  }

  lemma StalledReady(size: nat, hash: Digest, file: Bytes, began: nat)
    ensures Run(Fresh(size, hash, file, began), [Acquire(FIRST), Scan(FIRST), RecoverTransaction(FIRST)])
            == Stalled(size, hash, file, began, Ready(0, |file|), {1})
  {
    var s := Fresh(size, hash, file, began);
    StalledScan(size, hash, file, began);
    RunMore(s, [Acquire(FIRST), Scan(FIRST)], RecoverTransaction(FIRST));
    assert [Acquire(FIRST), Scan(FIRST)] + [RecoverTransaction(FIRST)] == [Acquire(FIRST), Scan(FIRST), RecoverTransaction(FIRST)];
    assert Below([], 0) == [];
    assert map[FIRST := Scanned(0, |file|)][FIRST := Ready(0, |file|)] == map[FIRST := Ready(0, |file|)];
  }

  /** With an empty staging file there is nothing to truncate. */
  lemma StalledTrimmed(size: nat, hash: Digest)
    ensures Run(Begun(size, hash), [Acquire(FIRST), Scan(FIRST), RecoverTransaction(FIRST), KeepSize(FIRST)])
            == Stalled(size, hash, [], 0, Trimmed(0), {1})
  {
    var x := [Acquire(FIRST), Scan(FIRST), RecoverTransaction(FIRST)];
    StalledReady(size, hash, [], 0);
    RunMore(Begun(size, hash), x, KeepSize(FIRST));
    assert x + [KeepSize(FIRST)] == [Acquire(FIRST), Scan(FIRST), RecoverTransaction(FIRST), KeepSize(FIRST)];
    assert map[FIRST := Ready(0, 0)][FIRST := Trimmed(0)] == map[FIRST := Trimmed(0)];
  }

  /** Once its lease has run out the session is free for others. */
  lemma ExpiredIntact(size: nat, hash: Digest, file: Bytes, began: nat, l: Local, verified: set<nat>, w: Worker)
    requires w != FIRST && (l.Scanned? || l.Ready? || l.Trimmed?)
    ensures var s := Stalled(size, hash, file, began, l, verified);
      && Intact(s.(now := began + LEASE_MS), w)
      && Next(s, Tick(LEASE_MS)) == s.(now := began + LEASE_MS)
  {
  }

  lemma IntactDatabase(s: Session, w: Worker)
    requires Intact(s, w)
    ensures DatabaseOk(s) && Contiguous(s.receipts, s.size)
  {
  }

  // ------------------------------------------------------------ a late truncation

  /** A request has written its byte and its process crashes before the receipt; the lease runs out. */
  lemma Leftover()
    ensures var steps := [Acquire(FIRST), Scan(FIRST), RecoverTransaction(FIRST), KeepSize(FIRST), Write(FIRST, BYTE, 1), Crash(1), Tick(LEASE_MS)];
      Run(Begun(1, Sha256(BYTE)), steps) == Fresh(1, Sha256(BYTE), BYTE, LEASE_MS)
  {
    var start := Begun(1, Sha256(BYTE));
    var x := [Acquire(FIRST), Scan(FIRST), RecoverTransaction(FIRST), KeepSize(FIRST)];
    var y := [Write(FIRST, BYTE, 1), Crash(1), Tick(LEASE_MS)];
    StalledTrimmed(1, Sha256(BYTE));
    RunConcat(start, x, y);
    var s := Run(start, x);
    RunThree(s, Write(FIRST, BYTE, 1), Crash(1), Tick(LEASE_MS));
    WriteStep(s, FIRST, BYTE);
    var a := Next(s, Write(FIRST, BYTE, 1));
    assert a.file == BYTE;
    var b := Next(a, Crash(1));
    assert b.locals == map[] && b.verified == {};
    assert x + y == [Acquire(FIRST), Scan(FIRST), RecoverTransaction(FIRST), KeepSize(FIRST), Write(FIRST, BYTE, 1), Crash(1), Tick(LEASE_MS)];
  }

  /**
   A truncation that outlives its lease: the byte left by a crash is to be cut
   off, another process uploads it anew in the meantime, and the late truncation
   takes the acknowledged byte from the file.
   */
  lemma LateTruncation() returns (steps: seq<ContentUpload.Step>)
    ensures var s := Run(Begun(1, Sha256(BYTE)), steps);
      DatabaseOk(s) && |s.receipts| == 1 && s.offset == 1 && s.file == [] && !FileOk(s)
    ensures !Always(Begun(1, Sha256(BYTE)), steps, FitsBacked)
  {
    hide Next, Intact, ServeChunk, Stalled, Fresh, DatabaseOk;
    var start := Begun(1, Sha256(BYTE));
    var crash := [Acquire(FIRST), Scan(FIRST), RecoverTransaction(FIRST), KeepSize(FIRST), Write(FIRST, BYTE, 1), Crash(1), Tick(LEASE_MS)];
    Leftover();
    var again := [Acquire(FIRST), Scan(FIRST), RecoverTransaction(FIRST)];
    StalledReady(1, Sha256(BYTE), BYTE, LEASE_MS);
    RunConcat(start, crash, again);
    var a := Stalled(1, Sha256(BYTE), BYTE, LEASE_MS, Ready(0, 1), {1});
    RunMore(start, crash + again, Tick(LEASE_MS));
    ExpiredIntact(1, Sha256(BYTE), BYTE, LEASE_MS, Ready(0, 1), {1}, OTHER_PROCESS);
    var b := Next(a, Tick(LEASE_MS));
    var upload := ChunkSteps(OTHER_PROCESS, BYTE);
    ByteTaken(b, OTHER_PROCESS);
    var before := crash + again + [Tick(LEASE_MS)];
    RunConcat(start, before, upload);
    steps := before + upload + [Truncate(FIRST)];
    RunMore(start, before + upload, Truncate(FIRST));
    LateTruncate(Run(b, upload));
    NotBacked(1, Sha256(BYTE), steps);
  }

  lemma ByteTaken(b: Session, w: Worker)
    requires w != FIRST && b == Stalled(1, Sha256(BYTE), BYTE, LEASE_MS, Ready(0, 1), {1}).(now := 2 * LEASE_MS) && Intact(b, w)
    ensures var t := Run(b, ChunkSteps(w, BYTE));
      At(t, FIRST) == Ready(0, 1) && |t.receipts| == 1 && t.offset == 1 && t.size == 1 && !t.complete && DatabaseOk(t)
  {
    hide Intact, ChunkSteps, Run;
    ServedFacts(b, w, 0, BYTE);
    ServedIsRun(b, w, 0, BYTE);
    ServedIntact(b, w, 0, BYTE);
    IntactDatabase(ServeChunk(b, w, 0, BYTE).session, w);
  }

  lemma LateTruncate(s: Session)
    requires At(s, FIRST) == Ready(0, 1) && |s.receipts| == 1 && s.offset == 1 && s.size == 1 && !s.complete && DatabaseOk(s)
    ensures var t := Next(s, Truncate(FIRST));
      DatabaseOk(t) && |t.receipts| == 1 && t.offset == 1 && t.file == [] && !FileOk(t)
  {
    var t := Next(s, Truncate(FIRST));
    assert !Verifies(t.receipts[0], 0, t.file, t.size);
  }

  lemma NotBacked(size: nat, hash: Digest, steps: seq<ContentUpload.Step>)
    requires !FileOk(Run(Begun(size, hash), steps))
    ensures !Always(Begun(size, hash), steps, FitsBacked)
  {
    hide DatabaseOk, FileOk;
    FileAlwaysIff(size, hash, steps);
    assert steps[..|steps|] == steps;
  }

  // ---------------------------------------------------------------- a late write

  /** The steps of a chunk request up to its transaction. */
  function HalfSteps(w: Worker, bytes: Bytes): seq<ContentUpload.Step> {
    RecoverSteps(w) + [Write(w, bytes, |bytes|), Sync(w)]
  }

  /** The next chunk is written and synced, and not yet recorded. */
  lemma HalfSynced(s: Session, w: Worker, bytes: Bytes)
    requires Intact(s, w) && !s.complete && s.offset < s.size && |bytes| == ChunkSize(s.offset, s.size)
    ensures var t := Run(s, HalfSteps(w, bytes));
      && At(t, w) == Synced(s.offset, bytes) && (forall v :: v != w ==> At(t, v) == At(s, v))
      && t.receipts == s.receipts && t.offset == s.offset && t.size == s.size && t.complete == s.complete && t.file == Kept(s) + bytes
      && forall v: Worker :: v.process == w.process ==> Holds(t, v)
  {
    RecoveredFacts(s, w);
    OffsetAligned(s);
    hide Next, Intact, Recovered, Run, RecoverSteps;
    var r := Recovered(s, w);
    RecoveredIsRun(s, w);
    RunConcat(s, RecoverSteps(w), [Write(w, bytes, |bytes|), Sync(w)]);
    RunTwo(r, Write(w, bytes, |bytes|), Sync(w));
    WriteStep(r, w, bytes);
    SyncStep(Next(r, Write(w, bytes, |bytes|)), w);
  }

  lemma OffsetAligned(s: Session)
    requires DatabaseOk(s) && s.offset < s.size
    ensures s.offset % CHUNK_BYTES == 0
  {
  }

  /** Other bytes over those just synced, and then their receipt. */
  lemma LateWriteEnds(s: Session)
    requires At(s, OTHER_PROCESS) == Synced(0, BYTE) && At(s, FIRST) == Trimmed(0) && Holds(s, OTHER_PROCESS)
    requires s.receipts == [] && s.size == 1 && !s.complete && s.offset == 0 && s.file == BYTE
    ensures var t := Run(s, [Write(FIRST, OTHER, 1), ChunkTransaction(OTHER_PROCESS)]);
      DatabaseOk(t) && |t.receipts| == 1 && t.offset == 1 && t.file == OTHER && !FileOk(t)
  {
    LateWriteMeets(s);
    var a := Next(s, Write(FIRST, OTHER, 1));
    hide Next;
    RunTwo(s, Write(FIRST, OTHER, 1), ChunkTransaction(OTHER_PROCESS));
    ChunkStep(a, OTHER_PROCESS, 0);
    var t := Next(a, ChunkTransaction(OTHER_PROCESS));
    assert OTHER[0..1] == OTHER && OTHER[0] != BYTE[0];
    assert !Verifies(t.receipts[0], 0, t.file, t.size);
  }

  lemma LateWriteMeets(s: Session)
    requires At(s, OTHER_PROCESS) == Synced(0, BYTE) && At(s, FIRST) == Trimmed(0) && s.size == 1 && s.file == BYTE
    ensures var a := Next(s, Write(FIRST, OTHER, 1));
      a == s.(file := OTHER, locals := a.locals) && At(a, OTHER_PROCESS) == Synced(0, BYTE)
  {
    assert OTHER[..1] == OTHER && Overwritten(BYTE, 0, OTHER) == OTHER;
  }

  /**
   A write that outlives its lease: two processes, one request each. The late
   write comes between the sync of the other request and its transaction, meets
   no acknowledged byte, and the receipt is then for bytes that are gone.
   */
  lemma LateWrite() returns (steps: seq<ContentUpload.Step>)
    ensures var s := Run(Begun(1, Sha256(BYTE)), steps);
      DatabaseOk(s) && |s.receipts| == 1 && s.offset == 1 && s.file == OTHER && !FileOk(s)
    ensures !Always(Begun(1, Sha256(BYTE)), steps, FitsBacked)
  {
    hide Next, Intact, ServeChunk, Stalled, DatabaseOk, HalfSteps, FileOk;
    var start := Begun(1, Sha256(BYTE));
    var opening := [Acquire(FIRST), Scan(FIRST), RecoverTransaction(FIRST), KeepSize(FIRST)];
    StalledTrimmed(1, Sha256(BYTE));
    RunMore(start, opening, Tick(LEASE_MS));
    ExpiredIntact(1, Sha256(BYTE), [], 0, Trimmed(0), {1}, OTHER_PROCESS);
    var first := opening + [Tick(LEASE_MS)];
    var a := Run(start, first);
    StalledFacts(1, Sha256(BYTE), [], 0, Trimmed(0), {1});
    HalfSynced(a, OTHER_PROCESS, BYTE);
    var second := first + HalfSteps(OTHER_PROCESS, BYTE);
    RunConcat(start, first, HalfSteps(OTHER_PROCESS, BYTE));
    var last := [Write(FIRST, OTHER, 1), ChunkTransaction(OTHER_PROCESS)];
    assert Kept(a) + BYTE == BYTE;
    LateWriteEnds(Run(start, second));
    steps := second + last;
    RunConcat(start, second, last);
    NotBacked(1, Sha256(BYTE), steps);
  }

  lemma StalledFacts(size: nat, hash: Digest, file: Bytes, began: nat, l: Local, verified: set<nat>)
    ensures var s := Stalled(size, hash, file, began, l, verified);
      s.receipts == [] && s.size == size && !s.complete && s.offset == 0 && s.file == file && At(s, FIRST) == l
  {
  }

  // ------------------------------------------------------------ a shared owner

  const SIZE := CHUNK_BYTES + 1
  const WHOLE: Bytes := seq(SIZE, i => 0)
  const HEAD: Bytes := WHOLE[..CHUNK_BYTES]
  const TAIL: Bytes := WHOLE[CHUNK_BYTES..]

  /** The first chunk has arrived through another request; the first request still believes that none has. */
  lemma HeadTaken()
    ensures var s := Stalled(SIZE, Sha256(WHOLE), [], 0, Scanned(0, 0), {}).(now := LEASE_MS);
      var t := Run(s, ChunkSteps(SAME_PROCESS, HEAD));
      && Intact(t, SAME_PROCESS) && t.size == SIZE && t.offset == CHUNK_BYTES && |t.receipts| == 1 && !t.complete
      && At(t, FIRST) == Scanned(0, 0)
  {
    var s := Stalled(SIZE, Sha256(WHOLE), [], 0, Scanned(0, 0), {}).(now := LEASE_MS);
    ExpiredIntact(SIZE, Sha256(WHOLE), [], 0, Scanned(0, 0), {}, SAME_PROCESS);
    assert |HEAD| == ChunkSize(0, SIZE);
    hide Intact, ChunkSteps, Run;
    ServedFacts(s, SAME_PROCESS, 0, HEAD);
    ServedIsRun(s, SAME_PROCESS, 0, HEAD);
    ServedIntact(s, SAME_PROCESS, 0, HEAD);
  }

  /** The stalled request forgets the first chunk, and the transaction of the second finds a row it has not seen. */
  lemma ForgetHead(s: Session)
    requires At(s, SAME_PROCESS) == Synced(CHUNK_BYTES, TAIL) && At(s, FIRST) == Scanned(0, 0)
    requires Contiguous(s.receipts, SIZE) && |s.receipts| == 1 && s.size == SIZE && Holds(s, SAME_PROCESS) && Holds(s, FIRST)
    ensures var t := Run(s, [RecoverTransaction(FIRST), ChunkTransaction(SAME_PROCESS)]);
      |t.receipts| == 1 && t.receipts[0].index == 1 && t.offset == SIZE && !DatabaseOk(t)
    ensures !Fits(Next(s, RecoverTransaction(FIRST)), ChunkTransaction(SAME_PROCESS))
  {
    RunTwo(s, RecoverTransaction(FIRST), ChunkTransaction(SAME_PROCESS));
    assert |TAIL| == 1;
    BelowIsPrefix(s.receipts, SIZE, 0);
    var a := Next(s, RecoverTransaction(FIRST));
    assert a.receipts == [] && At(a, SAME_PROCESS) == Synced(CHUNK_BYTES, TAIL);
    hide Below;
    ChunkStep(a, SAME_PROCESS, 1);
  }

  /**
   Two requests of one process: the first, stalled past its lease, drops the
   receipt of the first chunk under the lease of the second; then the second
   records the second chunk. The database names all bytes acknowledged, and has
   no receipt for the first chunk.
   */
  lemma SharedOwner() returns (steps: seq<ContentUpload.Step>)
    ensures var s := Run(Begun(SIZE, Sha256(WHOLE)), steps);
      s.offset == s.size && |s.receipts| == 1 && s.receipts[0].index == 1 && !DatabaseOk(s)
    ensures !Always(Begun(SIZE, Sha256(WHOLE)), steps, Fits)
  {
    hide Next, Intact, Stalled, DatabaseOk, ChunkSteps, HalfSteps, Run;
    var start := Begun(SIZE, Sha256(WHOLE));
    var opening := [Acquire(FIRST), Scan(FIRST)];
    StalledScan(SIZE, Sha256(WHOLE), [], 0);
    RunMore(start, opening, Tick(LEASE_MS));
    ExpiredIntact(SIZE, Sha256(WHOLE), [], 0, Scanned(0, 0), {}, SAME_PROCESS);
    var first := opening + [Tick(LEASE_MS)];
    HeadTaken();
    var second := first + ChunkSteps(SAME_PROCESS, HEAD);
    RunConcat(start, first, ChunkSteps(SAME_PROCESS, HEAD));
    var a := Run(start, second);
    IntactDatabase(a, SAME_PROCESS);
    assert |TAIL| == ChunkSize(CHUNK_BYTES, SIZE);
    HalfSynced(a, SAME_PROCESS, TAIL);
    var third := second + HalfSteps(SAME_PROCESS, TAIL);
    RunConcat(start, second, HalfSteps(SAME_PROCESS, TAIL));
    var last := [RecoverTransaction(FIRST), ChunkTransaction(SAME_PROCESS)];
    ForgetHead(Run(start, third));
    steps := third + last;
    RunConcat(start, third, last);
    SizeKept(start, steps);
    Unsound(SIZE, Sha256(WHOLE), steps);
  }

  lemma Unsound(size: nat, hash: Digest, steps: seq<ContentUpload.Step>)
    requires !DatabaseOk(Run(Begun(size, hash), steps))
    ensures !Always(Begun(size, hash), steps, Fits)
  {
    hide DatabaseOk;
    DatabaseAlwaysIff(size, hash, steps);
    assert steps[..|steps|] == steps;
  }
}
