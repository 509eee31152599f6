/**
 Whole requests to the upload server (apps/server/src/content-upload.ts:91-103,
 196-272), each a run of the steps of `ContentUpload` while nobody else is at
 work on the session.
 */
module UploadRequests {
  import opened Wrappers
  import opened ContentUpload

  datatype Reply = Acknowledged(offset: nat) | Append | Refused

  /** A chunk as the client sends it. */
  datatype Sent = Sent(index: nat, body: Bytes)

  predicate HasReceipt(receipts: seq<Receipt>, index: nat, bytes: Bytes) {
    exists r :: r in receipts && r.index == index && r.hash == Sha256(bytes) && r.size == |bytes|
  }

  /** How `chunk` decides once `recover` has settled the row (apps/server/src/content-upload.ts:201-209). */
  function ChunkReply(s: Session, index: nat, bytes: Bytes): Reply {
    var offset := index * CHUNK_BYTES;
    if offset >= s.size || |bytes| != ChunkSize(offset, s.size) then Refused
    else if offset < s.offset then
      if HasReceipt(s.receipts, index, bytes) then Acknowledged(s.offset) else Refused
    else if s.complete || offset != s.offset then Refused
    else Append
  }

  // ------------------------------------------------------------------ recovery

  /** `exclusive` and `recover`: steps that are not called for change nothing. */
  function Recovered(s: Session, w: Worker): Session {
    Next(Next(Next(Scanning(s, w), Truncate(w)), KeepSize(w)), Sync(w))
  }

  function Scanning(s: Session, w: Worker): Session {
    Next(Next(Next(Next(s, Acquire(w)), Scan(w)), RecoverTransaction(w)), SkipScan(w))
  }

  /** The database and the file agree, and nobody holds the lease. */
  ghost predicate Intact(s: Session, w: Worker) {
    DatabaseOk(s) && FileOk(s) && BlobOk(s) && (s.lease.None? || s.lease.value.until <= s.now) && At(s, w).Outside?
  }

  /** What is left of the staging file: the acknowledged bytes. */
  function Kept(s: Session): Bytes {
    if s.complete || |s.file| < s.offset then s.file else s.file[..s.offset]
  }

  /** Only a file that has to be truncated is synced. */
  function KeptDurable(s: Session): Bytes {
    if s.complete || |s.file| == s.offset then s.durable else Kept(s)
  }

  function UnderLease(s: Session, w: Worker, l: Local, verified: set<nat>): Session {
    s.(lease := Some(Lease(w.process, s.now + LEASE_MS)), locals := s.locals[w := l], verified := verified)
  }

  lemma ScanningFacts(s: Session, w: Worker)
    requires Intact(s, w)
    ensures Scanning(s, w) == UnderLease(s, w, if s.complete then Entered(s.offset, true) else Ready(s.offset, |s.file|), Scanning(s, w).verified)
  {
    hide BlobOk;
    var a := Next(s, Acquire(w));
    assert a == UnderLease(s, w, Entered(s.offset, s.complete), s.verified);
    if s.complete {
    } else if NeedsScan(a, w, s.offset) {
      ScanFinds(s, w);
    } else {
      var b := Next(a, SkipScan(w));
      assert Next(a, Scan(w)) == a && Next(a, RecoverTransaction(w)) == a;
      assert b.locals == s.locals[w := Ready(s.offset, |s.file|)];
    }
  }

  /** A scan of an intact file finds every receipt. */
  lemma ScanFinds(s: Session, w: Worker)
    requires Intact(s, w) && !s.complete && NeedsScan(Next(s, Acquire(w)), w, s.offset)
    ensures Scanning(s, w) == UnderLease(s, w, Ready(s.offset, |s.file|), s.verified + {w.process})
  {
    hide BlobOk;
    var n := |s.receipts|;
    CountIsLongest(s.receipts, 0, s.file, s.size);
    assert CountVerified(s.receipts, 0, s.file, s.size) == n;
    BelowAll(s.receipts, s.size, n);
    hide Next, DatabaseOk, FileOk, CountVerified, Below;
    AcquireStep(s, w);
    var a := Next(s, Acquire(w));
    ScanStep(a, w, n);
    var b := Next(a, Scan(w));
    RecoverStep(b, w);
    var c := Next(b, RecoverTransaction(w));
    Again(s.locals, w, Entered(s.offset, false), Scanned(n, |s.file|));
    Again(s.locals, w, Scanned(n, |s.file|), Ready(s.offset, |s.file|));
    SkipStep(c, w);
  }

  lemma AcquireStep(s: Session, w: Worker)
    requires At(s, w).Outside? && (s.lease.None? || s.lease.value.until <= s.now)
    ensures Next(s, Acquire(w)) == UnderLease(s, w, Entered(s.offset, s.complete), s.verified)
  {
  }

  lemma ScanStep(a: Session, w: Worker, n: nat)
    requires At(a, w).Entered? && !At(a, w).complete && NeedsScan(a, w, At(a, w).offset) && CountVerified(a.receipts, 0, a.file, a.size) == n
    ensures Next(a, Scan(w)) == a.(locals := a.locals[w := Scanned(n, |a.file|)])
  {
  }

  lemma RecoverStep(b: Session, w: Worker)
    requires At(b, w).Scanned? && Holds(b, w) && Below(b.receipts, At(b, w).index) == b.receipts && Covered(At(b, w).index, b.size) == b.offset && !b.complete
    ensures Next(b, RecoverTransaction(w)) == b.(verified := b.verified + {w.process}, locals := b.locals[w := Ready(b.offset, At(b, w).found)])
  {
  }

  lemma SkipStep(c: Session, w: Worker)
    requires !At(c, w).Entered?
    ensures Next(c, SkipScan(w)) == c
  {
  }

  lemma Again(locals: map<Worker, Local>, w: Worker, a: Local, b: Local)
    ensures locals[w := a][w := b] == locals[w := b]
  {
  }

  lemma TruncateStep(a: Session, w: Worker)
    requires At(a, w).Ready? && At(a, w).offset <= |a.file| && At(a, w).found != At(a, w).offset
    ensures Next(a, Truncate(w)) == a.(file := a.file[..At(a, w).offset], locals := a.locals[w := Cut(At(a, w).offset)])
  {
  }

  lemma KeepStep(a: Session, w: Worker)
    requires At(a, w).Ready? && At(a, w).found == At(a, w).offset
    ensures Next(a, Truncate(w)) == a && Next(a, KeepSize(w)) == a.(locals := a.locals[w := Trimmed(At(a, w).offset)])
  {
  }

  /** Steps whose turn it is not. */
  lemma NotDue(a: Session, w: Worker)
    ensures !At(a, w).Ready? ==> Next(a, KeepSize(w)) == a && Next(a, Truncate(w)) == a
    ensures !At(a, w).Cut? && !At(a, w).Written? ==> Next(a, Sync(w)) == a
  {
  }

  lemma SyncStep(a: Session, w: Worker)
    requires At(a, w).Cut? || At(a, w).Written?
    ensures Next(a, Sync(w)) ==
            a.(durable := a.file, locals := a.locals[w := if At(a, w).Cut? then Trimmed(At(a, w).offset) else Synced(At(a, w).offset, At(a, w).bytes)])
  {
  }

  lemma WriteStep(a: Session, w: Worker, bytes: Bytes)
    requires At(a, w).Trimmed? && At(a, w).offset == |a.file| < a.size && At(a, w).offset % CHUNK_BYTES == 0
    requires |bytes| == ChunkSize(At(a, w).offset, a.size)
    ensures Next(a, Write(w, bytes, |bytes|)) == a.(file := a.file + bytes, locals := a.locals[w := Written(At(a, w).offset, bytes)])
  {
    assert bytes[..|bytes|] == bytes && Overwritten(a.file, |a.file|, bytes) == a.file + bytes;
  }

  lemma ChunkStep(a: Session, w: Worker, n: nat)
    requires At(a, w).Synced? && At(a, w).offset == n * CHUNK_BYTES && Holds(a, w) && forall r :: r in a.receipts ==> r.index != n
    ensures Next(a, ChunkTransaction(w)) ==
            a.(receipts := a.receipts + [Receipt(n, At(a, w).offset, |At(a, w).bytes|, Sha256(At(a, w).bytes))],
               offset := At(a, w).offset + |At(a, w).bytes|, locals := a.locals[w := Leaving])
  {
  }

  lemma ReleaseStep(a: Session, w: Worker)
    requires !At(a, w).Outside? && a.lease.Some? && a.lease.value.owner == w.process
    ensures Next(a, Release(w)) == a.(lease := None, locals := a.locals[w := Outside])
  {
  }

  lemma RecoveredFacts(s: Session, w: Worker)
    requires Intact(s, w)
    ensures var r := Recovered(s, w);
      r == UnderLease(s, w, if s.complete then Entered(s.offset, true) else Trimmed(s.offset), r.verified)
           .(file := Kept(s), durable := KeptDurable(s))
    ensures !s.complete ==> s.offset <= |s.file|
  {
    ScanningFacts(s, w);
    var a := Scanning(s, w);
    if !s.complete {
      CoveredInFile(s, s.file);
    }
    hide BlobOk, FileOk, DatabaseOk, Scanning, Next;
    NotDue(a, w);
    if s.complete {
    } else if |s.file| == s.offset {
      KeepStep(a, w);
      NotDue(Next(a, KeepSize(w)), w);
      Again(s.locals, w, Ready(s.offset, |s.file|), Trimmed(s.offset));
      assert s.file[..s.offset] == s.file;
    } else {
      TruncateStep(a, w);
      NotDue(Next(a, Truncate(w)), w);
      SyncStep(Next(a, Truncate(w)), w);
      Again(s.locals, w, Ready(s.offset, |s.file|), Cut(s.offset));
      Again(s.locals, w, Cut(s.offset), Trimmed(s.offset));
    }
  }

  // ------------------------------------------- recovery from whatever is there

  /** The lease is free, and the upload unfinished. */
  ghost predicate Recoverable(s: Session, w: Worker) {
    DatabaseOk(s) && !s.complete && At(s, w).Outside? && (s.lease.None? || s.lease.value.until <= s.now)
  }

  /**
   Whatever has become of the staging file: unless this process has checked the
   session before and the file is long enough, recovery leaves exactly the
   receipts whose bytes are in it, and otherwise all of them; the file is cut to
   what they cover, and synced if it was cut.
   */
  lemma RecoversWhatIsThere(s: Session, w: Worker)
    requires Recoverable(s, w)
    ensures var t := Recovered(s, w);
      && At(t, w) == Trimmed(t.offset) && !t.complete
      && |t.receipts| <= |s.receipts| && t.receipts == s.receipts[..|t.receipts|] && t.offset == Covered(|t.receipts|, s.size)
      && t.offset <= |s.file| && t.file == s.file[..t.offset] && t.durable == (if |s.file| == t.offset then s.durable else t.file)
      && if w.process in s.verified && s.offset <= |s.file| then t.receipts == s.receipts && t.verified == s.verified
         else LongestVerified(s.receipts, |t.receipts|, s.file, s.size) && VerifiedUpTo(t.receipts, |t.receipts|, t.file, s.size)
              && t.verified == s.verified + {w.process}
  {
    AcquireStep(s, w);
    var a := Next(s, Acquire(w));
    assert a.verified == s.verified && a.file == s.file && a.receipts == s.receipts && a.size == s.size;
    if w.process in s.verified && s.offset <= |s.file| {
      SkipsScan(s, a, w);
      TrimsFile(s, Scanning(s, w), w, |s.receipts|);
    } else {
      CountIsLongest(s.receipts, 0, s.file, s.size);
      var n := CountVerified(s.receipts, 0, s.file, s.size);
      ScansFile(s, a, w, n);
      VerifiedCovers(s, n);
      TrimsFile(s, Scanning(s, w), w, n);
      VerifiedKept(s.receipts, n, s.file, s.file[..Covered(n, s.size)], s.size);
      assert VerifiedUpTo(s.receipts[..n], n, s.file[..Covered(n, s.size)], s.size);
    }
  }

  lemma SkipsScan(s: Session, a: Session, w: Worker)
    requires DatabaseOk(s) && !s.complete && w.process in s.verified && s.offset <= |s.file|
    requires a == UnderLease(s, w, Entered(s.offset, false), s.verified) && a == Next(s, Acquire(w))
    ensures Scanning(s, w) == UnderLease(s, w, Ready(s.offset, |s.file|), s.verified)
  {
    assert Next(a, Scan(w)) == a && Next(a, RecoverTransaction(w)) == a;
    Again(s.locals, w, Entered(s.offset, false), Ready(s.offset, |s.file|));
  }

  lemma ScansFile(s: Session, a: Session, w: Worker, n: nat)
    requires DatabaseOk(s) && !s.complete && (w.process !in s.verified || |s.file| < s.offset)
    requires n == CountVerified(s.receipts, 0, s.file, s.size) <= |s.receipts|
    requires a == UnderLease(s, w, Entered(s.offset, false), s.verified) && a == Next(s, Acquire(w))
    ensures Scanning(s, w) ==
            UnderLease(s, w, Ready(Covered(n, s.size), |s.file|), s.verified + {w.process})
            .(receipts := s.receipts[..n], offset := Covered(n, s.size))
  {
    ScanStep(a, w, n);
    var b := Next(a, Scan(w));
    BelowIsPrefix(s.receipts, s.size, n);
    hide DatabaseOk, CountVerified, Below;
    var c := Next(b, RecoverTransaction(w));
    Again(s.locals, w, Entered(s.offset, false), Scanned(n, |s.file|));
    Again(s.locals, w, Scanned(n, |s.file|), Ready(Covered(n, s.size), |s.file|));
    SkipStep(c, w);
  }

  /** Verified bytes are there. */
  lemma VerifiedCovers(s: Session, n: nat)
    requires DatabaseOk(s) && VerifiedUpTo(s.receipts, n, s.file, s.size)
    ensures Covered(n, s.size) <= |s.file|
  {
    if n > 0 {
      assert Verifies(s.receipts[n - 1], n - 1, s.file, s.size);
    }
  }

  /** The file is cut to the offset, and what was cut is synced. */
  lemma TrimsFile(s: Session, a: Session, w: Worker, n: nat)
    requires a == Scanning(s, w) && n <= |s.receipts| && Covered(n, s.size) <= |s.file| && !s.complete
    requires a == UnderLease(s, w, Ready(Covered(n, s.size), |s.file|), a.verified).(receipts := s.receipts[..n], offset := Covered(n, s.size))
    ensures var t := Recovered(s, w);
      && At(t, w) == Trimmed(t.offset) && !t.complete && t.verified == a.verified
      && t.receipts == a.receipts && t.offset == a.offset && t.file == s.file[..t.offset]
      && t.durable == if |s.file| == t.offset then s.durable else t.file
  {
    hide Scanning, Next;
    NotDue(a, w);
    if |s.file| == a.offset {
      KeepStep(a, w);
      NotDue(Next(a, KeepSize(w)), w);
      assert s.file[..|s.file|] == s.file;
    } else {
      TruncateStep(a, w);
      NotDue(Next(a, Truncate(w)), w);
      SyncStep(Next(a, Truncate(w)), w);
    }
  }

  // -------------------------------------------------------------------- a chunk

  datatype Served = Served(session: Session, reply: Reply)

  /** `chunk` */
  function ServeChunk(s: Session, w: Worker, index: nat, bytes: Bytes): Served {
    if !Enabled(s, Acquire(w)) then Served(s, Refused)
    else
      var r := Recovered(s, w);
      var reply := ChunkReply(r, index, bytes);
      Served(Next(if reply.Append? then Appended(r, w, bytes) else r, Release(w)), reply)
  }

  function Appended(r: Session, w: Worker, bytes: Bytes): Session {
    Next(Next(Next(r, Write(w, bytes, |bytes|)), Sync(w)), ChunkTransaction(w))
  }

  /** The session between requests: as `s`, but for the file and what the request has added. */
  function Between(s: Session, w: Worker, verified: set<nat>, file: Bytes, durable: Bytes): Session {
    s.(lease := None, locals := s.locals[w := Outside], verified := verified, file := file, durable := durable)
  }

  lemma AppendedFacts(s: Session, r: Session, w: Worker, bytes: Bytes)
    requires DatabaseOk(s) && !s.complete && s.offset <= |s.file| && s.offset < s.size && |bytes| == ChunkSize(s.offset, s.size)
    requires r == UnderLease(s, w, Trimmed(s.offset), r.verified).(file := s.file[..s.offset], durable := r.durable)
    ensures var file := s.file[..s.offset] + bytes;
      Next(Appended(r, w, bytes), Release(w)) ==
      Between(s, w, r.verified, file, file)
      .(receipts := s.receipts + [Receipt(|s.receipts|, s.offset, |bytes|, Sha256(bytes))], offset := s.offset + |bytes|)
  {
    var n := |s.receipts|;
    assert s.offset == n * CHUNK_BYTES;
    assert forall q :: q in s.receipts ==> q.index != n;
    hide Next, DatabaseOk, Contiguous;
    WriteStep(r, w, bytes);
    var a := Next(r, Write(w, bytes, |bytes|));
    SyncStep(a, w);
    var b := Next(a, Sync(w));
    ChunkStep(b, w, n);
    var c := Next(b, ChunkTransaction(w));
    ReleaseStep(c, w);
    Again(s.locals, w, Trimmed(s.offset), Written(s.offset, bytes));
    Again(s.locals, w, Written(s.offset, bytes), Synced(s.offset, bytes));
    Again(s.locals, w, Synced(s.offset, bytes), Leaving);
    Again(s.locals, w, Leaving, Outside);
  }

  /**
   A request that finds the session free: the reply depends on the row as it
   was, an accepted chunk is the only thing added to what is acknowledged, and
   any other request adds nothing.
   */
  lemma ServedFacts(s: Session, w: Worker, index: nat, bytes: Bytes)
    requires Intact(s, w)
    ensures var served := ServeChunk(s, w, index, bytes);
      var t := served.session;
      && served.reply == ChunkReply(s, index, bytes)
      && (!s.complete ==> s.offset <= |s.file|)
      && if served.reply.Append? then
           t == Between(s, w, t.verified, Kept(s) + bytes, Kept(s) + bytes)
                .(receipts := s.receipts + [Receipt(|s.receipts|, s.offset, |bytes|, Sha256(bytes))], offset := s.offset + |bytes|)
         else t == Between(s, w, t.verified, Kept(s), KeptDurable(s))
  {
    RecoveredFacts(s, w);
    hide BlobOk, FileOk, Recovered, Next, Appended, HasReceipt;
    var r := Recovered(s, w);
    SameReply(s, r, index, bytes);
    if ChunkReply(s, index, bytes).Append? {
      AppendedFacts(s, r, w, bytes);
    } else {
      ReleaseStep(r, w);
      Again(s.locals, w, At(r, w), Outside);
    }
  }

  lemma SameReply(s: Session, r: Session, index: nat, bytes: Bytes)
    requires r.size == s.size && r.offset == s.offset && r.complete == s.complete && r.receipts == s.receipts
    ensures ChunkReply(r, index, bytes) == ChunkReply(s, index, bytes)
  {
  }

  /** Every request leaves an intact session intact. */
  lemma ServedIntact(s: Session, w: Worker, index: nat, bytes: Bytes)
    requires Intact(s, w)
    ensures Intact(ServeChunk(s, w, index, bytes).session, w)
  {
    ServedFacts(s, w, index, bytes);
    hide ServeChunk, BlobOk, FileOk, DatabaseOk, ChunkReply, Kept;
    var t := ServeChunk(s, w, index, bytes).session;
    LocalsAlike(s, t, w);
    if ServeChunk(s, w, index, bytes).reply.Append? {
      TakenFits(s, index, bytes);
      TakenIntact(s, t, bytes);
    } else {
      UntakenIntact(s, t);
    }
  }

  lemma TakenFits(s: Session, index: nat, bytes: Bytes)
    requires DatabaseOk(s) && ChunkReply(s, index, bytes).Append?
    ensures !s.complete && s.offset < s.size && |bytes| == ChunkSize(s.offset, s.size)
  {
  }

  lemma TakenIntact(s: Session, t: Session, bytes: Bytes)
    requires DatabaseOk(s) && FileOk(s) && !s.complete && s.offset < s.size && |bytes| == ChunkSize(s.offset, s.size)
    requires t.size == s.size && !t.complete && t.file == t.durable == Kept(s) + bytes && t.offset == s.offset + |bytes|
    requires t.receipts == s.receipts + [Receipt(|s.receipts|, s.offset, |bytes|, Sha256(bytes))]
    ensures DatabaseOk(t) && FileOk(t)
  {
    KeptBacks(s);
    ChunkBacks(s, t, bytes);
    NextChunk(|s.receipts|, s.size);
    NextContiguous(s, t, bytes);
    hide Backs;
  }

  lemma UntakenIntact(s: Session, t: Session)
    requires DatabaseOk(s) && FileOk(s) && t.receipts == s.receipts && t.offset == s.offset && t.size == s.size && t.complete == s.complete
    requires t.blob == s.blob && t.file == Kept(s) && t.durable == KeptDurable(s)
    ensures DatabaseOk(t) && FileOk(t)
  {
    if !s.complete {
      KeptBacks(s);
      SameBacks(s, t, Kept(s));
      SameBacks(s, t, s.durable);
      hide Backs;
    }
  }

  lemma SameBacks(s: Session, t: Session, file: Bytes)
    requires Backs(s, file) && t.receipts == s.receipts && t.size == s.size
    ensures Backs(t, file)
  {
  }

  lemma NextContiguous(s: Session, t: Session, bytes: Bytes)
    requires DatabaseOk(s) && s.offset < s.size && |bytes| == ChunkSize(s.offset, s.size) && t.size == s.size
    requires t.receipts == s.receipts + [Receipt(|s.receipts|, s.offset, |bytes|, Sha256(bytes))]
    ensures Contiguous(t.receipts, t.size)
  {
    assert s.offset == |s.receipts| * CHUNK_BYTES;
  }

  lemma LocalsAlike(s: Session, t: Session, w: Worker)
    requires BlobOk(s) && t.locals == s.locals[w := Outside] && t.blob == s.blob && t.size == s.size && t.hash == s.hash && t.complete == s.complete
    ensures BlobOk(t)
  {
    forall v
      ensures ReadAlike(t, At(t, v))
    {
      assert ReadAlike(s, At(s, v));
    }
  }

  lemma KeptBacks(s: Session)
    requires DatabaseOk(s) && FileOk(s) && !s.complete
    ensures s.offset <= |s.file| && Backs(s, Kept(s))
  {
    CoveredInFile(s, s.file);
    VerifiedKept(s.receipts, |s.receipts|, s.file, Kept(s), s.size);
  }

  lemma ChunkBacks(s: Session, t: Session, bytes: Bytes)
    requires DatabaseOk(s) && FileOk(s) && !s.complete && s.offset < s.size && |bytes| == ChunkSize(s.offset, s.size)
    requires s.offset <= |s.file| && t.size == s.size
    requires t.receipts == s.receipts + [Receipt(|s.receipts|, s.offset, |bytes|, Sha256(bytes))]
    ensures Backs(t, Kept(s) + bytes)
  {
    KeptBacks(s);
    var file, n := Kept(s) + bytes, |s.receipts|;
    VerifiedKept(s.receipts, n, Kept(s), file, s.size);
    forall i | 0 <= i < |t.receipts|
      ensures Verifies(t.receipts[i], i, file, t.size)
    {
      if i < n {
        assert Verifies(s.receipts[i], i, file, s.size);
      } else {
        assert file[s.offset..s.offset + |bytes|] == bytes;
      }
    }
  }

  /** The acknowledged piece number `index`. */
  function Piece(s: Session, index: nat): Bytes
    requires index < |s.receipts| && index * CHUNK_BYTES + s.receipts[index].size <= |s.file|
  {
    s.file[index * CHUNK_BYTES..index * CHUNK_BYTES + s.receipts[index].size]
  }

  /**
   A chunk below the offset is acknowledged again exactly when it is the one in
   the file; whatever the reply, the request changes nothing that is
   acknowledged.
   */
  lemma ResendIff(s: Session, w: Worker, index: nat, bytes: Bytes)
    requires Intact(s, w) && !s.complete && index * CHUNK_BYTES < s.offset
    ensures index < |s.receipts| && index * CHUNK_BYTES + s.receipts[index].size <= |s.file|
    ensures ServeChunk(s, w, index, bytes).reply == Acknowledged(s.offset) <==> bytes == Piece(s, index)
    ensures !ServeChunk(s, w, index, bytes).reply.Append?
    ensures var t := ServeChunk(s, w, index, bytes).session;
      t == Between(s, w, t.verified, Kept(s), KeptDurable(s))
  {
    ServedFacts(s, w, index, bytes);
    assert Verifies(s.receipts[index], index, s.file, s.size);
    var r := s.receipts[index];
    if HasReceipt(s.receipts, index, bytes) {
      var q :| q in s.receipts && q.index == index && q.hash == Sha256(bytes) && q.size == |bytes|;
      var j :| 0 <= j < |s.receipts| && s.receipts[j] == q;
      assert q == r;
    }
    if bytes == Piece(s, index) {
      assert r in s.receipts;
      assert HasReceipt(s.receipts, index, bytes);
    }
  }

  /**
   The reply, exactly: the next chunk is taken, one below the offset is
   acknowledged again when a receipt for it has its hash and size, and anything
   else, out of order, misshapen or different, is refused.
   */
  lemma ReplyIff(s: Session, w: Worker, index: nat, bytes: Bytes)
    requires Intact(s, w)
    ensures var at, reply := index * CHUNK_BYTES, ServeChunk(s, w, index, bytes).reply;
      var fits := at < s.size && |bytes| == Min(262144, s.size - at);
      && (reply.Append? <==> fits && !s.complete && at == s.offset)
      && (reply.Acknowledged? <==> fits && at < s.offset && exists r :: r in s.receipts && r.index == index && r.hash == Sha256(bytes) && r.size == |bytes|)
      && (reply.Acknowledged? ==> reply.offset == s.offset)
  {
    ServedFacts(s, w, index, bytes);
    DecisionIs(s, index, bytes);
    hide Intact, ServeChunk, ChunkReply;
  }

  lemma DecisionIs(s: Session, index: nat, bytes: Bytes)
    ensures var at, reply := index * CHUNK_BYTES, ChunkReply(s, index, bytes);
      var fits := at < s.size && |bytes| == Min(262144, s.size - at);
      && (reply.Append? <==> fits && !s.complete && at == s.offset)
      && (reply.Acknowledged? <==> fits && at < s.offset && exists r :: r in s.receipts && r.index == index && r.hash == Sha256(bytes) && r.size == |bytes|)
      && (reply.Acknowledged? ==> reply.offset == s.offset)
  {
  }

  /** The receipts grow exactly by the chunk that starts at the offset of an unfinished session and has the right size. */
  lemma AppendIff(s: Session, w: Worker, index: nat, bytes: Bytes)
    requires Intact(s, w)
    ensures ServeChunk(s, w, index, bytes).session.receipts != s.receipts <==>
            !s.complete && index * CHUNK_BYTES == s.offset && s.offset < s.size && |bytes| == ChunkSize(s.offset, s.size)
    ensures ServeChunk(s, w, index, bytes).session.receipts != s.receipts ==>
            var t := ServeChunk(s, w, index, bytes).session;
            && t.receipts == s.receipts + [Receipt(index, s.offset, |bytes|, Sha256(bytes))]
            && t.offset == Covered(index + 1, s.size) && t.file == t.durable == Kept(s) + bytes
  {
    ServedFacts(s, w, index, bytes);
    if ChunkReply(s, index, bytes).Append? {
      NextChunk(|s.receipts|, s.size);
    }
  }

  // ----------------------------------------------------------------- completion

  /** `complete`: the read in one part, and the registration. */
  function ServeComplete(s: Session, w: Worker): Session {
    if !Enabled(s, Acquire(w)) then s
    else
      var r := Recovered(s, w);
      Next(Next(Next(ReadAll(r, w), CompleteTransaction(w)), Unlink(w)), Release(w))
  }

  function ReadAll(r: Session, w: Worker): Session {
    Next(Next(r, ReadPart(w, r.size)), EndRead(w))
  }

  /** What the client is told of a reply: the offset it names, if any. */
  function ReplyOffset(served: Served): Option<nat> {
    match served.reply
    case Acknowledged(offset) => Some(offset)
    case Append => Some(served.session.offset)
    case Refused => None
  }

  /** An upload is completed exactly when all of it is there and has the declared hash. */
  lemma CompleteIff(s: Session, w: Worker)
    requires Intact(s, w)
    ensures ServeComplete(s, w).complete <==> s.complete || (s.offset == s.size && Sha256(Kept(s)) == s.hash)
    ensures !s.complete && ServeComplete(s, w).complete ==> ServeComplete(s, w).blob == Some(Kept(s))
    ensures s.complete ==> ServeComplete(s, w).blob == s.blob
  {
    RecoveredFacts(s, w);
    hide BlobOk, FileOk, DatabaseOk, Recovered, ReadAll;
    var r := Recovered(s, w);
    if !s.complete && s.offset == s.size {
      ReadWhole(s, r, w);
    } else {
      NothingRead(r, w);
    }
  }

  /** Without all of it there is nothing to read back. */
  lemma NothingRead(r: Session, w: Worker)
    requires At(r, w).Entered? || (At(r, w).Trimmed? && At(r, w).offset != r.size)
    ensures var t := Next(Next(Next(ReadAll(r, w), CompleteTransaction(w)), Unlink(w)), Release(w));
      t.complete == r.complete && t.blob == r.blob
  {
    assert ReadAll(r, w) == r;
    assert Next(Next(r, CompleteTransaction(w)), Unlink(w)) == r;
  }

  lemma ReadStep(r: Session, w: Worker)
    requires At(r, w).Trimmed? && At(r, w).offset == r.size == |r.file| && Holds(r, w)
    ensures Next(r, ReadPart(w, r.size)) == r.(locals := r.locals[w := Reading(r.file, r.file)])
  {
    assert r.file[..|r.file|] == r.file && [] + r.file == r.file;
    if |r.file| > 0 {
      assert r.file[0..Min(0 + r.size, |r.file|)] == r.file;
    }
    assert Part(r.file, 0, r.size) == r.file;
  }

  lemma EndStep(a: Session, w: Worker)
    requires At(a, w) == Reading(a.file, a.file) && |a.file| == a.size
    ensures Next(a, EndRead(w)) == if Sha256(a.file) == a.hash then a.(locals := a.locals[w := Digested(a.file)]) else a
  {
  }

  lemma RegisterStep(b: Session, w: Worker)
    requires At(b, w).Digested? && Holds(b, w)
    ensures Next(b, CompleteTransaction(w)) == b.(blob := Some(At(b, w).content), complete := true, locals := b.locals[w := Registered])
  {
  }

  lemma LeaveStep(c: Session, w: Worker)
    ensures var t := Next(Next(c, Unlink(w)), Release(w)); t.complete == c.complete && t.blob == c.blob
  {
  }

  lemma ReadWhole(s: Session, r: Session, w: Worker)
    requires !s.complete && s.offset == s.size <= |s.file|
    requires r == UnderLease(s, w, Trimmed(s.offset), r.verified).(file := Kept(s), durable := r.durable)
    ensures var t := Next(Next(Next(ReadAll(r, w), CompleteTransaction(w)), Unlink(w)), Release(w));
      && (t.complete <==> Sha256(Kept(s)) == s.hash)
      && (t.complete ==> t.blob == Some(Kept(s)))
  {
    hide Next;
    ReadStep(r, w);
    var a := Next(r, ReadPart(w, r.size));
    EndStep(a, w);
    var b := Next(a, EndRead(w));
    if Sha256(Kept(s)) == s.hash {
      RegisterStep(b, w);
    } else {
      UnregisteredStep(b, w);
    }
    LeaveStep(Next(b, CompleteTransaction(w)), w);
  }

  lemma UnregisteredStep(b: Session, w: Worker)
    requires !At(b, w).Digested?
    ensures Next(b, CompleteTransaction(w)) == b
  {
  }

  // ------------------------------------------------------------------- delivery

  /** All the chunks, one request each. */
  function Deliver(s: Session, w: Worker, chunks: seq<Sent>): Session {
    if chunks == [] then s
    else
      var last := chunks[|chunks| - 1];
      ServeChunk(Deliver(s, w, chunks[..|chunks| - 1]), w, last.index, last.body).session
  }

  function Chunk(content: Bytes, k: nat): Bytes
    requires k * CHUNK_BYTES <= |content|
  {
    content[k * CHUNK_BYTES..Min((k + 1) * CHUNK_BYTES, |content|)]
  }

  /** The chunks number `from` to `end`, in order. */
  function Chunks(content: Bytes, from: nat, end: nat): (r: seq<Sent>)
    requires end == 0 || (end - 1) * CHUNK_BYTES <= |content|
    ensures |r| == if from < end then end - from else 0
    ensures forall i :: 0 <= i < |r| ==> r[i] == Sent(from + i, Chunk(content, from + i))
  {
    if end <= from then [] else Chunks(content, from, end - 1) + [Sent(end - 1, Chunk(content, end - 1))]
  }

  /** The session once the chunks up to `end` have arrived. */
  ghost predicate Arrived(s: Session, w: Worker, content: Bytes, end: nat, t: Session) {
    && Intact(t, w) && !t.complete && t.size == s.size && t.hash == s.hash
    && |t.receipts| == end && t.offset == Covered(end, s.size) && s.offset <= t.offset <= |content|
    && s.offset <= |s.file| && |Kept(t)| == t.offset && Kept(t) == s.file[..s.offset] + content[s.offset..t.offset]
  }

  /** From any resume offset the missing chunks, delivered in order, are all taken, and leave the content in the file. */
  lemma {:induction false} DeliverAll(s: Session, w: Worker, content: Bytes, end: nat)
    requires Intact(s, w) && !s.complete && s.size == |content|
    requires |s.receipts| <= end && (end == |s.receipts| || (end - 1) * CHUNK_BYTES < s.size)
    ensures end == 0 || (end - 1) * CHUNK_BYTES <= |content|
    ensures Arrived(s, w, content, end, Deliver(s, w, Chunks(content, |s.receipts|, end)))
    decreases end
  {
    hide Intact, ServeChunk, Arrived, Chunk, Deliver;
    var from := |s.receipts|;
    if from < end {
      DeliverAll(s, w, content, end - 1);
      var before := Chunks(content, from, end - 1);
      DeliverOne(s, w, content, end - 1, Deliver(s, w, before));
      DeliverLast(s, w, before, Sent(end - 1, Chunk(content, end - 1)));
    } else {
      DeliverNone(s, w, content);
    }
  }

  lemma DeliverLast(s: Session, w: Worker, before: seq<Sent>, last: Sent)
    ensures Deliver(s, w, before + [last]) == ServeChunk(Deliver(s, w, before), w, last.index, last.body).session
  {
    hide ServeChunk;
    assert (before + [last])[..|before|] == before;
  }

  lemma DeliverNone(s: Session, w: Worker, content: Bytes)
    requires Intact(s, w) && !s.complete && s.size == |content|
    ensures |s.receipts| == 0 || (|s.receipts| - 1) * CHUNK_BYTES < s.size
    ensures Arrived(s, w, content, |s.receipts|, Deliver(s, w, []))
  {
    LastReceipt(s);
    CoveredInFile(s, s.file);
    hide Intact, BlobOk, FileOk;
    assert s.file[..s.offset] + content[s.offset..s.offset] == s.file[..s.offset];
  }

  lemma LastReceipt(s: Session)
    requires DatabaseOk(s)
    ensures |s.receipts| == 0 || (|s.receipts| - 1) * CHUNK_BYTES < s.size
  {
    if s.receipts != [] {
      assert s.receipts[|s.receipts| - 1].index == |s.receipts| - 1;
    }
  }

  /** The next chunk is taken, and the reply names the offset behind it. */
  lemma DeliverOne(s: Session, w: Worker, content: Bytes, k: nat, t: Session)
    requires Arrived(s, w, content, k, t) && k * CHUNK_BYTES < s.size == |content|
    ensures Arrived(s, w, content, k + 1, ServeChunk(t, w, k, Chunk(content, k)).session)
    ensures ReplyOffset(ServeChunk(t, w, k, Chunk(content, k))) == Some(Covered(k + 1, s.size))
  {
    var body, next := Chunk(content, k), Covered(k + 1, s.size);
    PieceFacts(content, k);
    ServedFacts(t, w, k, body);
    ServedIntact(t, w, k, body);
    NextTaken(t, k, body);
    hide ServeChunk, Intact, DatabaseOk, FileOk, BlobOk, ChunkReply, Chunk, Covered, Kept;
    var u := ServeChunk(t, w, k, body).session;
    Join(s.file[..s.offset], content, s.offset, t.offset, next);
    KeptWhole(u);
  }

  lemma KeptWhole(u: Session)
    requires |u.file| == u.offset
    ensures Kept(u) == u.file
  {
  }

  lemma Join(a: Bytes, content: Bytes, from: nat, mid: nat, end: nat)
    requires from <= mid <= end <= |content|
    ensures (a + content[from..mid]) + content[mid..end] == a + content[from..end]
  {
  }

  lemma PieceFacts(content: Bytes, k: nat)
    requires k * CHUNK_BYTES < |content|
    ensures Covered(k, |content|) == k * CHUNK_BYTES && |Chunk(content, k)| == ChunkSize(k * CHUNK_BYTES, |content|)
    ensures Covered(k + 1, |content|) == k * CHUNK_BYTES + |Chunk(content, k)| <= |content|
    ensures Chunk(content, k) == content[k * CHUNK_BYTES..Covered(k + 1, |content|)]
  {
  }

  lemma NextTaken(t: Session, k: nat, body: Bytes)
    requires t.offset == k * CHUNK_BYTES < t.size && !t.complete && |body| == ChunkSize(t.offset, t.size)
    ensures ChunkReply(t, k, body).Append?
  {
  }

  // ----------------------------------------------------------- requests as runs

  function RecoverSteps(w: Worker): seq<ContentUpload.Step> {
    [Acquire(w), Scan(w), RecoverTransaction(w), SkipScan(w), Truncate(w), KeepSize(w), Sync(w)]
  }

  function AppendSteps(w: Worker, bytes: Bytes): seq<ContentUpload.Step> {
    [Write(w, bytes, |bytes|), Sync(w), ChunkTransaction(w)]
  }

  /** The steps of a chunk request that is taken. */
  function ChunkSteps(w: Worker, bytes: Bytes): seq<ContentUpload.Step> {
    RecoverSteps(w) + AppendSteps(w, bytes) + [Release(w)]
  }

  lemma RunOne(s: Session, step: ContentUpload.Step)
    ensures Run(s, [step]) == Next(s, step)
  {
    assert [step][..0] == [];
  }

  lemma RunFirst(s: Session, step: ContentUpload.Step, rest: seq<ContentUpload.Step>)
    ensures Run(s, [step] + rest) == Run(Next(s, step), rest)
  {
    RunOne(s, step);
    RunConcat(s, [step], rest);
  }

  lemma RunTwo(s: Session, a: ContentUpload.Step, b: ContentUpload.Step)
    ensures Run(s, [a, b]) == Next(Next(s, a), b)
  {
    hide Next, Run;
    RunFirst(s, a, [b]);
    RunOne(Next(s, a), b);
    assert [a] + [b] == [a, b];
  }

  lemma RunThree(s: Session, a: ContentUpload.Step, b: ContentUpload.Step, c: ContentUpload.Step)
    ensures Run(s, [a, b, c]) == Next(Next(Next(s, a), b), c)
  {
    hide Next, Run;
    RunFirst(s, a, [b, c]);
    RunTwo(Next(s, a), b, c);
    assert [a] + [b, c] == [a, b, c];
  }

  lemma RecoveredIsRun(s: Session, w: Worker)
    ensures Run(s, RecoverSteps(w)) == Recovered(s, w)
  {
    hide Next, Run;
    var x, y := [Acquire(w), Scan(w), RecoverTransaction(w)], [SkipScan(w), Truncate(w), KeepSize(w)];
    RunConcat(s, x, y);
    RunThree(s, Acquire(w), Scan(w), RecoverTransaction(w));
    RunThree(Run(s, x), SkipScan(w), Truncate(w), KeepSize(w));
    RunMore(s, x + y, Sync(w));
    assert x + y + [Sync(w)] == RecoverSteps(w);
  }

  /** A chunk that is taken: the request is a run of its steps. */
  lemma ServedIsRun(s: Session, w: Worker, index: nat, bytes: Bytes)
    requires Intact(s, w) && ServeChunk(s, w, index, bytes).reply.Append?
    ensures Run(s, ChunkSteps(w, bytes)) == ServeChunk(s, w, index, bytes).session
  {
    assert Enabled(s, Acquire(w));
    hide Next, Run, Intact, Recovered, ChunkReply, RecoverSteps, AppendSteps, Enabled;
    RecoveredIsRun(s, w);
    var r := Recovered(s, w);
    RunConcat(s, RecoverSteps(w) + AppendSteps(w, bytes), [Release(w)]);
    RunConcat(s, RecoverSteps(w), AppendSteps(w, bytes));
    AppendedIsRun(r, w, bytes);
    RunOne(Appended(r, w, bytes), Release(w));
  }

  lemma AppendedIsRun(r: Session, w: Worker, bytes: Bytes)
    ensures Run(r, AppendSteps(w, bytes)) == Appended(r, w, bytes)
  {
    hide Next, Run;
    RunThree(r, Write(w, bytes, |bytes|), Sync(w), ChunkTransaction(w));
  }

  /** What a disciplined run leaves behind is intact for whoever finds the lease free. */
  lemma ReachableIntact(size: nat, hash: Digest, steps: seq<ContentUpload.Step>, w: Worker)
    requires Always(Begun(size, hash), steps, Disciplined)
    requires Enabled(Run(Begun(size, hash), steps), Acquire(w))
    ensures Intact(Run(Begun(size, hash), steps), w)
  {
    FileAlwaysOk(size, hash, steps);
    BlobInvariant(size, hash, steps);
  }
}
