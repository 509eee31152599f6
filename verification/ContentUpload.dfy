/**
 Resumable uploads on the server (apps/server/src/content-upload.ts:87-136,
 196-272).
 */
module ContentUpload {
  import opened Wrappers

  // Chunk receipts in the database, a staging file, and leases that expire. One
  // session, any number of processes; a step is one database statement or
  // transaction (with the lease check before it) or one file operation. A power
  // loss may lose what was not synced.

  type Bytes = seq<bv8>

  /** SHA-256 is injective: a digest remembers its bytes. */
  datatype Digest = Sha256(of: Bytes)

  const CHUNK_BYTES := 262144
  const LEASE_MS := 30000

  datatype Receipt = Receipt(index: nat, offset: nat, size: nat, hash: Digest)

  /** The owner of a lease is one identity per server process. */
  datatype Worker = Worker(process: nat, request: nat)

  datatype Lease = Lease(owner: nat, until: nat)

  /**
   How far one request has come, and the row values it carries along; `found` is
   the size of the staging file when it was opened. `Leaving` has only its lease
   left to give back.
   */
  datatype Local =
    | Outside
    | Entered(offset: nat, complete: bool)
    | Scanned(index: nat, found: nat)
    | Ready(offset: nat, found: nat)
    | Cut(offset: nat)
    | Trimmed(offset: nat)
    | Written(offset: nat, bytes: Bytes)
    | Synced(offset: nat, bytes: Bytes)
    | Reading(digested: Bytes, encrypted: Bytes)
    | Digested(content: Bytes)
    | Registered
    | Leaving

  /** `durable` is the staging file as of the last sync. */
  datatype Session = Session(
    size: nat, hash: Digest,
    offset: nat, complete: bool, lease: Option<Lease>, receipts: seq<Receipt>,
    blob: Option<Bytes>,
    file: Bytes, durable: Bytes,
    verified: set<nat>,
    locals: map<Worker, Local>,
    now: nat)

  datatype Step =
    | Tick(ms: nat)
    | Acquire(w: Worker)
    | Renew(w: Worker)
    | Scan(w: Worker)
    | SkipScan(w: Worker)
    | RecoverTransaction(w: Worker)
    | Truncate(w: Worker)
    | KeepSize(w: Worker)
    | Sync(w: Worker)
    | Write(w: Worker, bytes: Bytes, count: nat)
    | ChunkTransaction(w: Worker)
    | ReadPart(w: Worker, count: nat)
    | EndRead(w: Worker)
    | CompleteTransaction(w: Worker)
    | Unlink(w: Worker)
    | Release(w: Worker)
    | Crash(process: nat)
    | PowerLoss(left: Bytes)

  function Min(a: int, b: int): int {
    if a < b then a else b
  }

  /** The bytes the first `count` chunks cover. */
  function Covered(count: nat, size: nat): nat {
    Min(count * CHUNK_BYTES, size)
  }

  function ChunkSize(offset: nat, size: nat): int {
    Min(CHUNK_BYTES, size - offset)
  }

  // -------------------------------------------------------- the recovery scan

  /** The receipt is the next one in line and its bytes are in the file. */
  predicate Verifies(r: Receipt, k: nat, file: Bytes, size: nat) {
    var offset := Covered(k, size);
    && r.index == k && r.offset == offset && r.size == ChunkSize(offset, size)
    && offset + r.size <= |file| && Sha256(file[offset..offset + r.size]) == r.hash
  }

  /** The first `k` receipts verify. */
  ghost predicate VerifiedUpTo(receipts: seq<Receipt>, k: nat, file: Bytes, size: nat) {
    k <= |receipts| && forall i :: 0 <= i < k ==> Verifies(receipts[i], i, file, size)
  }

  ghost predicate LongestVerified(receipts: seq<Receipt>, k: nat, file: Bytes, size: nat) {
    && VerifiedUpTo(receipts, k, file, size)
    && forall j: nat :: VerifiedUpTo(receipts, j, file, size) ==> j <= k
  }

  function CountVerified(receipts: seq<Receipt>, k: nat, file: Bytes, size: nat): (r: nat)
    requires k <= |receipts|
    ensures k <= r <= |receipts|
    decreases |receipts| - k
  {
    if k < |receipts| && Verifies(receipts[k], k, file, size) then CountVerified(receipts, k + 1, file, size) else k
  }

  lemma {:induction false} CountIsLongest(receipts: seq<Receipt>, k: nat, file: Bytes, size: nat)
    requires VerifiedUpTo(receipts, k, file, size)
    ensures LongestVerified(receipts, CountVerified(receipts, k, file, size), file, size)
    decreases |receipts| - k
  {
    if k < |receipts| && Verifies(receipts[k], k, file, size) {
      CountIsLongest(receipts, k + 1, file, size);
    }
  }

  /** The loop of `recover`: afterwards exactly the longest verified prefix of the receipts is left. */
  method ScanReceipts(receipts: seq<Receipt>, file: Bytes, size: nat) returns (index: nat, offset: nat)
    ensures LongestVerified(receipts, index, file, size)
    ensures index == CountVerified(receipts, 0, file, size)
    ensures offset == Covered(index, size)
  {
    index, offset := 0, 0;
    while index < |receipts|
      invariant VerifiedUpTo(receipts, index, file, size)
      invariant CountVerified(receipts, 0, file, size) == CountVerified(receipts, index, file, size)
      invariant offset == Covered(index, size)
    {
      var r := receipts[index];
      var expected := ChunkSize(offset, size);
      if r.index != index || r.offset != offset || r.size != expected || |file| < offset + r.size {
        break;
      }
      if Sha256(file[offset..offset + r.size]) != r.hash {
        break;
      }
      index, offset := index + 1, offset + r.size;
    }
    CountIsLongest(receipts, 0, file, size);
  }

  // -------------------------------------------------------------------- steps

  function At(s: Session, w: Worker): Local {
    if w in s.locals then s.locals[w] else Outside
  }

  /** `assertLease` */
  predicate Holds(s: Session, w: Worker) {
    s.lease.Some? && s.lease.value.owner == w.process && s.lease.value.until > s.now
  }

  function Move(s: Session, w: Worker, l: Local): Session {
    s.(locals := s.locals[w := l])
  }

  function Resized(file: Bytes, size: nat): (r: Bytes)
    ensures |r| == size && forall i :: 0 <= i < size && i < |file| ==> r[i] == file[i]
  {
    if size <= |file| then file[..size] else file + seq(size - |file|, i => 0)
  }

  /** `bytes` written at `offset`; a gap before them reads as zeros. */
  function Overwritten(file: Bytes, offset: nat, bytes: Bytes): (r: Bytes)
    ensures |r| >= offset + |bytes| && r[offset..offset + |bytes|] == bytes
    ensures forall i :: 0 <= i < offset && i < |file| ==> r[i] == file[i]
  {
    var tail := if offset + |bytes| <= |file| then file[offset + |bytes|..] else [];
    Resized(file, offset) + bytes + tail
  }

  predicate NeedsScan(s: Session, w: Worker, offset: nat) {
    w.process !in s.verified || |s.file| < offset
  }

  /** What may be left of a file after a power loss: wherever it was synced and not changed since, the same bytes. */
  predicate Survives(file: Bytes, durable: Bytes, left: Bytes) {
    forall i :: 0 <= i < |file| && i < |durable| && file[i] == durable[i] ==> i < |left| && left[i] == file[i]
  }

  /** The request may read the content back, or is at it. */
  predicate ReadsBack(s: Session, w: Worker) {
    At(s, w).Reading? || (At(s, w).Trimmed? && At(s, w).offset == s.size)
  }

  /** What it has put through the digest. */
  function DigestedSoFar(s: Session, w: Worker): Bytes {
    if At(s, w).Reading? then At(s, w).digested else []
  }

  function EncryptedSoFar(s: Session, w: Worker): Bytes {
    if At(s, w).Reading? then At(s, w).encrypted else []
  }

  /** The next `count` bytes after the first `from`, as many as there are. */
  function Part(file: Bytes, from: nat, count: nat): Bytes {
    if |file| <= from then [] else file[from..Min(from + count, |file|)]
  }

  /** Whether the step can be taken; a failed check leaves the session as it is. */
  predicate Enabled(s: Session, step: Step) {
    match step
    case Tick(_) => true
    case Acquire(w) => At(s, w).Outside? && (s.lease.None? || s.lease.value.until <= s.now)
    case Renew(w) => Holds(s, w)
    case Scan(w) => At(s, w).Entered? && !At(s, w).complete && NeedsScan(s, w, At(s, w).offset)
    case SkipScan(w) => At(s, w).Entered? && !At(s, w).complete && !NeedsScan(s, w, At(s, w).offset)
    case RecoverTransaction(w) => At(s, w).Scanned? && Holds(s, w)
    case Truncate(w) => At(s, w).Ready? && At(s, w).found != At(s, w).offset
    case KeepSize(w) => At(s, w).Ready? && At(s, w).found == At(s, w).offset
    case Sync(w) => At(s, w).Cut? || At(s, w).Written?
    case Write(w, bytes, count) =>
      && At(s, w).Trimmed? && At(s, w).offset < s.size && At(s, w).offset % CHUNK_BYTES == 0
      && |bytes| == ChunkSize(At(s, w).offset, s.size) && count <= |bytes|
    case ChunkTransaction(w) =>
      && At(s, w).Synced? && Holds(s, w)
      && forall r :: r in s.receipts ==> r.index != At(s, w).offset / CHUNK_BYTES
    case ReadPart(w, count) =>
      ReadsBack(s, w) && Holds(s, w) && |DigestedSoFar(s, w)| + |Part(s.file, |DigestedSoFar(s, w)|, count)| <= s.size
    case EndRead(w) =>
      && ReadsBack(s, w) && |s.file| <= |DigestedSoFar(s, w)|
      && |DigestedSoFar(s, w)| == s.size && Sha256(DigestedSoFar(s, w)) == s.hash
    case CompleteTransaction(w) => At(s, w).Digested? && Holds(s, w)
    case Unlink(w) => At(s, w).Registered?
    case Release(w) => !At(s, w).Outside?
    case Crash(_) => true
    case PowerLoss(left) => Survives(s.file, s.durable, left)
  }

  function Apply(s: Session, step: Step): Session
    requires Enabled(s, step)
  {
    match step
    case Tick(ms) => s.(now := s.now + ms)
    case Acquire(w) =>
      Move(s.(lease := Some(Lease(w.process, s.now + LEASE_MS))), w, Entered(s.offset, s.complete))
    case Renew(w) => s.(lease := Some(Lease(w.process, s.now + LEASE_MS)))
    case Scan(w) => Move(s, w, Scanned(CountVerified(s.receipts, 0, s.file, s.size), |s.file|))
    case SkipScan(w) => Move(s, w, Ready(At(s, w).offset, |s.file|))
    case RecoverTransaction(w) =>
      var index := At(s, w).index;
      var offset := Covered(index, s.size);
      Move(s.(receipts := Below(s.receipts, index), offset := offset, complete := false, verified := s.verified + {w.process}), w, Ready(offset, At(s, w).found))
    case Truncate(w) => Move(s.(file := Resized(s.file, At(s, w).offset)), w, Cut(At(s, w).offset))
    case KeepSize(w) => Move(s, w, Trimmed(At(s, w).offset))
    case Sync(w) =>
      var l := At(s, w);
      Move(s.(durable := s.file), w, if l.Cut? then Trimmed(l.offset) else Synced(l.offset, l.bytes))
    case Write(w, bytes, count) =>
      var offset := At(s, w).offset;
      var written := s.(file := Overwritten(s.file, offset, bytes[..count]));
      if count == |bytes| then Move(written, w, Written(offset, bytes)) else written
    case ChunkTransaction(w) =>
      var offset, bytes := At(s, w).offset, At(s, w).bytes;
      Move(s.(receipts := s.receipts + [Receipt(offset / CHUNK_BYTES, offset, |bytes|, Sha256(bytes))], offset := offset + |bytes|), w, Leaving)
    case ReadPart(w, count) =>
      var part := Part(s.file, |DigestedSoFar(s, w)|, count);
      Move(s, w, Reading(DigestedSoFar(s, w) + part, EncryptedSoFar(s, w) + part))
    case EndRead(w) => Move(s, w, Digested(EncryptedSoFar(s, w)))
    case CompleteTransaction(w) => Move(s.(blob := Some(At(s, w).content), complete := true), w, Registered)
    case Unlink(w) => Move(s.(file := [], durable := []), w, Leaving)
    case Release(w) =>
      Move(s.(lease := if s.lease.Some? && s.lease.value.owner == w.process then None else s.lease), w, Outside)
    case Crash(process) =>
      s.(locals := map v | v in s.locals && v.process != process :: s.locals[v], verified := s.verified - {process})
    case PowerLoss(left) =>
      s.(file := left, durable := left, locals := map[], verified := {})
  }

  /** `DELETE ... WHERE chunk_index >= index` */
  function Below(receipts: seq<Receipt>, index: nat): seq<Receipt> {
    if receipts == [] then []
    else
      var init := Below(receipts[..|receipts| - 1], index);
      if receipts[|receipts| - 1].index < index then init + [receipts[|receipts| - 1]] else init
  }

  function Next(s: Session, step: Step): Session {
    if Enabled(s, step) then Apply(s, step) else s
  }

  function Run(s: Session, steps: seq<Step>): Session {
    if steps == [] then s else Next(Run(s, steps[..|steps| - 1]), steps[|steps| - 1])
  }

  function Begun(size: nat, hash: Digest): Session {
    Session(size, hash, 0, false, None, [], None, [], [], {}, map[], 0)
  }

  // ---------------------------------------------------------------- database

  /** Contiguous, chunk-aligned pieces from the start of the content. */
  ghost predicate Contiguous(receipts: seq<Receipt>, size: nat) {
    forall i :: 0 <= i < |receipts| ==>
      && receipts[i].index == i && receipts[i].offset == i * CHUNK_BYTES && i * CHUNK_BYTES < size
      && receipts[i].size == ChunkSize(i * CHUNK_BYTES, size)
  }

  ghost predicate DatabaseOk(s: Session) {
    && Contiguous(s.receipts, s.size)
    && s.offset == Covered(|s.receipts|, s.size)
    && (s.complete ==> s.blob.Some? && s.offset == s.size)
  }

  function SumSizes(receipts: seq<Receipt>): nat {
    if receipts == [] then 0 else SumSizes(receipts[..|receipts| - 1]) + receipts[|receipts| - 1].size
  }

  lemma {:induction false} ContiguousSum(receipts: seq<Receipt>, size: nat)
    requires Contiguous(receipts, size)
    ensures SumSizes(receipts) == Covered(|receipts|, size)
  {
    if receipts != [] {
      ContiguousSum(receipts[..|receipts| - 1], size);
    }
  }

  lemma {:induction false} BelowIsPrefix(receipts: seq<Receipt>, size: nat, index: nat)
    requires Contiguous(receipts, size) && index <= |receipts|
    ensures Below(receipts, index) == receipts[..index]
  {
    if index == |receipts| {
      BelowAll(receipts, size, index);
      assert receipts[..index] == receipts;
    } else {
      var n := |receipts| - 1;
      var init := receipts[..n];
      assert receipts[n].index == n;
      BelowIsPrefix(init, size, index);
      assert init[..index] == receipts[..index];
    }
  }

  lemma {:induction false} BelowAll(receipts: seq<Receipt>, size: nat, index: nat)
    requires Contiguous(receipts, size) && |receipts| <= index
    ensures Below(receipts, index) == receipts
  {
    if receipts != [] {
      BelowAll(receipts[..|receipts| - 1], size, index);
    }
  }

  /** At most one unfinished request per process. */
  ghost predicate OneRequestEach(s: Session) {
    forall v, w :: !At(s, v).Outside? && !At(s, w).Outside? && v.process == w.process ==> v == w
  }

  /** What a request carries along agrees with the row. */
  ghost predicate Current(s: Session, l: Local) {
    match l
    case Entered(offset, complete) => offset == s.offset && complete == s.complete
    case Scanned(index, _) => index <= |s.receipts| && !s.complete
    case Ready(offset, _) => offset == s.offset && !s.complete
    case Cut(offset) => offset == s.offset && !s.complete
    case Trimmed(offset) => offset == s.offset && !s.complete
    case Written(offset, bytes) => offset == s.offset && !s.complete
    case Synced(offset, bytes) => offset == s.offset && !s.complete
    case Reading(_, _) => s.offset == s.size && !s.complete
    case Digested(_) => s.offset == s.size && !s.complete
    case _ => true
  }

  ghost predicate HolderCurrent(s: Session) {
    forall w :: Holds(s, w) ==> Current(s, At(s, w))
  }

  /** What requests carry along is a whole chunk of the content, or a count of chunks. */
  ghost predicate Shape(s: Session, l: Local) {
    match l
    case Scanned(index, _) => index == 0 || (index - 1) * CHUNK_BYTES < s.size
    case Written(offset, bytes) => offset < s.size && offset % CHUNK_BYTES == 0 && |bytes| == ChunkSize(offset, s.size)
    case Synced(offset, bytes) => offset < s.size && offset % CHUNK_BYTES == 0 && |bytes| == ChunkSize(offset, s.size)
    case _ => true
  }

  ghost predicate Shaped(s: Session) {
    forall w :: Shape(s, At(s, w))
  }

  ghost predicate Invariant(s: Session) {
    DatabaseOk(s) && Shaped(s) && OneRequestEach(s) && HolderCurrent(s) && (forall w :: At(s, w).Registered? ==> s.complete)
  }

  /** A process takes the lease for a request only when its earlier requests are over. */
  ghost predicate Solo(s: Session, step: Step) {
    step.Acquire? ==> forall v: Worker :: v.process == step.w.process ==> At(s, v).Outside?
  }

  // ------------------------------------------- when the database stays sound

  /**
   A transaction finds the row as its request last saw it: the guard that
   `WHERE offset = ?` would be.
   */
  ghost predicate Fits(s: Session, step: Step) {
    Enabled(s, step) ==>
      match step
      case RecoverTransaction(w) => At(s, w).index <= |s.receipts|
      case ChunkTransaction(w) => At(s, w).offset == s.offset
      case CompleteTransaction(w) => s.offset == s.size
      case _ => true
  }

  lemma ShapedStep(s: Session, step: Step)
    requires DatabaseOk(s) && Shaped(s) && Enabled(s, step)
    ensures Shaped(Apply(s, step))
  {
    hide Below, Overwritten, Resized, Part;
    var t := Apply(s, step);
    forall w
      ensures Shape(t, At(t, w))
    {
      if At(t, w) == At(s, w) {
        assert Shape(s, At(s, w));
      } else if step.Scan? {
        CountShape(s.receipts, s.file, s.size);
      } else {
        assert !step.Crash? && !step.PowerLoss? ==> Shape(s, At(s, w));
      }
    }
  }

  lemma CountShape(receipts: seq<Receipt>, file: Bytes, size: nat)
    requires Contiguous(receipts, size)
    ensures var n := CountVerified(receipts, 0, file, size); n == 0 || (n - 1) * CHUNK_BYTES < size
  {
  }

  /** A step keeps the database sound exactly when it fits. */
  lemma DatabaseStepIff(s: Session, step: Step)
    requires DatabaseOk(s) && Shaped(s) && Enabled(s, step)
    ensures DatabaseOk(Apply(s, step)) <==> Fits(s, step)
  {
    hide Shaped, Shape, Below;
    match step
    case RecoverTransaction(w) => RecoverIff(s, w);
    case ChunkTransaction(w) => ChunkIff(s, w);
    case _ =>
  }

  lemma RecoverIff(s: Session, w: Worker)
    requires DatabaseOk(s) && Shaped(s) && Enabled(s, RecoverTransaction(w))
    ensures DatabaseOk(Apply(s, RecoverTransaction(w))) <==> At(s, w).index <= |s.receipts|
  {
    var index := At(s, w).index;
    assert Shape(s, At(s, w));
    if index <= |s.receipts| {
      BelowIsPrefix(s.receipts, s.size, index);
    } else {
      BelowAll(s.receipts, s.size, index);
      assert (index - 1) * CHUNK_BYTES < s.size && |s.receipts| * CHUNK_BYTES <= (index - 1) * CHUNK_BYTES;
    }
  }

  lemma ChunkIff(s: Session, w: Worker)
    requires DatabaseOk(s) && Shaped(s) && Enabled(s, ChunkTransaction(w))
    ensures DatabaseOk(Apply(s, ChunkTransaction(w))) <==> At(s, w).offset == s.offset
  {
    var l, t, n := At(s, w), Apply(s, ChunkTransaction(w)), |s.receipts|;
    assert Shape(s, l);
    var k := l.offset / CHUNK_BYTES;
    assert l.offset == k * CHUNK_BYTES && t.receipts[n].index == k;
    assert DatabaseOk(t) ==> t.receipts[n].index == n;
    if l.offset == s.offset {
      assert k == n;
      NextChunk(n, s.size);
    }
  }

  lemma NextChunk(n: nat, size: nat)
    requires n * CHUNK_BYTES < size
    ensures n * CHUNK_BYTES + ChunkSize(n * CHUNK_BYTES, size) == Covered(n + 1, size)
  {
  }

  /** So it is at every point of the run. */
  ghost predicate Throughout(s: Session, steps: seq<Step>, p: Session -> bool) {
    forall k :: 0 <= k <= |steps| ==> p(Run(s, steps[..k]))
  }

  /**
   In every run at all, whoever shares a lease with whom: receipts are
   contiguous chunk-aligned pieces that cover the offset at every point exactly
   when every transaction finds the row as its request last saw it.
   */
  lemma {:induction false} DatabaseAlwaysIff(size: nat, hash: Digest, steps: seq<Step>)
    ensures Throughout(Begun(size, hash), steps, DatabaseOk) <==> Always(Begun(size, hash), steps, Fits)
    ensures Throughout(Begun(size, hash), steps, DatabaseOk) ==> DatabaseOk(Run(Begun(size, hash), steps)) && Shaped(Run(Begun(size, hash), steps))
    decreases |steps|
  {
    hide DatabaseOk, Shaped, Fits, Throughout, Always, Next;
    var start := Begun(size, hash);
    if steps != [] {
      var n := |steps| - 1;
      var s, step := Run(start, steps[..n]), steps[n];
      DatabaseAlwaysIff(size, hash, steps[..n]);
      ThroughoutLast(start, steps, DatabaseOk);
      AlwaysLast(start, steps, Fits);
      if DatabaseOk(s) && Shaped(s) {
        DatabaseNextIff(s, step);
      }
    } else {
      BegunSound(size, hash);
      ThroughoutNone(start, DatabaseOk);
      AlwaysNone(start, Fits);
    }
  }

  lemma DatabaseNextIff(s: Session, step: Step)
    requires DatabaseOk(s) && Shaped(s)
    ensures DatabaseOk(Next(s, step)) <==> Fits(s, step)
    ensures Shaped(Next(s, step))
  {
    hide DatabaseOk, Shaped;
    if Enabled(s, step) {
      DatabaseStepIff(s, step);
      ShapedStep(s, step);
    }
  }

  lemma BegunSound(size: nat, hash: Digest)
    ensures DatabaseOk(Begun(size, hash)) && Shaped(Begun(size, hash)) && FileOk(Begun(size, hash))
  {
  }

  lemma ThroughoutNone(s: Session, p: Session -> bool)
    ensures Throughout(s, [], p) <==> p(s)
  {
    var none: seq<Step> := [];
    assert forall k :: 0 <= k <= |none| ==> none[..k] == [];
    assert Throughout(s, none, p) ==> p(Run(s, none[..0]));
  }

  lemma AlwaysNone(s: Session, p: (Session, Step) -> bool)
    ensures Always(s, [], p)
  {
  }

  lemma ThroughoutLast(s: Session, steps: seq<Step>, p: Session -> bool)
    requires steps != []
    ensures Throughout(s, steps, p) <==> Throughout(s, steps[..|steps| - 1], p) && p(Run(s, steps))
    ensures Throughout(s, steps[..|steps| - 1], p) ==> p(Run(s, steps[..|steps| - 1]))
  {
    var init := steps[..|steps| - 1];
    assert forall k :: 0 <= k <= |init| ==> init[..k] == steps[..k];
    assert steps[..|steps|] == steps && init[..|init|] == init;
    if Throughout(s, init, p) && p(Run(s, steps)) {
      forall k | 0 <= k <= |steps|
        ensures p(Run(s, steps[..k]))
      {
        if k < |steps| {
          assert init[..k] == steps[..k];
        }
      }
    }
  }

  lemma AlwaysLast(s: Session, steps: seq<Step>, p: (Session, Step) -> bool)
    requires steps != []
    ensures Always(s, steps, p) <==>
            Always(s, steps[..|steps| - 1], p) && p(Run(s, steps[..|steps| - 1]), steps[|steps| - 1])
  {
    var n := |steps| - 1;
    var init := steps[..n];
    if Always(s, steps, p) {
      AlwaysInit(s, steps, p);
    } else if Always(s, init, p) && p(Run(s, init), steps[n]) {
      forall k | 0 <= k < |steps|
        ensures p(Run(s, steps[..k]), steps[k])
      {
        if k < n {
          assert init[..k] == steps[..k] && init[k] == steps[k];
        }
      }
    }
  }

  // ------------------------------------------------- one request per process

  lemma DatabaseStep(s: Session, step: Step)
    requires Invariant(s) && Enabled(s, step)
    ensures Fits(s, step) && DatabaseOk(Apply(s, step))
  {
    assert (step.RecoverTransaction? || step.ChunkTransaction? || step.CompleteTransaction?) ==> Current(s, At(s, step.w));
    DatabaseStepIff(s, step);
  }

  lemma HolderStep(s: Session, step: Step, v: Worker)
    requires Invariant(s) && Enabled(s, step) && Solo(s, step)
    requires Holds(Apply(s, step), v)
    ensures Current(Apply(s, step), At(Apply(s, step), v))
  {
    hide Contiguous, Below, Overwritten, Resized, CountVerified, Part, Shaped, Survives;
    match step
    case Tick(_) =>
      assert Holds(s, v);
    case Acquire(w) =>
      assert v.process == w.process;
    case RecoverTransaction(w) =>
      SameHolder(s, v, w);
      BelowIsPrefix(s.receipts, s.size, At(s, w).index);
    case ChunkTransaction(w) => SameHolder(s, v, w);
    case CompleteTransaction(w) => SameHolder(s, v, w);
    case Scan(w) => assert Holds(s, v);
    case _ => assert Holds(s, v) || step.Renew? || step.Release?;
  }

  lemma SameHolder(s: Session, v: Worker, w: Worker)
    requires Holds(s, v) && Holds(s, w) && OneRequestEach(s) && !At(s, w).Outside?
    ensures v == w || At(s, v).Outside?
  {
  }

  lemma OneRequestStep(s: Session, step: Step)
    requires OneRequestEach(s) && Enabled(s, step) && Solo(s, step)
    ensures OneRequestEach(Apply(s, step))
  {
    hide Contiguous, Below, Overwritten, Resized, CountVerified, Part;
    var t := Apply(s, step);
    forall v, w | !At(t, v).Outside? && !At(t, w).Outside? && v.process == w.process
      ensures v == w
    {
      if step.Acquire? {
      } else {
        assert !At(s, v).Outside? && !At(s, w).Outside?;
      }
    }
  }

  lemma InvariantStep(s: Session, step: Step)
    requires Invariant(s) && Solo(s, step)
    ensures Invariant(Next(s, step))
  {
    if Enabled(s, step) {
      DatabaseStep(s, step);
      ShapedStep(s, step);
      OneRequestStep(s, step);
      RegisteredStep(s, step);
      forall v | Holds(Apply(s, step), v)
        ensures Current(Apply(s, step), At(Apply(s, step), v))
      {
        HolderStep(s, step, v);
      }
    }
  }

  /** Once complete, an upload stays complete. */
  lemma RegisteredStep(s: Session, step: Step)
    requires Invariant(s) && Enabled(s, step)
    ensures s.complete ==> Apply(s, step).complete
    ensures forall w :: At(Apply(s, step), w).Registered? ==> Apply(s, step).complete
  {
    hide Contiguous, Below, Overwritten, Resized, CountVerified, Part, Shaped, Survives;
    assert step.RecoverTransaction? ==> Current(s, At(s, step.w));
    var t := Apply(s, step);
    forall w | At(t, w).Registered?
      ensures t.complete
    {
      assert At(s, w).Registered? || step == CompleteTransaction(w);
    }
  }

  /** Every step of the run keeps `p` of the session it meets. */
  ghost predicate Always(s: Session, steps: seq<Step>, p: (Session, Step) -> bool) {
    forall k :: 0 <= k < |steps| ==> p(Run(s, steps[..k]), steps[k])
  }

  lemma AlwaysInit(s: Session, steps: seq<Step>, p: (Session, Step) -> bool)
    requires Always(s, steps, p) && steps != []
    ensures Always(s, steps[..|steps| - 1], p) && p(Run(s, steps[..|steps| - 1]), steps[|steps| - 1])
  {
    var init := steps[..|steps| - 1];
    forall k | 0 <= k < |init|
      ensures p(Run(s, init[..k]), init[k])
    {
      assert init[..k] == steps[..k];
    }
  }

  /**
   In every reachable state, across crashes, expiring leases and any number of
   processes: receipts are contiguous chunk-aligned pieces that sum to the
   offset, and what the lease holder carries along is current.
   */
  lemma {:induction false} DatabaseAlwaysOk(size: nat, hash: Digest, steps: seq<Step>)
    requires Always(Begun(size, hash), steps, Solo)
    ensures var s := Run(Begun(size, hash), steps);
      Invariant(s) && SumSizes(s.receipts) == s.offset
  {
    var start := Begun(size, hash);
    if steps != [] {
      AlwaysInit(start, steps, Solo);
      DatabaseAlwaysOk(size, hash, steps[..|steps| - 1]);
      InvariantStep(Run(start, steps[..|steps| - 1]), steps[|steps| - 1]);
      SizeKept(start, steps);
    }
    ContiguousSum(Run(start, steps).receipts, Run(start, steps).size);
  }

  lemma {:induction false} SizeKept(s: Session, steps: seq<Step>)
    ensures Run(s, steps).size == s.size && Run(s, steps).hash == s.hash
  {
    hide Next;
    if steps != [] {
      SizeKept(s, steps[..|steps| - 1]);
      SizeKeptOnce(Run(s, steps[..|steps| - 1]), steps[|steps| - 1]);
    }
  }

  lemma SizeKeptOnce(s: Session, step: Step)
    ensures Next(s, step).size == s.size && Next(s, step).hash == s.hash
  {
    hide Below, Overwritten, Resized, CountVerified, Part, Survives;
  }

  /** No lease runs out while its own process has a request under way. */
  ghost predicate Outlasts(s: Session, step: Step) {
    forall v :: step.Tick? && !At(s, v).Outside? && s.lease.Some? && v.process == s.lease.value.owner ==>
      s.lease.value.until > s.now + step.ms
  }

  ghost predicate UnderLease(s: Session) {
    forall v :: !At(s, v).Outside? ==> Holds(s, v)
  }

  lemma UnderLeaseStep(s: Session, step: Step)
    requires UnderLease(s) && OneRequestEach(s) && Outlasts(s, step)
    ensures Solo(s, step) || !Enabled(s, step)
    ensures UnderLease(Next(s, step)) && OneRequestEach(Next(s, step))
  {
    hide Below, Overwritten, Resized, CountVerified, Part, Survives;
    if Enabled(s, step) {
      OneRequestStep(s, step);
      var t := Apply(s, step);
      assert step.Release? ==> Holds(s, step.w);
      forall v | !At(t, v).Outside?
        ensures Holds(t, v)
      {
        assert (step.Acquire? && v == step.w) || (!At(s, v).Outside? && Holds(s, v));
      }
    }
  }

  /** The attempt to take a lease that is not to be had changes nothing. */
  ghost predicate SoloOrIdle(s: Session, step: Step) {
    Solo(s, step) || !Enabled(s, step)
  }

  /** When leases outlast the requests of their own process, no process ever has two requests under way. */
  lemma {:induction false} OutlastingIsSolo(size: nat, hash: Digest, steps: seq<Step>)
    requires Always(Begun(size, hash), steps, Outlasts)
    ensures Always(Begun(size, hash), steps, SoloOrIdle)
    ensures UnderLease(Run(Begun(size, hash), steps)) && OneRequestEach(Run(Begun(size, hash), steps))
    decreases |steps|
  {
    var start := Begun(size, hash);
    if steps != [] {
      AlwaysInit(start, steps, Outlasts);
      OutlastingIsSolo(size, hash, steps[..|steps| - 1]);
      UnderLeaseStep(Run(start, steps[..|steps| - 1]), steps[|steps| - 1]);
      AlwaysLast(start, steps, SoloOrIdle);
    }
  }

  // ------------------------------------------------------------------- file

  /** The file holds every acknowledged byte. */
  ghost predicate Backs(s: Session, file: Bytes) {
    VerifiedUpTo(s.receipts, |s.receipts|, file, s.size)
  }

  /** Every acknowledged byte is in the staging file and synced, until the upload is complete and the file disposable. */
  ghost predicate FileOk(s: Session) {
    !s.complete ==> Backs(s, s.file) && Backs(s, s.durable)
  }

  ghost predicate HasAt(file: Bytes, offset: nat, bytes: Bytes) {
    offset + |bytes| <= |file| && file[offset..offset + |bytes|] == bytes
  }

  /** What a request knows about the file. */
  ghost predicate Informed(s: Session, l: Local) {
    match l
    case Scanned(index, _) => index == CountVerified(s.receipts, 0, s.file, s.size)
    case Written(offset, bytes) => HasAt(s.file, offset, bytes)
    case Synced(offset, bytes) => HasAt(s.file, offset, bytes) && HasAt(s.durable, offset, bytes)
    case _ => true
  }

  ghost predicate HolderInformed(s: Session) {
    forall w :: Holds(s, w) ==> Informed(s, At(s, w))
  }

  /** Truncations and writes happen while their request still holds the lease. */
  ghost predicate Timely(s: Session, step: Step) {
    match step
    case Truncate(w) => Holds(s, w)
    case Write(w, _, _) => Holds(s, w)
    case _ => true
  }

  ghost predicate Disciplined(s: Session, step: Step) {
    Solo(s, step) && Timely(s, step)
  }

  /** Receipts speak about the file below the offset only. */
  lemma VerifiedKept(receipts: seq<Receipt>, k: nat, before: Bytes, after: Bytes, size: nat)
    requires VerifiedUpTo(receipts, k, before, size)
    requires Covered(k, size) <= |after| && forall i :: 0 <= i < Covered(k, size) && i < |before| ==> after[i] == before[i]
    ensures VerifiedUpTo(receipts, k, after, size)
  {
    forall i | 0 <= i < k
      ensures Verifies(receipts[i], i, after, size)
    {
      assert Verifies(receipts[i], i, before, size);
      var offset := Covered(i, size);
      assert after[offset..offset + receipts[i].size] == before[offset..offset + receipts[i].size];
    }
  }

  lemma CoveredInFile(s: Session, file: Bytes)
    requires DatabaseOk(s) && Backs(s, file)
    ensures s.offset <= |file|
  {
    if s.receipts != [] {
      assert Verifies(s.receipts[|s.receipts| - 1], |s.receipts| - 1, file, s.size);
    }
  }

  /** Two files that back the same receipts agree below the offset. */
  lemma {:induction false} BackedAlike(s: Session, k: nat, a: Bytes, b: Bytes)
    requires DatabaseOk(s) && k <= |s.receipts| && VerifiedUpTo(s.receipts, k, a, s.size) && VerifiedUpTo(s.receipts, k, b, s.size)
    ensures Covered(k, s.size) <= |a| && Covered(k, s.size) <= |b| && a[..Covered(k, s.size)] == b[..Covered(k, s.size)]
  {
    if k > 0 {
      BackedAlike(s, k - 1, a, b);
      var r, c, d := s.receipts[k - 1], Covered(k - 1, s.size), Covered(k, s.size);
      assert Verifies(r, k - 1, a, s.size) && Verifies(r, k - 1, b, s.size) && d == c + r.size;
      assert a[c..d] == b[c..d];
      assert a[..d] == a[..c] + a[c..d] && b[..d] == b[..c] + b[c..d];
    }
  }

  /** What was synced before its receipt survives a power loss. */
  lemma PowerLossKeeps(s: Session, left: Bytes)
    requires DatabaseOk(s) && FileOk(s) && Survives(s.file, s.durable, left)
    ensures !s.complete ==> Backs(s, left)
  {
    if !s.complete {
      var d := s.offset;
      BackedAlike(s, |s.receipts|, s.file, s.durable);
      forall i | 0 <= i < d
        ensures i < |left| && left[i] == s.file[i]
      {
        assert s.file[..d][i] == s.durable[..d][i];
      }
      assert d > 0 ==> s.file[..d][d - 1] == s.durable[..d][d - 1];
      VerifiedKept(s.receipts, |s.receipts|, s.file, left, s.size);
    }
  }

  /** Recovery leaves exactly the receipts whose bytes are in the file, whatever state the file was in. */
  lemma RecoverFile(s: Session, w: Worker)
    requires DatabaseOk(s) && At(s, w).Scanned? && At(s, w).index == CountVerified(s.receipts, 0, s.file, s.size)
    requires Enabled(s, RecoverTransaction(w))
    ensures var t := Apply(s, RecoverTransaction(w));
      Backs(t, t.file) && LongestVerified(s.receipts, |t.receipts|, s.file, s.size) && t.receipts == s.receipts[..|t.receipts|]
  {
    CountIsLongest(s.receipts, 0, s.file, s.size);
    BelowIsPrefix(s.receipts, s.size, At(s, w).index);
  }

  lemma AppendBacked(s: Session, w: Worker, file: Bytes)
    requires DatabaseOk(s) && Shaped(s) && Enabled(s, ChunkTransaction(w)) && At(s, w).offset == s.offset
    requires Backs(s, file) && HasAt(file, At(s, w).offset, At(s, w).bytes)
    ensures Backs(Apply(s, ChunkTransaction(w)), file)
  {
    assert Shape(s, At(s, w));
    var t := Apply(s, ChunkTransaction(w));
    forall i | 0 <= i < |t.receipts|
      ensures Verifies(t.receipts[i], i, file, t.size)
    {
      if i < |s.receipts| {
        assert Verifies(s.receipts[i], i, file, s.size);
      }
    }
  }

  /**
   What a step must not meet, or must not do, for the file to go on holding
   every acknowledged byte: a truncation below the row's offset; a write over
   other acknowledged bytes; a receipt for bytes that are not there, or not
   synced; a recovery that keeps a receipt whose bytes are not there.
   */
  ghost predicate Backed(s: Session, step: Step) {
    Enabled(s, step) ==>
      match step
      case Truncate(w) => s.complete || s.offset <= At(s, w).offset
      case Write(w, bytes, count) => s.complete || Repeats(s, At(s, w).offset, bytes[..count])
      case ChunkTransaction(w) => s.complete || (HasAt(s.file, At(s, w).offset, At(s, w).bytes) && HasAt(s.durable, At(s, w).offset, At(s, w).bytes))
      case RecoverTransaction(w) =>
        At(s, w).index <= CountVerified(s.receipts, 0, s.file, s.size) && At(s, w).index <= CountVerified(s.receipts, 0, s.durable, s.size)
      case Unlink(_) => s.complete || s.receipts == []
      case _ => true
  }

  /** The bytes are those acknowledged, as far as they meet any. */
  ghost predicate Repeats(s: Session, from: nat, bytes: Bytes) {
    forall i :: 0 <= i < |bytes| && from + i < s.offset && from + i < |s.file| ==> bytes[i] == s.file[from + i]
  }

  /** A step that leaves the database sound keeps the file sound exactly when it is backed. */
  lemma FileStepIff(s: Session, step: Step)
    requires DatabaseOk(s) && Shaped(s) && FileOk(s) && Enabled(s, step) && Fits(s, step)
    ensures FileOk(Apply(s, step)) <==> Backed(s, step)
  {
    hide Shaped, Contiguous, Below, Survives, Part, Overwritten, Resized, CountVerified, Repeats, VerifiedUpTo;
    match step
    case Truncate(w) => TruncateIff(s, w);
    case Write(w, bytes, count) => WriteIff(s, w, bytes, count);
    case ChunkTransaction(w) => ReceiptIff(s, w);
    case RecoverTransaction(w) => RecoveryIff(s, w);
    case PowerLoss(left) => PowerLossKeeps(s, left);
    case Unlink(w) => UnlinkIff(s, w);
    case _ =>
  }

  /** Whenever it comes, a truncation keeps the acknowledged bytes exactly when its offset is not below the row's. */
  lemma TruncateIff(s: Session, w: Worker)
    requires DatabaseOk(s) && FileOk(s) && Enabled(s, Truncate(w))
    ensures FileOk(Apply(s, Truncate(w))) <==> s.complete || s.offset <= At(s, w).offset
  {
    var t := Apply(s, Truncate(w));
    if !s.complete {
      CoveredInFile(s, s.file);
      if s.offset <= At(s, w).offset {
        VerifiedKept(s.receipts, |s.receipts|, s.file, t.file, s.size);
      } else if FileOk(t) {
        CoveredInFile(t, t.file);
      }
    }
  }

  /** Whenever it comes, a write keeps the acknowledged bytes exactly when it repeats those it meets. */
  lemma WriteIff(s: Session, w: Worker, bytes: Bytes, count: nat)
    requires DatabaseOk(s) && FileOk(s) && Enabled(s, Write(w, bytes, count))
    ensures FileOk(Apply(s, Write(w, bytes, count))) <==> s.complete || Repeats(s, At(s, w).offset, bytes[..count])
  {
    var t := Apply(s, Write(w, bytes, count));
    if !s.complete {
      CoveredInFile(s, s.file);
      if Repeats(s, At(s, w).offset, bytes[..count]) {
        WriteSpares(s, w, bytes, count);
        VerifiedKept(s.receipts, |s.receipts|, s.file, t.file, s.size);
      } else if FileOk(t) {
        WriteRepeats(s, w, bytes, count);
      }
    }
  }

  lemma WriteRepeats(s: Session, w: Worker, bytes: Bytes, count: nat)
    requires DatabaseOk(s) && Enabled(s, Write(w, bytes, count)) && Backs(s, s.file) && Backs(s, Apply(s, Write(w, bytes, count)).file)
    ensures Repeats(s, At(s, w).offset, bytes[..count])
  {
    var file, from := Overwritten(s.file, At(s, w).offset, bytes[..count]), At(s, w).offset;
    BackedAlike(s, |s.receipts|, s.file, file);
    hide Overwritten, VerifiedUpTo;
    forall i | 0 <= i < count && from + i < s.offset && from + i < |s.file|
      ensures bytes[..count][i] == s.file[from + i]
    {
      assert file[from..from + count][i] == bytes[..count][i];
      assert s.file[from + i] == s.file[..s.offset][from + i] == file[..s.offset][from + i] == file[from + i];
    }
  }

  /** A receipt is backed exactly when its bytes are in the file and synced. */
  lemma ReceiptIff(s: Session, w: Worker)
    requires DatabaseOk(s) && Shaped(s) && FileOk(s) && Enabled(s, ChunkTransaction(w)) && Fits(s, ChunkTransaction(w))
    ensures FileOk(Apply(s, ChunkTransaction(w))) <==>
            s.complete || (HasAt(s.file, At(s, w).offset, At(s, w).bytes) && HasAt(s.durable, At(s, w).offset, At(s, w).bytes))
  {
    if !s.complete {
      ReceiptBackedIff(s, w, s.file);
      ReceiptBackedIff(s, w, s.durable);
    }
  }

  lemma ReceiptBackedIff(s: Session, w: Worker, file: Bytes)
    requires DatabaseOk(s) && Shaped(s) && Enabled(s, ChunkTransaction(w)) && At(s, w).offset == s.offset && Backs(s, file)
    ensures Backs(Apply(s, ChunkTransaction(w)), file) <==> HasAt(file, At(s, w).offset, At(s, w).bytes)
  {
    assert Shape(s, At(s, w));
    var t, n := Apply(s, ChunkTransaction(w)), |s.receipts|;
    assert Backs(t, file) ==> Verifies(t.receipts[n], n, file, t.size);
    if HasAt(file, At(s, w).offset, At(s, w).bytes) {
      AppendBacked(s, w, file);
    }
  }

  /** A recovery leaves backed receipts exactly when it keeps none past the longest verified prefix. */
  lemma RecoveryIff(s: Session, w: Worker)
    requires DatabaseOk(s) && Enabled(s, RecoverTransaction(w)) && At(s, w).index <= |s.receipts|
    ensures FileOk(Apply(s, RecoverTransaction(w))) <==>
            At(s, w).index <= CountVerified(s.receipts, 0, s.file, s.size) && At(s, w).index <= CountVerified(s.receipts, 0, s.durable, s.size)
  {
    BelowIsPrefix(s.receipts, s.size, At(s, w).index);
    PrefixBackedIff(s.receipts, At(s, w).index, s.file, s.size);
    PrefixBackedIff(s.receipts, At(s, w).index, s.durable, s.size);
  }

  lemma PrefixBackedIff(receipts: seq<Receipt>, k: nat, file: Bytes, size: nat)
    requires k <= |receipts|
    ensures VerifiedUpTo(receipts[..k], k, file, size) <==> k <= CountVerified(receipts, 0, file, size)
  {
    CountIsLongest(receipts, 0, file, size);
    assert VerifiedUpTo(receipts[..k], k, file, size) <==> VerifiedUpTo(receipts, k, file, size);
  }

  lemma UnlinkIff(s: Session, w: Worker)
    requires DatabaseOk(s) && FileOk(s) && Enabled(s, Unlink(w))
    ensures FileOk(Apply(s, Unlink(w))) <==> s.complete || s.receipts == []
  {
    if s.receipts != [] {
      assert !Verifies(s.receipts[0], 0, [], s.size);
    }
  }

  /** Database and file agree. */
  ghost predicate Sound(s: Session) {
    DatabaseOk(s) && FileOk(s)
  }

  ghost predicate FitsBacked(s: Session, step: Step) {
    Fits(s, step) && Backed(s, step)
  }

  lemma SoundNextIff(s: Session, step: Step)
    requires Sound(s) && Shaped(s)
    ensures Sound(Next(s, step)) <==> FitsBacked(s, step)
    ensures Shaped(Next(s, step))
  {
    hide DatabaseOk, Shaped, FileOk;
    DatabaseNextIff(s, step);
    if Enabled(s, step) && Fits(s, step) {
      FileStepIff(s, step);
    }
  }

  /**
   In every run at all, whoever overtakes whom and whatever the disk loses: the
   receipts cover the offset and every acknowledged byte is in the file and
   synced, at every point, exactly when every step finds the row as its request
   last saw it, spares what is acknowledged, and acknowledges only what is there.
   */
  lemma {:induction false} FileAlwaysIff(size: nat, hash: Digest, steps: seq<Step>)
    ensures Throughout(Begun(size, hash), steps, Sound) <==> Always(Begun(size, hash), steps, FitsBacked)
    ensures Throughout(Begun(size, hash), steps, Sound) ==> Sound(Run(Begun(size, hash), steps)) && Shaped(Run(Begun(size, hash), steps))
    decreases |steps|
  {
    hide DatabaseOk, Shaped, FileOk, FitsBacked, Throughout, Always, Next;
    var start := Begun(size, hash);
    if steps != [] {
      var n := |steps| - 1;
      var s, step := Run(start, steps[..n]), steps[n];
      FileAlwaysIff(size, hash, steps[..n]);
      ThroughoutLast(start, steps, Sound);
      AlwaysLast(start, steps, FitsBacked);
      if Sound(s) && Shaped(s) {
        SoundNextIff(s, step);
      }
    } else {
      BegunSound(size, hash);
      ThroughoutNone(start, Sound);
      AlwaysNone(start, FitsBacked);
    }
  }

  lemma WriteSpares(s: Session, w: Worker, bytes: Bytes, count: nat)
    requires Enabled(s, Write(w, bytes, count)) && !s.complete && Repeats(s, At(s, w).offset, bytes[..count]) && s.offset <= |s.file|
    ensures var file := Apply(s, Write(w, bytes, count)).file;
      s.offset <= |file| && forall i :: 0 <= i < s.offset ==> file[i] == s.file[i]
  {
    var file, from := Overwritten(s.file, At(s, w).offset, bytes[..count]), At(s, w).offset;
    assert Apply(s, Write(w, bytes, count)).file == file;
    assert |file| >= s.offset;
    forall i | 0 <= i < s.offset
      ensures file[i] == s.file[i]
    {
      if from <= i < from + count {
        assert file[from..from + count][i - from] == bytes[i - from];
        assert bytes[..count][i - from] == s.file[from + (i - from)];
      }
    }
  }

  /** A disciplined step is backed: the holder of the lease knows the row and the file. */
  lemma FileStep(s: Session, step: Step)
    requires Invariant(s) && FileOk(s) && HolderInformed(s) && Enabled(s, step) && Disciplined(s, step)
    ensures FileOk(Apply(s, step))
  {
    hide OneRequestEach, Shaped, Survives, Part, CountVerified, Below, Overwritten, Resized;
    DatabaseStep(s, step);
    assert step.RecoverTransaction? || step.Truncate? || step.Write? || step.ChunkTransaction? ==>
      Current(s, At(s, step.w)) && Informed(s, At(s, step.w));
    if !s.complete {
      CountIsLongest(s.receipts, 0, s.durable, s.size);
    }
    hide Contiguous, DatabaseOk, VerifiedUpTo;
    FileStepIff(s, step);
  }

  predicate ChangesContent(step: Step) {
    step.RecoverTransaction? || step.ChunkTransaction? || step.CompleteTransaction? || step.Truncate? || step.Write?
  }

  /** The holder alone changes receipts and file, and knows what it did. */
  lemma InformedWorker(s: Session, step: Step, v: Worker)
    requires OneRequestEach(s) && Enabled(s, step) && Timely(s, step) && ChangesContent(step)
    requires Holds(Apply(s, step), v)
    ensures Informed(Apply(s, step), At(Apply(s, step), v))
  {
    hide Below, Resized, CountVerified, Overwritten, Part, Survives;
    SameHolder(s, v, step.w);
    if step.Write? {
      WriteInformed(s, step.w, step.bytes, step.count);
    }
  }

  lemma InformedStep(s: Session, step: Step, v: Worker)
    requires Invariant(s) && HolderInformed(s) && Enabled(s, step) && Disciplined(s, step)
    requires Holds(Apply(s, step), v)
    ensures Informed(Apply(s, step), At(Apply(s, step), v))
  {
    hide Contiguous, Below, Resized, CountVerified, DatabaseOk, Current, Overwritten, Shaped, Part, Survives;
    if ChangesContent(step) {
      InformedWorker(s, step, v);
    } else if step.Acquire? {
      assert v.process == step.w.process;
    } else if step.Unlink? {
      HolderOfComplete(s, v);
    } else if step.Sync? || step.PowerLoss? {
      SyncInformed(s, step, v);
    } else {
      assert Holds(s, v) || step.Renew? || step.Release?;
    }
  }

  lemma SyncInformed(s: Session, step: Step, v: Worker)
    requires Invariant(s) && HolderInformed(s) && Enabled(s, step) && (step.Sync? || step.PowerLoss?)
    requires Holds(Apply(s, step), v)
    ensures Informed(Apply(s, step), At(Apply(s, step), v))
  {
    hide Contiguous, Below, Resized, CountVerified, DatabaseOk, Current, Overwritten, Shaped, Part, Survives;
    assert Holds(s, v) && Informed(s, At(s, v));
  }

  lemma WriteInformed(s: Session, w: Worker, bytes: Bytes, count: nat)
    requires Enabled(s, Write(w, bytes, count))
    ensures Informed(Apply(s, Write(w, bytes, count)), At(Apply(s, Write(w, bytes, count)), w))
  {
    assert bytes[..|bytes|] == bytes;
  }

  /** Once the upload is complete no request works on the file. */
  lemma HolderOfComplete(s: Session, v: Worker)
    requires Invariant(s) && s.complete && Holds(s, v)
    ensures At(s, v).Outside? || At(s, v).Entered? || At(s, v).Registered? || At(s, v).Leaving?
  {
    assert Current(s, At(s, v));
  }

  lemma FileInvariantStep(s: Session, step: Step)
    requires Invariant(s) && FileOk(s) && HolderInformed(s) && Disciplined(s, step)
    ensures Invariant(Next(s, step)) && FileOk(Next(s, step)) && HolderInformed(Next(s, step))
  {
    InvariantStep(s, step);
    if Enabled(s, step) {
      FileStep(s, step);
      forall v | Holds(Apply(s, step), v)
        ensures Informed(Apply(s, step), At(Apply(s, step), v))
      {
        InformedStep(s, step, v);
      }
    }
  }

  /**
   As long as no truncation or write outlives its lease, the file holds every
   acknowledged byte, through crashes of processes and losses of power.
   */
  lemma {:induction false} FileAlwaysOk(size: nat, hash: Digest, steps: seq<Step>)
    requires Always(Begun(size, hash), steps, Disciplined)
    ensures var s := Run(Begun(size, hash), steps);
      Invariant(s) && FileOk(s) && HolderInformed(s)
  {
    if steps != [] {
      var start := Begun(size, hash);
      AlwaysInit(start, steps, Disciplined);
      FileAlwaysOk(size, hash, steps[..|steps| - 1]);
      FileInvariantStep(Run(start, steps[..|steps| - 1]), steps[|steps| - 1]);
    }
  }

  /** In a disciplined run recovery drops exactly the receipts past the longest verified prefix: none. */
  lemma RecoveryKeepsAcknowledged(s: Session, w: Worker)
    requires Invariant(s) && FileOk(s) && HolderInformed(s) && Enabled(s, RecoverTransaction(w))
    ensures Apply(s, RecoverTransaction(w)).receipts == s.receipts
    ensures Apply(s, RecoverTransaction(w)).offset == s.offset
  {
    assert Current(s, At(s, w)) && Informed(s, At(s, w));
    RecoverFile(s, w);
    CountIsLongest(s.receipts, 0, s.file, s.size);
  }

  // ------------------------------------------------------------------ leases

  /** The process of `w` has the lease, and it has not run out. */
  ghost predicate Leased(s: Session, w: Worker) {
    s.lease.Some? && s.lease.value.owner == w.process && s.now < s.lease.value.until
  }

  /** What the database keeps of the content. */
  ghost predicate SameRow(s: Session, t: Session) {
    s.receipts == t.receipts && s.offset == t.offset && s.complete == t.complete && s.blob == t.blob
  }

  /**
   The row changes only at the hands of a process whose lease is running. The
   lease passes to another only when it is free or has run out, and is given
   back by its owner alone. The file is read back only under the lease.
   */
  lemma RowUnderLease(s: Session, step: Step)
    ensures var t := Next(s, step);
      && (SameRow(s, t) || exists w :: Leased(s, w) && !At(s, w).Outside?)
      && (forall w :: At(t, w).Reading? && At(t, w) != At(s, w) ==> Leased(s, w))
      && (t.lease == s.lease || t.lease.None? || PassesOn(s, t.lease.value))
      && (t.lease.None? && s.lease.Some? ==> step.Release? && step.w.process == s.lease.value.owner && !At(s, step.w).Outside?)
  {
    hide Below, Resized, Overwritten, CountVerified, Part, Survives, Verifies;
    if !SameRow(s, Next(s, step)) {
      assert Leased(s, step.w) && !At(s, step.w).Outside?;
    }
  }

  /** No chunk has two receipts, and no request has put more through the digest than was declared. */
  ghost predicate Bounded(s: Session) {
    && OneEach(s.receipts)
    && (forall w :: At(s, w).Reading? ==> |At(s, w).digested| <= s.size)
  }

  ghost predicate OneEach(receipts: seq<Receipt>) {
    forall i, j :: 0 <= i < j < |receipts| ==> receipts[i].index != receipts[j].index
  }

  lemma AppendOneEach(receipts: seq<Receipt>, r: Receipt)
    requires OneEach(receipts) && forall q :: q in receipts ==> q.index != r.index
    ensures OneEach(receipts + [r])
  {
    assert forall i :: 0 <= i < |receipts| ==> receipts[i] in receipts;
  }

  lemma {:induction false} BelowDistinct(receipts: seq<Receipt>, index: nat)
    requires OneEach(receipts)
    ensures OneEach(Below(receipts, index)) && forall r :: r in Below(receipts, index) ==> r in receipts
  {
    if receipts != [] {
      var n := |receipts| - 1;
      BelowDistinct(receipts[..n], index);
      forall r | r in receipts[..n]
        ensures r.index != receipts[n].index
      {
        var i :| 0 <= i < n && receipts[i] == r;
      }
      AppendOneEach(Below(receipts[..n], index), receipts[n]);
    }
  }

  lemma BoundedStep(s: Session, step: Step)
    requires Bounded(s)
    ensures Bounded(Next(s, step))
  {
    hide Below, Resized, Overwritten, CountVerified, Survives, Verifies, Part, OneEach;
    if Enabled(s, step) {
      var t := Apply(s, step);
      if step.RecoverTransaction? {
        BelowDistinct(s.receipts, At(s, step.w).index);
      } else if step.ChunkTransaction? {
        var offset, bytes := At(s, step.w).offset, At(s, step.w).bytes;
        AppendOneEach(s.receipts, Receipt(offset / CHUNK_BYTES, offset, |bytes|, Sha256(bytes)));
      } else {
        assert t.receipts == s.receipts;
      }
      forall w | At(t, w).Reading?
        ensures |At(t, w).digested| <= t.size
      {
        assert At(s, w).Reading? ==> |At(s, w).digested| <= s.size;
      }
    }
  }

  /** In every run at all, whoever overtakes whom. */
  lemma {:induction false} AlwaysBounded(size: nat, hash: Digest, steps: seq<Step>)
    ensures Bounded(Run(Begun(size, hash), steps))
  {
    if steps != [] {
      AlwaysBounded(size, hash, steps[..|steps| - 1]);
      BoundedStep(Run(Begun(size, hash), steps[..|steps| - 1]), steps[|steps| - 1]);
    }
  }

  /** The new lease runs for its full time, and prolongs the old one unless that is over. */
  ghost predicate PassesOn(s: Session, lease: Lease) {
    && lease.until == s.now + 30000
    && (s.lease.None? || s.lease.value.until <= s.now || s.lease.value.owner == lease.owner)
  }

  // ------------------------------------------------------------------- blobs

  /** What is read goes into the digest and into the encrypted copy alike. */
  ghost predicate ReadAlike(s: Session, l: Local) {
    match l
    case Reading(digested, encrypted) => digested == encrypted
    case Digested(content) => |content| == s.size && Sha256(content) == s.hash
    case _ => true
  }

  /** What is or may yet be registered has the declared size and hash; a complete upload is registered. */
  ghost predicate BlobOk(s: Session) {
    && (s.blob.Some? ==> |s.blob.value| == s.size && Sha256(s.blob.value) == s.hash)
    && (s.complete ==> s.blob.Some?)
    && (forall w :: ReadAlike(s, At(s, w)))
  }

  lemma BlobStep(s: Session, step: Step)
    requires BlobOk(s)
    ensures BlobOk(Next(s, step))
  {
    hide Below, Overwritten, Resized, CountVerified, Part, Survives;
    var t := Next(s, step);
    assert step.CompleteTransaction? ==> ReadAlike(s, At(s, step.w));
    forall w
      ensures ReadAlike(t, At(t, w))
    {
      assert ReadAlike(s, At(s, w));
    }
  }

  /**
   In every run at all, whoever overtakes whom and whatever is cut from the file
   while it is read: what is registered has the declared size and hash, and a
   complete upload is registered.
   */
  lemma {:induction false} BlobAlwaysOk(size: nat, hash: Digest, steps: seq<Step>)
    ensures var s := Run(Begun(size, hash), steps);
      && (s.blob.Some? ==> |s.blob.value| == size && Sha256(s.blob.value) == hash)
      && (s.complete ==> s.blob.Some?)
  {
    BlobInvariant(size, hash, steps);
    SizeKept(Begun(size, hash), steps);
  }

  lemma {:induction false} BlobInvariant(size: nat, hash: Digest, steps: seq<Step>)
    ensures BlobOk(Run(Begun(size, hash), steps))
  {
    if steps != [] {
      BlobInvariant(size, hash, steps[..|steps| - 1]);
      BlobStep(Run(Begun(size, hash), steps[..|steps| - 1]), steps[|steps| - 1]);
    }
  }

  // ---------------------------------------------------------------------- runs

  lemma RunMore(s: Session, steps: seq<Step>, step: Step)
    ensures Run(s, steps + [step]) == Next(Run(s, steps), step)
  {
    assert (steps + [step])[..|steps|] == steps;
  }

  lemma {:induction false} RunConcat(s: Session, x: seq<Step>, y: seq<Step>)
    ensures Run(s, x + y) == Run(Run(s, x), y)
  {
    if y == [] {
      assert x + y == x;
    } else {
      var n := |y| - 1;
      RunConcat(s, x, y[..n]);
      assert (x + y)[..|x + y| - 1] == x + y[..n];
    }
  }
}
