/**
 The sending side of a resumable upload (plugin/src/outbound-stream.ts:20-39):
 a reader hands out the file in arbitrary fragments, and the client cuts it
 into the chunks the server expects.
 */
module OutboundStream {
  import opened Wrappers
  import opened ContentUpload
  import opened UploadRequests

  const PART_BYTES := 65536

  /** What the server says about the session when the upload begins. */
  datatype Resume = Resume(offset: int, chunkBytes: int, complete: bool, hash: Digest, size: int)

  /** What the server answers, given the chunks it has been sent: the offset on its receipt, and whether it completes. */
  datatype Server = Server(receipt: (seq<Sent>, Sent) -> Option<nat>, completes: seq<Sent> -> bool)

  /** The offset behind the chunk, which its receipt has to name. */
  function Behind(c: Sent): nat {
    c.index * CHUNK_BYTES + |c.body|
  }

  ghost predicate Answered(server: Server, sent: seq<Sent>) {
    forall i :: 0 <= i < |sent| ==> server.receipt(sent[..i], sent[i]) == Some(Behind(sent[i]))
  }

  /** The last receipt was not the one expected. */
  ghost predicate Misanswered(server: Server, sent: seq<Sent>) {
    sent != [] && server.receipt(sent[..|sent| - 1], sent[|sent| - 1]) != Some(Behind(sent[|sent| - 1]))
  }

  function Flatten(fragments: seq<Bytes>): Bytes {
    if fragments == [] then [] else Flatten(fragments[..|fragments| - 1]) + fragments[|fragments| - 1]
  }

  lemma {:induction false} FlattenPrefix(fragments: seq<Bytes>, i: nat)
    requires i < |fragments|
    ensures Flatten(fragments[..i + 1]) == Flatten(fragments[..i]) + fragments[i]
    ensures |Flatten(fragments[..i + 1])| <= |Flatten(fragments)|
    ensures Flatten(fragments)[..|Flatten(fragments[..i + 1])|] == Flatten(fragments[..i + 1])
    decreases |fragments|
  {
    assert fragments[..i + 1][..i] == fragments[..i];
    if i + 1 == |fragments| {
      assert fragments[..i + 1] == fragments;
    } else {
      var init := fragments[..|fragments| - 1];
      FlattenPrefix(init, i);
      assert init[..i + 1] == fragments[..i + 1] && init[..i] == fragments[..i];
    }
  }

  /** The first chunk that is not wholly before `offset`. */
  function FirstChunk(offset: nat): nat {
    (offset + CHUNK_BYTES - 1) / CHUNK_BYTES
  }

  /** The session is that of this file in chunks of 256 KiB, and stands at a chunk boundary or at the end. */
  ghost predicate ValidState(state: Resume, hash: Digest, size: nat) {
    && state.hash == hash && state.size == size && state.chunkBytes == 262144
    && 0 <= state.offset <= size
    && (state.complete ==> state.offset == size)
    && (state.offset == size || state.offset % 262144 == 0)
  }

  datatype Failure =
    | InvalidState | FileChanged | Misaligned | InvalidReceipt | Unacknowledged | Unverified

  datatype Outcome = Stored | Failed(failure: Failure)

  /** The chunks sent once everything before `boundary` has been handed over. */
  ghost predicate SentUpTo(sent: seq<Sent>, content: Bytes, offset: nat, boundary: nat) {
    && boundary * CHUNK_BYTES <= |content|
    && sent == Chunks(content, FirstChunk(offset), boundary)
  }

  /** The buffer holds the bytes read since the last chunk boundary. */
  ghost predicate Buffered(chunk: array<bv8>, content: Bytes, read: nat, filled: nat)
    reads chunk
  {
    && chunk.Length == CHUNK_BYTES && filled <= CHUNK_BYTES && filled <= read <= |content|
    && (read - filled) % CHUNK_BYTES == 0
    && chunk[..filled] == content[read - filled..read]
  }

  /** The offset of the last receipt once everything before `boundary` has been handed over. */
  function Confirmed(offset: nat, boundary: nat): nat {
    if boundary > offset then boundary else offset
  }

  /** `send`: hand over the buffer if it lies past the resume offset; the receipt must name the bytes read so far. */
  method Send(server: Server, chunk: array<bv8>, ghost content: Bytes, read: nat, filled: nat, offset: nat, ghost size: nat, before: seq<Sent>, confirmed: nat)
    returns (failure: Option<Failure>, sent: seq<Sent>, uploaded: nat)
    requires Buffered(chunk, content, read, filled) && 0 < filled && read <= size
    requires offset == size || offset % CHUNK_BYTES == 0
    requires filled == CHUNK_BYTES || read == |content|
    requires SentUpTo(before, content, offset, (read - filled) / CHUNK_BYTES) && Answered(server, before)
    requires confirmed == Confirmed(offset, read - filled)
    ensures failure.None? || failure == Some(InvalidReceipt)
    ensures sent == Chunks(content, FirstChunk(offset), (read - filled) / CHUNK_BYTES + 1)
    ensures failure.None? ==> uploaded == Confirmed(offset, read) && Answered(server, sent)
    ensures failure.Some? ==> Misanswered(server, sent)
  {
    hide Answered, Misanswered, Chunks, FirstChunk;
    uploaded := confirmed;
    var start := read - filled;
    var k := start / CHUNK_BYTES;
    assert start == k * CHUNK_BYTES;
    if read > offset {
      if start < offset {
        return Some(Misaligned), before, uploaded;
      }
      Aligned(offset, k);
      assert chunk[..filled] == Chunk(content, k);
      var next := Sent(k, chunk[..filled]);
      assert Behind(next) == read;
      sent := before + [next];
      NextSent(content, FirstChunk(offset), k);
      AnsweredStep(server, before, next);
      if server.receipt(before, next) == Some(read) {
        failure, uploaded := None, read;
      } else {
        failure := Some(InvalidReceipt);
      }
    } else {
      failure, sent := None, before;
      Skipped(offset, k, read, size);
      NoneSent(content, FirstChunk(offset), k);
    }
  }

  lemma NextSent(content: Bytes, from: nat, k: nat)
    requires from <= k && k * CHUNK_BYTES <= |content|
    ensures Chunks(content, from, k + 1) == Chunks(content, from, k) + [Sent(k, Chunk(content, k))]
  {
  }

  lemma NoneSent(content: Bytes, from: nat, k: nat)
    requires k + 1 <= from && k * CHUNK_BYTES <= |content|
    ensures Chunks(content, from, k + 1) == Chunks(content, from, k) == []
  {
  }

  lemma AnsweredStep(server: Server, before: seq<Sent>, next: Sent)
    requires Answered(server, before)
    ensures server.receipt(before, next) == Some(Behind(next)) ==> Answered(server, before + [next])
    ensures server.receipt(before, next) != Some(Behind(next)) ==> Misanswered(server, before + [next])
  {
    var all := before + [next];
    assert forall i :: 0 <= i < |before| ==> all[..i] == before[..i] && all[i] == before[i];
    assert all[..|before|] == before;
  }

  /** Of all the chunks those sent so far come first. */
  lemma {:induction false} ChunksPrefix(content: Bytes, from: nat, b: nat, end: nat)
    requires b <= end && (end == 0 || (end - 1) * CHUNK_BYTES <= |content|)
    ensures b == 0 || (b - 1) * CHUNK_BYTES <= |content|
    ensures |Chunks(content, from, b)| <= |Chunks(content, from, end)|
    ensures Chunks(content, from, end)[..|Chunks(content, from, b)|] == Chunks(content, from, b)
  {
  }

  lemma PrefixAnswered(server: Server, sent: seq<Sent>, all: seq<Sent>)
    requires |sent| <= |all| && all[..|sent|] == sent && Misanswered(server, sent)
    ensures !Answered(server, all)
  {
    assert all[..|sent| - 1] == sent[..|sent| - 1] && all[|sent| - 1] == sent[|sent| - 1];
  }

  /** A boundary past the resume offset starts with a chunk to be sent. */
  lemma Aligned(offset: nat, k: nat)
    requires k * CHUNK_BYTES >= offset
    ensures FirstChunk(offset) <= k
  {
  }

  lemma Skipped(offset: nat, k: nat, read: nat, size: nat)
    requires k * CHUNK_BYTES < read <= offset
    ensures FirstChunk(offset) >= k + 1
  {
  }

  /** The last boundary before `read`, and the chunks that cover `read` bytes. */
  lemma Boundaries(read: nat, filled: nat)
    requires filled <= read && (read - filled) % CHUNK_BYTES == 0
    ensures 0 < filled <= CHUNK_BYTES ==> (read - filled) / CHUNK_BYTES + 1 == FirstChunk(read)
    ensures filled == 0 ==> read / CHUNK_BYTES == FirstChunk(read)
  {
  }

  /** Copy the next part of the fragment, as much as fits. */
  method CopyPart(chunk: array<bv8>, value: Bytes, at: nat, ghost content: Bytes, read: nat, filled: nat) returns (length: nat)
    requires Buffered(chunk, content, read, filled) && filled < CHUNK_BYTES && at < |value|
    requires read + |value| - at <= |content| && content[read..read + |value| - at] == value[at..]
    modifies chunk
    ensures 0 < length <= |value| - at && filled + length <= CHUNK_BYTES
    ensures Buffered(chunk, content, read + length, filled + length)
  {
    length := Min(Min(PART_BYTES, CHUNK_BYTES - filled), |value| - at);
    var part := value[at..at + length];
    assert part == value[at..][..length] == content[read..read + |value| - at][..length] == content[read..read + length];
    Fill(chunk, filled, part);
    assert chunk[..filled + length] == chunk[..filled] + part;
    assert content[read - filled..read + length] == content[read - filled..read] + content[read..read + length];
  }

  lemma RestOfFragment(value: Bytes, content: Bytes, read0: nat, at: nat)
    requires read0 + |value| <= |content| && content[read0..read0 + |value|] == value && at <= |value|
    ensures content[read0 + at..read0 + |value|] == value[at..]
  {
    assert content[read0..read0 + |value|][at..] == content[read0 + at..read0 + |value|];
  }

  /** One fragment, copied part by part into the buffer. */
  method Consume(server: Server, chunk: array<bv8>, value: Bytes, ghost content: Bytes, offset: nat, size: nat, read0: nat, filled0: nat, before: seq<Sent>, confirmed: nat)
    returns (failure: Option<Failure>, read: nat, filled: nat, sent: seq<Sent>, uploaded: nat)
    requires Buffered(chunk, content, read0, filled0) && filled0 < CHUNK_BYTES
    requires read0 + |value| <= |content| && content[read0..read0 + |value|] == value && read0 + |value| <= size
    requires offset == size || offset % CHUNK_BYTES == 0
    requires SentUpTo(before, content, offset, (read0 - filled0) / CHUNK_BYTES) && confirmed == Confirmed(offset, read0 - filled0)
    requires Answered(server, before)
    modifies chunk
    ensures failure.None? || failure == Some(InvalidReceipt)
    ensures failure.None? ==> Buffered(chunk, content, read, filled) && filled < CHUNK_BYTES && read == read0 + |value|
    ensures failure.None? ==> SentUpTo(sent, content, offset, (read - filled) / CHUNK_BYTES) && uploaded == Confirmed(offset, read - filled)
    ensures failure.None? ==> Answered(server, sent)
    ensures failure.Some? ==> InOrder(sent, content, offset) && Misanswered(server, sent)
  {
    hide SentUpTo, Confirmed, Answered, Misanswered, FirstChunk, Chunks, Chunk, InOrder, Buffered;
    BufferedLength(chunk, content, read0, filled0);
    failure, read, filled, sent, uploaded := None, read0, filled0, before, confirmed;
    var at := 0;
    while at < |value|
      invariant 0 <= at <= |value| && read == read0 + at && failure.None? && filled <= read
      invariant Buffered(chunk, content, read, filled) && filled < CHUNK_BYTES
      invariant SentUpTo(sent, content, offset, (read - filled) / CHUNK_BYTES) && uploaded == Confirmed(offset, read - filled)
      invariant Answered(server, sent)
    {
      RestOfFragment(value, content, read0, at);
      var length := CopyPart(chunk, value, at, content, read, filled);
      SameBoundary(read, filled, length);
      BufferedLength(chunk, content, read + length, filled + length);
      filled, read, at := filled + length, read + length, at + length;
      if filled == CHUNK_BYTES {
        ghost var k := (read - filled) / CHUNK_BYTES;
        failure, sent, uploaded := Send(server, chunk, content, read, filled, offset, size, sent, uploaded);
        OneMore(content, read, filled);
        if failure.Some? {
          SentInOrder(sent, content, offset, k + 1);
          return;
        }
        SentNow(sent, content, offset, read);
        filled := 0;
        Emptied(chunk, content, read);
      }
    }
  }

  lemma SentNow(sent: seq<Sent>, content: Bytes, offset: nat, read: nat)
    requires read <= |content| && sent == Chunks(content, FirstChunk(offset), read / CHUNK_BYTES)
    ensures SentUpTo(sent, content, offset, read / CHUNK_BYTES)
  {
    hide Chunks;
  }

  lemma BufferedLength(chunk: array<bv8>, content: Bytes, read: nat, filled: nat)
    requires Buffered(chunk, content, read, filled)
    ensures chunk.Length == CHUNK_BYTES && filled <= read <= |content| && (read - filled) % CHUNK_BYTES == 0
  {
  }

  lemma SentInOrder(sent: seq<Sent>, content: Bytes, offset: nat, b: nat)
    requires (b == 0 || (b - 1) * CHUNK_BYTES < |content|) && sent == Chunks(content, FirstChunk(offset), b)
    ensures InOrder(sent, content, offset)
  {
  }

  lemma Emptied(chunk: array<bv8>, content: Bytes, read: nat)
    requires chunk.Length == CHUNK_BYTES && read <= |content| && read % CHUNK_BYTES == 0
    ensures Buffered(chunk, content, read, 0)
  {
  }

  lemma SameBoundary(read: nat, filled: nat, length: nat)
    requires filled <= read
    ensures (read + length) - (filled + length) == read - filled
  {
  }

  /** A full buffer ends at the next boundary. */
  lemma OneMore(content: Bytes, read: nat, filled: nat)
    requires filled == CHUNK_BYTES && filled <= read <= |content| && (read - filled) % CHUNK_BYTES == 0
    ensures (read - filled) / CHUNK_BYTES + 1 == read / CHUNK_BYTES && read % CHUNK_BYTES == 0
    ensures read / CHUNK_BYTES * CHUNK_BYTES <= |content|
  {
  }

  /** `chunk.set(part, filled)` */
  method Fill(chunk: array<bv8>, filled: nat, part: Bytes)
    requires filled + |part| <= chunk.Length
    modifies chunk
    ensures chunk[..filled] == old(chunk[..filled])
    ensures chunk[filled..filled + |part|] == part
  {
    for i := 0 to |part|
      invariant chunk[..filled] == old(chunk[..filled])
      invariant chunk[filled..filled + i] == part[..i]
    {
      chunk[filled + i] := part[i];
    }
    assert part[..|part|] == part;
  }

  lemma NothingRead(fragments: seq<Bytes>)
    ensures Flatten(fragments[..0]) == []
  {
  }

  /** The chunks of `content` past the resume offset, up to some point. */
  ghost predicate InOrder(sent: seq<Sent>, content: Bytes, offset: nat) {
    exists b: nat :: (b == 0 || (b - 1) * CHUNK_BYTES < |content|) && sent == Chunks(content, FirstChunk(offset), b)
  }

  /** The state is valid, the content is the declared one and the file has not changed. */
  ghost predicate Sendable(content: Bytes, state: Resume, hash: Digest, size: nat, stable: bool) {
    ValidState(state, hash, size) && |content| == size && Sha256(content) == hash && stable
  }

  /** The server answers every missing chunk with the offset behind it, and completes. */
  ghost predicate Served(server: Server, content: Bytes, state: Resume)
    requires 0 <= state.offset
  {
    LastChunk(|content|);
    var all := Chunks(content, FirstChunk(state.offset), FirstChunk(|content|));
    Answered(server, all) && (state.complete || server.completes(all))
  }

  lemma LastChunk(size: nat)
    ensures FirstChunk(size) == 0 || (FirstChunk(size) - 1) * CHUNK_BYTES < size
  {
  }

  /**
   `uploadAdapterFile`. However the reader cuts the file, the chunks sent are
   those of the content past the resume offset, each once, in order and under
   its own index. The call succeeds exactly when the resume state is valid, the
   content is the declared one, the file has not changed, and the server
   answers every chunk with the offset behind it and then completes; all the
   chunks are then sent. Once the resume state has been validated the offset
   never falls inside a chunk, and nothing is left unacknowledged.
   */
  method UploadAdapterFile(fragments: seq<Bytes>, state: Resume, hash: Digest, size: nat, stable: bool, server: Server)
    returns (r: Outcome, sent: seq<Sent>)
    ensures ValidState(state, hash, size) || r == Outcome.Failed(InvalidState)
    ensures r != Outcome.Failed(Misaligned) && r != Outcome.Failed(Unacknowledged)
    ensures r == Outcome.Failed(InvalidState) ==> sent == []
    ensures ValidState(state, hash, size) ==> InOrder(sent, Flatten(fragments), state.offset)
    ensures var content := Flatten(fragments);
      r.Stored? <==> Sendable(content, state, hash, size, stable) && Served(server, content, state)
    ensures r.Stored? ==> |Flatten(fragments)| == size && sent == Chunks(Flatten(fragments), FirstChunk(state.offset), FirstChunk(size))
  {
    hide Chunks, Chunk, FirstChunk, Flatten, Answered, Misanswered, Served;
    sent := [];
    if state.hash != hash || state.size != size || state.chunkBytes != CHUNK_BYTES || state.offset < 0 || state.offset > size
       || (state.complete && state.offset != size) || (state.offset != size && state.offset % CHUNK_BYTES != 0) {
      return Outcome.Failed(InvalidState), [];
    }
    var offset: nat := state.offset;
    ghost var content := Flatten(fragments);
    var chunk := new bv8[CHUNK_BYTES];
    var read: nat, filled: nat, uploaded: nat := 0, 0, offset;
    var digested: Bytes := [];
    assert Chunks(content, FirstChunk(offset), 0) == [];
    NothingRead(fragments);
    NothingAnswered(server);
    for i := 0 to |fragments|
      invariant read == |Flatten(fragments[..i])| && digested == Flatten(fragments[..i])
      invariant read <= |content| && content[..read] == digested && read <= size
      invariant Buffered(chunk, content, read, filled) && filled < CHUNK_BYTES
      invariant SentUpTo(sent, content, offset, (read - filled) / CHUNK_BYTES) && uploaded == Confirmed(offset, read - filled)
      invariant fresh(chunk) && Answered(server, sent)
    {
      FlattenPrefix(fragments, i);
      var value := fragments[i];
      if read + |value| > size {
        return Outcome.Failed(FileChanged), sent;
      }
      assert content[read..read + |value|] == Flatten(fragments[..i + 1])[read..] == value;
      var failure;
      failure, read, filled, sent, uploaded := Consume(server, chunk, value, content, offset, size, read, filled, sent, uploaded);
      if failure.Some? {
        NotServed(server, content, state, size, sent);
        return Outcome.Failed(failure.value), sent;
      }
      digested := digested + value;
    }
    assert fragments[..|fragments|] == fragments;
    Boundaries(read, filled);
    if filled > 0 {
      var failure;
      failure, sent, uploaded := Send(server, chunk, content, read, filled, offset, size, sent, uploaded);
      if failure.Some? {
        SentInOrder(sent, content, offset, (read - filled) / CHUNK_BYTES + 1);
        NotServed(server, content, state, size, sent);
        return Outcome.Failed(failure.value), sent;
      }
    }
    if read != size || Sha256(digested) != hash || !stable {
      return Outcome.Failed(FileChanged), sent;
    }
    if uploaded != size {
      return Outcome.Failed(Unacknowledged), sent;
    }
    ServedIff(server, content, state, sent);
    if !state.complete && !server.completes(sent) {
      return Outcome.Failed(Unverified), sent;
    }
    r := Stored;
  }

  lemma NothingAnswered(server: Server)
    ensures Answered(server, [])
  {
  }

  lemma ServedIff(server: Server, content: Bytes, state: Resume, sent: seq<Sent>)
    requires 0 <= state.offset && Answered(server, sent)
    requires FirstChunk(|content|) == 0 || (FirstChunk(|content|) - 1) * CHUNK_BYTES <= |content|
    requires sent == Chunks(content, FirstChunk(state.offset), FirstChunk(|content|))
    ensures Served(server, content, state) <==> state.complete || server.completes(sent)
  {
  }

  /** A wrong receipt on the way: the server does not answer all chunks. */
  lemma NotServed(server: Server, content: Bytes, state: Resume, size: nat, sent: seq<Sent>)
    requires 0 <= state.offset && InOrder(sent, content, state.offset) && Misanswered(server, sent)
    ensures !Served(server, content, state)
  {
    hide Answered;
    LastChunk(|content|);
    var f, end := FirstChunk(state.offset), FirstChunk(|content|);
    var b: nat :| (b == 0 || (b - 1) * CHUNK_BYTES < |content|) && sent == Chunks(content, f, b);
    ChunksPrefix(content, f, b, end);
    PrefixAnswered(server, sent, Chunks(content, f, end));
  }

  // ------------------------------------------------------------ with the server

  /** A resume offset reported by the server is one the client accepts. */
  lemma ServerStateIsValid(s: Session)
    requires DatabaseOk(s)
    ensures ValidState(StateOf(s), s.hash, s.size)
  {
  }

  /** What `begin` reports of a session. */
  function StateOf(s: Session): Resume {
    Resume(s.offset, CHUNK_BYTES, s.complete, s.hash, s.size)
  }

  /** The server as the client meets it, when nobody else is at work on the session. */
  function ServerOf(s: Session, w: Worker): Server {
    Server((before: seq<Sent>, next: Sent) => ReplyOffset(ServeChunk(Deliver(s, w, before), w, next.index, next.body)),
           (sent: seq<Sent>) => ServeComplete(Deliver(s, w, sent), w).complete)
  }

  /** The first missing chunk is the one after the last receipt. */
  lemma FirstMissing(s: Session)
    requires DatabaseOk(s)
    ensures FirstChunk(s.offset) == |s.receipts|
  {
    LastReceipt(s);
  }

  /** Every missing chunk is taken, and its receipt names the offset behind it. */
  lemma ServerAnswers(s: Session, w: Worker, content: Bytes)
    requires Intact(s, w) && !s.complete && s.size == |content|
    ensures FirstChunk(s.size) == 0 || (FirstChunk(s.size) - 1) * CHUNK_BYTES < s.size
    ensures Answered(ServerOf(s, w), Chunks(content, FirstChunk(s.offset), FirstChunk(s.size)))
    ensures Arrived(s, w, content, FirstChunk(s.size), Deliver(s, w, Chunks(content, FirstChunk(s.offset), FirstChunk(s.size))))
  {
    LastChunk(s.size);
    FirstMissing(s);
    MissingUpTo(s);
    var f, end := |s.receipts|, FirstChunk(s.size);
    var all := Chunks(content, f, end);
    DeliverAll(s, w, content, end);
    hide ServeChunk, Intact, Arrived, Deliver, ServerOf, FirstChunk;
    forall i | 0 <= i < |all|
      ensures ServerOf(s, w).receipt(all[..i], all[i]) == Some(Behind(all[i]))
    {
      ServerAnswersOne(s, w, content, f, f + i, end);
    }
  }

  lemma ServerAnswersOne(s: Session, w: Worker, content: Bytes, from: nat, k: nat, end: nat)
    requires Intact(s, w) && !s.complete && s.size == |content| && from == |s.receipts| <= k < end && (end - 1) * CHUNK_BYTES < s.size
    ensures var all := Chunks(content, from, end);
      ServerOf(s, w).receipt(all[..k - from], all[k - from]) == Some(Behind(all[k - from]))
  {
    hide ServeChunk, Intact, Arrived, Deliver;
    ChunksPrefix(content, from, k, end);
    DeliverAll(s, w, content, k);
    DeliverOne(s, w, content, k, Deliver(s, w, Chunks(content, from, k)));
    NextChunk(k, s.size);
  }

  lemma MissingUpTo(s: Session)
    requires DatabaseOk(s)
    ensures |s.receipts| <= FirstChunk(s.size)
  {
    LastReceipt(s);
  }

  /** The client has stored the file exactly when it is the declared one and goes on from what is staged. */
  ghost predicate Continues(s: Session, content: Bytes) {
    |content| == s.size && Sha256(content) == s.hash && (s.complete || (s.offset <= |s.file| && s.offset <= s.size && s.file[..s.offset] == content[..s.offset]))
  }

  lemma ServerCompletesIff(s: Session, w: Worker, content: Bytes)
    requires Intact(s, w) && |content| == s.size && Sha256(content) == s.hash
    ensures Served(ServerOf(s, w), content, StateOf(s)) <==> Continues(s, content)
    ensures s.complete ==> s.blob == Some(content)
    ensures !s.complete ==>
      && (FirstChunk(s.size) == 0 || (FirstChunk(s.size) - 1) * CHUNK_BYTES < s.size)
      && var t := ServeComplete(Deliver(s, w, Chunks(content, FirstChunk(s.offset), FirstChunk(s.size))), w);
         (t.complete <==> Continues(s, content)) && (t.complete ==> t.blob == Some(content))
  {
    LastChunk(s.size);
    if s.complete {
      assert Chunks(content, FirstChunk(s.offset), FirstChunk(s.size)) == [];
    } else {
      ServerAnswers(s, w, content);
      ArrivedCompletes(s, w, content, Deliver(s, w, Chunks(content, FirstChunk(s.offset), FirstChunk(s.size))));
    }
  }

  lemma ArrivedCompletes(s: Session, w: Worker, content: Bytes, t: Session)
    requires Intact(s, w) && !s.complete && |content| == s.size && Sha256(content) == s.hash
    requires Arrived(s, w, content, FirstChunk(s.size), t)
    ensures ServeComplete(t, w).complete <==> Continues(s, content)
    ensures ServeComplete(t, w).complete ==> ServeComplete(t, w).blob == Some(content)
  {
    hide Intact, ServeComplete;
    CompleteIff(t, w);
    assert t.offset == s.size;
    var joined := s.file[..s.offset] + content[s.offset..s.size];
    assert content[..s.offset] + content[s.offset..s.size] == content;
    assert joined[..s.offset] == s.file[..s.offset];
  }

  /**
   Client and server together. However the file is cut and wherever the upload
   resumes, the client succeeds exactly when the file is the declared one, has
   not changed, and goes on from what is staged; and then the server has
   registered the very bytes of the file.
   */
  method UploadToServer(fragments: seq<Bytes>, s: Session, w: Worker, stable: bool) returns (r: Outcome, after: Session)
    requires Intact(s, w)
    ensures r.Stored? <==> stable && Continues(s, Flatten(fragments))
    ensures r.Stored? ==> after.complete && after.blob == Some(Flatten(fragments))
  {
    hide Intact, Served, Continues, ServeComplete, Deliver, Chunks, FirstChunk;
    ghost var content := Flatten(fragments);
    ServerStateValid(s, w);
    var sent;
    r, sent := UploadAdapterFile(fragments, StateOf(s), s.hash, s.size, stable, ServerOf(s, w));
    if |content| == s.size && Sha256(content) == s.hash {
      ServerCompletesIff(s, w, content);
    } else {
      NotDeclared(s, content);
    }
    after := if s.complete then s else ServeComplete(Deliver(s, w, sent), w);
  }

  lemma ServerStateValid(s: Session, w: Worker)
    requires Intact(s, w)
    ensures ValidState(StateOf(s), s.hash, s.size)
  {
    ServerStateIsValid(s);
  }

  lemma NotDeclared(s: Session, content: Bytes)
    requires |content| != s.size || Sha256(content) != s.hash
    ensures !Continues(s, content)
  {
  }

  /**
   In every run at all: once the server calls an upload complete, what it has
   registered is the one content with the declared hash.
   */
  lemma SuccessMeansSameBytes(size: nat, hash: Digest, steps: seq<ContentUpload.Step>, content: Bytes)
    requires Run(Begun(size, hash), steps).complete && Sha256(content) == hash
    ensures Run(Begun(size, hash), steps).blob == Some(content)
  {
    BlobAlwaysOk(size, hash, steps);
  }
}
