/**
 Admission of uploads by free disk space
 (apps/server/src/content-upload.ts:164-191, 76-85).
 */
module DiskReservation {
  // What a new upload must leave free, and what the later steps of all uploads
  // do to that margin. Nothing else writes to the disk.

  /** A session row with the bytes of its staging file and of its encrypted copies, in flight or left by a crash. */
  datatype Upload = Upload(size: nat, offset: nat, complete: bool, file: nat, encrypted: nat)

  datatype Disk = Disk(total: int, uploads: seq<Upload>)

  /** 64 MiB stay free. */
  const RESERVE := 67108864

  /** The encrypted copy of a file carries 29 bytes more. */
  const OVERHEAD := 29

  function Sum(uploads: seq<Upload>, f: Upload -> int): int {
    if uploads == [] then 0 else Sum(uploads[..|uploads| - 1], f) + f(uploads[|uploads| - 1])
  }

  function File(u: Upload): int { u.file }

  function Encrypted(u: Upload): int { u.encrypted }

  /** What admission reserves for a session (apps/server/src/content-upload.ts:182). */
  function Pending(u: Upload): int {
    if u.complete then 0 else u.size + (u.size - u.offset) + OVERHEAD
  }

  /** Clear and encrypted copy of an unfinished session; whatever a finished one has left. */
  function Claim(u: Upload): int {
    if u.complete then u.file else 2 * u.size + OVERHEAD
  }

  /** Bytes written but not acknowledged. */
  function Unacknowledged(u: Upload): int {
    if u.complete then 0 else u.file - u.offset
  }

  /** Acknowledged bytes of unfinished sessions, and the files of finished ones. */
  function Acknowledged(u: Upload): int {
    if u.complete then u.file else u.offset
  }

  function Free(d: Disk): int {
    d.total - Sum(d.uploads, File) - Sum(d.uploads, Encrypted)
  }

  function Reserved(d: Disk): int {
    Sum(d.uploads, Pending)
  }

  /** Free space, with the encrypted copies counted in, that no reservation claims. */
  function Margin(d: Disk): int {
    Free(d) + Sum(d.uploads, Encrypted) - Reserved(d)
  }

  /** What is left of the disk when every session has both its copies. */
  function Slack(d: Disk): int {
    d.total - Sum(d.uploads, Claim)
  }

  lemma {:induction false} SumUpdate(uploads: seq<Upload>, i: nat, u: Upload, f: Upload -> int)
    requires i < |uploads|
    ensures Sum(uploads[i := u], f) == Sum(uploads, f) - f(uploads[i]) + f(u)
  {
    var n := |uploads| - 1;
    if i == n {
      assert uploads[i := u][..n] == uploads[..n];
    } else {
      SumUpdate(uploads[..n], i, u, f);
      assert uploads[i := u][..n] == uploads[..n][i := u];
    }
  }

  lemma {:induction false} SumMinus(uploads: seq<Upload>, f: Upload -> int, g: Upload -> int, h: Upload -> int)
    requires forall u :: h(u) == f(u) - g(u)
    ensures Sum(uploads, h) == Sum(uploads, f) - Sum(uploads, g)
  {
    if uploads != [] {
      SumMinus(uploads[..|uploads| - 1], f, g, h);
    }
  }

  /** The margin falls short of the slack by exactly the unacknowledged bytes. */
  lemma MarginIs(d: Disk)
    ensures Margin(d) == Slack(d) - Sum(d.uploads, Unacknowledged)
  {
    // Claim - Acknowledged = Pending, and File - Acknowledged = Unacknowledged
    SumMinus(d.uploads, Claim, Acknowledged, Pending);
    SumMinus(d.uploads, File, Acknowledged, Unacknowledged);
  }

  // ------------------------------------------------------------------ admission

  function Need(size: nat): int {
    size * 2 + OVERHEAD
  }

  /** The check inside the transaction; `available` was read before it (apps/server/src/content-upload.ts:174-187). */
  predicate Admits(available: int, d: Disk, size: nat) {
    available - Reserved(d) >= Need(size) + RESERVE
  }

  function Admit(d: Disk, size: nat): Disk {
    d.(uploads := d.uploads + [Upload(size, 0, false, 0, 0)])
  }

  lemma AdmitSlack(d: Disk, size: nat)
    ensures Slack(Admit(d, size)) == Slack(d) - Need(size)
  {
    var all := Admit(d, size).uploads;
    assert all[..|all| - 1] == d.uploads;
  }

  /**
   The free space is read at `before`, the transaction runs at `now`. Admitted
   uploads leave the reserve exactly when the surplus of the check covers what
   was acknowledged by now but not yet on disk when the space was read.
   */
  lemma AdmissionIff(before: Disk, now: Disk, size: nat)
    requires before.total == now.total && Admits(Free(before), now, size)
    ensures Slack(Admit(now, size)) >= 67108864 <==>
            Free(before) - Reserved(now) - (2 * size + 29) - 67108864
            >= Sum(now.uploads, Acknowledged) - Sum(before.uploads, File) - Sum(before.uploads, Encrypted)
  {
    AdmitSlack(now, size);
    SumMinus(now.uploads, Claim, Acknowledged, Pending);
  }

  /** Nothing acknowledged in between: the reserve is left. */
  lemma AdmissionLeavesReserve(d: Disk, size: nat)
    requires Admits(Free(d), d, size) && AcknowledgedOnDisk(d.uploads)
    ensures Slack(Admit(d, size)) >= 67108864
  {
    AdmissionIff(d, d, size);
    OnDisk(d.uploads);
  }

  /** What is acknowledged has been written. */
  ghost predicate AcknowledgedOnDisk(uploads: seq<Upload>) {
    forall u :: u in uploads && !u.complete ==> u.offset <= u.file
  }

  lemma {:induction false} OnDisk(uploads: seq<Upload>)
    requires AcknowledgedOnDisk(uploads)
    ensures Sum(uploads, Acknowledged) <= Sum(uploads, File) + Sum(uploads, Encrypted)
  {
    if uploads != [] {
      assert uploads[|uploads| - 1] in uploads;
      OnDisk(uploads[..|uploads| - 1]);
    }
  }

  /** A chunk acknowledged between the two readings: the upload is admitted although the reserve is not left. */
  lemma StaleReading()
    ensures var chunk := 262144;
      var u := Upload(chunk, 0, false, 0, 0);
      var before := Disk(2 * Need(chunk) + RESERVE - chunk, [u]);
      var now := before.(uploads := [u.(offset := chunk, file := chunk)]);
      && Slack(before) >= RESERVE
      && Admits(Free(before), now, chunk) && Slack(Admit(now, chunk)) < RESERVE
  {
    var chunk := 262144;
    var u := Upload(chunk, 0, false, 0, 0);
    var v := u.(offset := chunk, file := chunk);
    var before := Disk(2 * Need(chunk) + RESERVE - chunk, [u]);
    var now := before.(uploads := [v]);
    One(u);
    One(v);
    AdmitSlack(now, chunk);
  }

  lemma One(u: Upload)
    ensures forall f: Upload -> int :: Sum([u], f) == f(u)
  {
    assert [u][..0] == [];
  }

  // -------------------------------------------------------------- later steps

  /** `Begin` runs the transaction of an admission on the free space it has read. */
  datatype Step =
    | Begin(size: nat, available: int)
    | WriteBytes(i: nat, count: nat)
    | Acknowledge(i: nat)
    | Fall(i: nat, offset: nat)       // recovery settles on a smaller verified offset
    | Truncate(i: nat)
    | WriteEncrypted(i: nat, count: nat)
    | DropEncrypted(i: nat)
    | Complete(i: nat)
    | Unlink(i: nat)
    | Expire(i: nat)

  /** Completion has read back a staging file of exactly the declared size. */
  predicate Possible(d: Disk, step: Step) {
    if step.Begin? then Admits(step.available, d, step.size)
    else
      && step.i < |d.uploads|
      && var u := d.uploads[step.i];
         match step
         case WriteBytes(_, _) => !u.complete
         case Acknowledge(_) => !u.complete && u.file <= u.size
         case Fall(_, offset) => !u.complete && offset <= u.offset
         case Truncate(_) => !u.complete
         case Complete(_) => !u.complete && u.file == u.size && u.offset == u.size
         case Unlink(_) => u.complete
         case _ => true
  }

  function Changed(u: Upload, step: Step): Upload {
    match step
    case Begin(_, _) => u
    case WriteBytes(_, count) => u.(file := u.file + count)
    case Acknowledge(_) => u.(offset := u.file)
    case Fall(_, offset) => u.(offset := offset)
    case Truncate(_) => u.(file := u.offset)
    case WriteEncrypted(_, count) => u.(encrypted := u.encrypted + count)
    case DropEncrypted(_) => u.(encrypted := 0)
    case Complete(_) => u.(complete := true)
    case Unlink(_) => u.(file := 0)
    case Expire(_) => Upload(u.size, u.offset, true, 0, 0)
  }

  function Next(d: Disk, step: Step): Disk {
    if !Possible(d, step) then d
    else if step.Begin? then Admit(d, step.size)
    else d.(uploads := d.uploads[step.i := Changed(d.uploads[step.i], step)])
  }

  function Run(d: Disk, steps: seq<Step>): Disk {
    if steps == [] then d else Next(Run(d, steps[..|steps| - 1]), steps[|steps| - 1])
  }

  /** No step of an admitted upload takes from the slack: only admission does. */
  lemma SlackStep(d: Disk, step: Step)
    requires !step.Begin?
    ensures Slack(Next(d, step)) >= Slack(d)
  {
    if Possible(d, step) {
      SumUpdate(d.uploads, step.i, Changed(d.uploads[step.i], step), Claim);
    }
  }

  /** An admission has read no more free space than there is when its transaction runs. */
  ghost predicate CurrentReading(d: Disk, step: Step) {
    step.Begin? ==> step.available <= Free(d)
  }

  ghost predicate Always(d: Disk, steps: seq<Step>, p: (Disk, Step) -> bool) {
    forall k :: 0 <= k < |steps| ==> p(Run(d, steps[..k]), steps[k])
  }

  lemma AlwaysInit(d: Disk, steps: seq<Step>, p: (Disk, Step) -> bool)
    requires Always(d, steps, p) && steps != []
    ensures Always(d, steps[..|steps| - 1], p) && p(Run(d, steps[..|steps| - 1]), steps[|steps| - 1])
  {
    var init := steps[..|steps| - 1];
    assert forall k :: 0 <= k < |init| ==> init[..k] == steps[..k] && init[k] == steps[k];
  }

  lemma ReserveStep(d: Disk, step: Step)
    requires Slack(d) >= RESERVE && AcknowledgedOnDisk(d.uploads) && CurrentReading(d, step)
    ensures Slack(Next(d, step)) >= RESERVE && AcknowledgedOnDisk(Next(d, step).uploads)
  {
    if step.Begin? {
      if Possible(d, step) {
        AdmissionLeavesReserve(d, step.size);
      }
    } else {
      SlackStep(d, step);
      if Possible(d, step) {
        var u := Changed(d.uploads[step.i], step);
        assert d.uploads[step.i] in d.uploads;
        assert !u.complete ==> u.offset <= u.file;
      }
    }
  }

  /**
   Through any admissions, chunks, crashes, recoveries, completions and
   expiries the margin is at least the reserve less the bytes still
   unacknowledged, as long as no admission has read more free space than there
   is when its transaction runs.
   */
  lemma {:induction false} MarginKept(d: Disk, steps: seq<Step>)
    requires Slack(d) >= RESERVE && AcknowledgedOnDisk(d.uploads) && Always(d, steps, CurrentReading)
    ensures Margin(Run(d, steps)) >= RESERVE - Sum(Run(d, steps).uploads, Unacknowledged)
    ensures Slack(Run(d, steps)) >= RESERVE && AcknowledgedOnDisk(Run(d, steps).uploads)
  {
    if steps != [] {
      AlwaysInit(d, steps, CurrentReading);
      MarginKept(d, steps[..|steps| - 1]);
      ReserveStep(Run(d, steps[..|steps| - 1]), steps[|steps| - 1]);
    }
    MarginIs(Run(d, steps));
  }

  /** Between writing a chunk and acknowledging it the margin is below the reserve, however much was free before. */
  lemma UnacknowledgedChunk(d: Disk, i: nat, count: nat)
    requires i < |d.uploads| && !d.uploads[i].complete && d.uploads[i].file + count <= d.uploads[i].size
    ensures Margin(Run(d, [WriteBytes(i, count)])) == Margin(d) - count
    ensures d.uploads[i].offset == d.uploads[i].file ==> Margin(Run(d, [WriteBytes(i, count), Acknowledge(i)])) == Margin(d)
  {
    RunOneTwo(d, WriteBytes(i, count), Acknowledge(i));
    var one := Next(d, WriteBytes(i, count));
    var u := d.uploads[i];
    Updated(d, i, Changed(u, WriteBytes(i, count)));
    Updated(one, i, Changed(Changed(u, WriteBytes(i, count)), Acknowledge(i)));
  }

  lemma RunOneTwo(d: Disk, a: Step, b: Step)
    ensures Run(d, [a]) == Next(d, a)
    ensures Run(d, [a, b]) == Next(Next(d, a), b)
  {
    assert [a][..0] == [] && [a, b][..1] == [a];
  }

  lemma Updated(d: Disk, i: nat, u: Upload)
    requires i < |d.uploads|
    ensures var after := d.(uploads := d.uploads[i := u]);
      Margin(after) == Margin(d) - File(u) + File(d.uploads[i]) - Pending(u) + Pending(d.uploads[i])
  {
    SumUpdate(d.uploads, i, u, File);
    SumUpdate(d.uploads, i, u, Pending);
  }

  /**
   An encrypted copy left behind by a crash still takes space: counting only
   the copy in flight, the margin drops below the reserve.
   */
  lemma OrphanedCopy()
    ensures var u := Upload(10, 10, false, 10, 0);
      var d := Disk(Need(10) + RESERVE, [u]);
      var crashed := Run(d, [WriteEncrypted(0, 39)]);
      && Slack(d) == RESERVE && Margin(d) == RESERVE
      && Margin(crashed) == RESERVE && Free(crashed) - Reserved(crashed) < RESERVE
  {
    var u := Upload(10, 10, false, 10, 0);
    var d := Disk(Need(10) + RESERVE, [u]);
    RunOneTwo(d, WriteEncrypted(0, 39), DropEncrypted(0));
    var crashed := Next(d, WriteEncrypted(0, 39));
    assert crashed.uploads == [u.(encrypted := 39)];
    One(u);
    One(u.(encrypted := 39));
  }
}
