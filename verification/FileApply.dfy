/**
 Applying one accepted path to the vault (plugin/src/engine.ts:846-973,
 1086-1129). Every file operation may succeed, throw or be cut short by a
 crash, a copy may leave part of its bytes behind, and an editor may write
 between any two steps. Hashes are the bytes themselves.
 */
module FileApply {
  import opened Wrappers
  import opened Environment
  import opened Ledger

  datatype Phase = Planned | Staged | BackedUp | Promoting | Applied

  /** The journal file of an operation. */
  datatype Record = Absent | Torn | Written(phase: Phase)

  /** The private files of an operation. */
  datatype OpFiles = OpFiles(stage: Option<Bytes>, backup: Option<Bytes>, record: Record)

  /** What the settings remember of the operation at hand. */
  datatype Memory = Memory(priorHash: Option<Bytes>, phase: Phase)

  /** How a path leaves a resumed application: at its target, or with an edit in place. */
  datatype Outcome = Landed | Preserved(edit: Bytes) {
    function Edited(): Bytes {
      if Preserved? then edit else []
    }
  }

  type Ops = map<Option<Bytes>, OpFiles>

  function FilesOf(ops: Ops, k: Option<Bytes>): OpFiles {
    if k in ops then ops[k] else OpFiles(None, None, Absent)
  }

  function Backups(ops: Ops): (r: set<Bytes>)
    ensures forall b :: b in r <==> exists k :: k in ops && ops[k].backup == Some(b)
  {
    set k | k in ops && ops[k].backup.Some? :: ops[k].backup.value
  }

  ghost predicate SameBackups(a: Ops, b: Ops) {
    forall k: Option<Bytes> :: FilesOf(a, k).backup == FilesOf(b, k).backup
  }

  ghost predicate OthersKept(a: Ops, b: Ops, k: Option<Bytes>) {
    forall other: Option<Bytes> :: other != k ==> FilesOf(a, other) == FilesOf(b, other)
  }

  lemma BackupsUpdated(ops: Ops, k: Option<Bytes>, f: OpFiles)
    ensures f.backup == FilesOf(ops, k).backup ==> Backups(ops[k := f]) == Backups(ops)
    ensures f.backup.Some? ==> f.backup.value in Backups(ops[k := f])
    ensures forall b :: b in Backups(ops) && FilesOf(ops, k).backup != Some(b) ==> b in Backups(ops[k := f])
    ensures forall b :: b in Backups(ops[k := f]) ==> b in Backups(ops) || f.backup == Some(b)
  {
    var after := ops[k := f];
    assert after[k] == f;
    forall b | b in Backups(ops) && (FilesOf(ops, k).backup != Some(b) || f.backup == FilesOf(ops, k).backup)
      ensures b in Backups(after)
    {
      var j :| j in ops && ops[j].backup == Some(b);
      assert j in after;
    }
    forall b | b in Backups(after)
      ensures b in Backups(ops) || f.backup == Some(b)
    {
      var j :| j in after && after[j].backup == Some(b);
    }
    if f.backup == FilesOf(ops, k).backup {
      assert Backups(after) == Backups(ops);
    }
  }

  // --------------------------------------------------------------- decisions

  datatype Boundary = Pass | Hold | Return

  /** What `recoverOperationBoundary` decides from the journal and the files it finds. */
  function Judge(found: Option<Phase>, current: Option<Bytes>, backup: Option<Bytes>, target: Option<Bytes>, prior: Option<Bytes>): Boundary {
    if found.None? then Pass
    else if backup.Some? && backup != prior then Hold
    else if found == Some(Promoting) && current.Some? && current != target && current != prior then Hold
    else if current.None? && backup.Some? && target.Some? then Return
    else Pass
  }

  /** The operation has a whole journal, and no backup but of the bytes it is named after. */
  predicate Clear(ops: Ops, k: Option<Bytes>) {
    var f := FilesOf(ops, k);
    f.record != Torn && (f.backup.None? || f.backup == k)
  }

  /** What stands at the path once a vacant one is refilled from the backup. */
  function Refilled(live: Option<Bytes>, backup: Option<Bytes>): Option<Bytes> {
    if live.None? then backup else live
  }

  datatype Action = Nothing | KeepEdit | Replace | Remove

  /** What the loop of `resumePendingApplication` does with the bytes it then sees. */
  function Choose(bytes: Option<Bytes>, target: Option<Bytes>, prior: Option<Bytes>): Action {
    if bytes == target then Nothing
    else if bytes.Some? && bytes != prior then KeepEdit
    else if target.Some? then Replace
    else Remove
  }

  /**
   Bytes that are neither target nor prior, beside an intact or absent backup,
   are kept as an edit exactly when the journal consulted does not say that a
   copy was under way.
   */
  lemma KeptAsEditIff(found: Option<Phase>, current: Option<Bytes>, backup: Option<Bytes>, target: Option<Bytes>, prior: Option<Bytes>)
    requires current.Some? && current != target && current != prior && (backup.None? || backup == prior)
    ensures Judge(found, current, backup, target, prior).Pass? && Choose(current, target, prior).KeepEdit?
            <==> found != Some(Promoting)
  {
  }

  // ------------------------------------------------------------- what stands where

  /** A failed call left bytes that are neither target nor prior. */
  ghost predicate CutShort(adapter: Adapter, from: nat, end: nat, target: Option<Bytes>, prior: Option<Bytes>) {
    exists c :: from <= c < end && adapter(c).end.Failed? && adapter(c).left.Some? && adapter(c).left != target && adapter(c).left != prior
  }

  /** Of the calls at most one has gone wrong. */
  ghost predicate OneFails(adapter: Adapter, from: nat, end: nat) {
    forall c, d :: from <= c < d < end ==> adapter(c).Succeeds() || adapter(d).Succeeds()
  }

  lemma RestSmooth(adapter: Adapter, from: nat, mid: nat, end: nat)
    requires OneFails(adapter, from, end) && from <= mid <= end && !Smooth(adapter, from, mid)
    ensures Smooth(adapter, mid, end)
  {
  }

  /** The target has arrived, or what a failed call has left of a copy. */
  ghost predicate Arrived(adapter: Adapter, from: nat, end: nat, live: Option<Bytes>, target: Option<Bytes>) {
    live.Some? && (live == target || exists c :: from <= c < end && adapter(c).left == live)
  }

  lemma ArrivedLater(adapter: Adapter, from: nat, mid: nat, later: nat, end: nat, live: Option<Bytes>, target: Option<Bytes>)
    requires Arrived(adapter, mid, later, live, target) && from <= mid && later <= end
    ensures Arrived(adapter, from, end, live, target)
  {
    if live != target {
      var c :| mid <= c < later && adapter(c).left == live;
    }
  }

  /** The bytes are the user's, or those of the target or the prior version. */
  ghost predicate Known(owed: set<Bytes>, target: Option<Bytes>, prior: Option<Bytes>, found: set<Bytes>) {
    forall b :: b in found ==> b in owed || Some(b) == target || Some(b) == prior
  }

  /** An unfinished copy at the path is announced by the journal of the operation that made it. */
  ghost predicate Announced(maker: Option<Option<Bytes>>, live: Option<Bytes>, ops: Ops, target: Option<Bytes>, prior: Option<Bytes>) {
    maker.Some? ==>
      && live.Some? && live != target && live != prior
      && (maker.value == prior || maker.value == None)
      && (FilesOf(ops, maker.value).record == Torn || FilesOf(ops, maker.value).record == Written(Promoting))
  }

  /** What the editor has written is known. */
  lemma EditKnown(editor: Editor, a: Account, target: Option<Bytes>, prior: Option<Bytes>, backups: set<Bytes>)
    requires Known(a.owed, target, prior, backups) && backups <= a.saved
    ensures var b := Do(editor, a, Edit);
      && Known(b.owed, target, prior, backups)
      && (editor(a.clock).Some? ==> Known(b.owed, target, prior, BytesOf(b.live)))
      && (editor(a.clock).None? && Known(a.owed, target, prior, BytesOf(a.live)) ==> Known(b.owed, target, prior, BytesOf(b.live)))
  {
  }

  /** The backup of `k` becomes a recovery copy. */
  lemma ArchiveStep(ops: Ops, k: Option<Bytes>, recovery: set<Bytes>, owed: set<Bytes>, maker: Option<Option<Bytes>>,
                    live: Option<Bytes>, target: Option<Bytes>, prior: Option<Bytes>)
    requires FilesOf(ops, k).backup.Some? && Known(owed, target, prior, Backups(ops)) && Announced(maker, live, ops, target, prior)
    ensures var after := ops[k := FilesOf(ops, k).(backup := None)];
      && recovery + {FilesOf(ops, k).backup.value} + Backups(after) == recovery + Backups(ops)
      && Known(owed, target, prior, Backups(after)) && Announced(maker, live, after, target, prior)
      && OthersKept(ops, after, k) && FilesOf(after, k) == FilesOf(ops, k).(backup := None)
  {
    BackupsUpdated(ops, k, FilesOf(ops, k).(backup := None));
  }

  /** A copy onto a vacant path, whole or in part. */
  lemma CopyStep(owed: set<Bytes>, k: Option<Bytes>, source: Bytes, after: Option<Bytes>, ops: Ops, target: Option<Bytes>, prior: Option<Bytes>)
    requires Known(owed, target, prior, Backups(ops)) && (Some(source) == target || source in Backups(ops))
    requires (k == prior || k == None) && FilesOf(ops, k).record == Written(Promoting)
    ensures var whole := after.None? || after == Some(source) || after == target || after == prior;
      Announced(if whole then None else Some(k), after, ops, target, prior) && (whole ==> Known(owed, target, prior, BytesOf(after)))
  {
  }

  lemma BackupListed(ops: Ops, k: Option<Bytes>)
    requires FilesOf(ops, k).backup.Some?
    ensures FilesOf(ops, k).backup.value in Backups(ops)
  {
  }

  lemma OtherKept(a: Ops, b: Ops, k: Option<Bytes>, other: Option<Bytes>)
    requires OthersKept(a, b, k) && other != k
    ensures FilesOf(b, other) == FilesOf(a, other)
  {
  }

  lemma OtherFiles(ops: Ops, k: Option<Bytes>, other: Option<Bytes>, f: OpFiles)
    requires other != k
    ensures FilesOf(ops[k := f], other) == FilesOf(ops, other)
  {
  }

  lemma BackupsAlike(ops: Ops, k: Option<Bytes>)
    ensures SameBackups(ops, ops) && OthersKept(ops, ops, k)
  {
  }

  lemma NothingAnnounced(live: Option<Bytes>, ops: Ops, target: Option<Bytes>, prior: Option<Bytes>)
    ensures Announced(None, live, ops, target, prior)
  {
  }

  class PathApply {
    /** What the accepted snapshot wants at the path, and what was there when it was accepted. */
    const target: Option<Bytes>
    const prior: Option<Bytes>
    const editor: Editor
    const adapter: Adapter

    var live: Option<Bytes>
    /** Private files are named after the prior hash an operation was recorded with. */
    var ops: map<Option<Bytes>, OpFiles>
    var recovery: set<Bytes>
    var memory: Option<Memory>
    var baseRecorded: bool

    /** Instants of the editor and calls of the adapter so far. */
    var clock: nat
    var calls: nat

    ghost var owed: set<Bytes>
    ghost var taken: map<nat, Bytes>
    ghost var adopted: set<Bytes>
    /** The operation whose unfinished copy stands at the path. */
    ghost var maker: Option<Option<Bytes>>

    constructor (target: Option<Bytes>, prior: Option<Bytes>, live: Option<Bytes>, editor: Editor, adapter: Adapter)
      ensures Safe() && this.target == target && this.prior == prior && this.live == live
      ensures this.editor == editor && this.adapter == adapter && clock == calls == 0
      ensures ops == map[] && memory.None? && maker.None? && adopted == {}
      ensures owed == BytesOf(live)
    {
      this.target, this.prior, this.live, this.editor, this.adapter := target, prior, live, editor, adapter;
      ops, recovery, memory, baseRecorded, clock, calls := map[], {}, None, false, 0, 0;
      owed := BytesOf(live);
      maker, taken, adopted := None, map[], {};
    }

    function Files(k: Option<Bytes>): OpFiles
      reads this`ops
    {
      FilesOf(ops, k)
    }

    /** Bytes out of the editor's reach: backups and recovery copies. */
    ghost function Saved(): set<Bytes>
      reads this`ops, this`recovery
    {
      recovery + Backups(ops)
    }

    ghost function Books(): (r: Account)
      reads this`clock, this`live, this`owed, this`taken, this`adopted, this`ops, this`recovery
      ensures r.clock == clock
    {
      Account(clock, live, Saved(), owed, taken, adopted, {})
    }

    /**
     Everything owed to the user is at the path or saved. What stands at the
     path is known, or an unfinished copy that the journal of the operation that
     made it announces.
     */
    ghost predicate Safe()
      reads this`live, this`ops, this`recovery, this`clock, this`owed, this`taken, this`adopted, this`maker
    {
      && Held(editor, Books())
      && FilesOf(ops, None).backup.None?
      && Known(owed, target, prior, Backups(ops))
      && (maker.None? ==> Known(owed, target, prior, BytesOf(live)))
      && Announced(maker, live, ops, target, prior)
    }

    lemma SafeFacts()
      requires Safe()
      ensures maker.Some? ==>
                && live.Some? && live != target && live != prior && (maker.value == prior || maker.value == None)
                && (Files(maker.value).record == Torn || Files(maker.value).record == Written(Promoting))
      ensures maker.None? && live.Some? && live != target && live != prior ==> live.value in owed
      ensures Genuine(None)
    {
    }

    /** Meanwhile the editor has left the path alone and every call has succeeded. */
    twostate predicate Undisturbed()
      reads this`clock, this`calls
    {
      Quiet(editor, old(clock), clock) && Smooth(adapter, old(calls), calls)
    }

    /** How a failed replacement leaves a path nobody has written to: as it was, vacant beside the backup, or with what has arrived. */
    ghost predicate BrokenOff(k: Option<Bytes>, from: nat)
      reads this`live, this`ops, this`calls
    {
      live == k || (live.None? && Files(k).backup == k) || Arrived(adapter, from, calls, live, target)
    }

    /** One instant of the editor later, nothing but what he has done then has happened to the path. */
    ghost predicate UnchangedBut(before: Option<Bytes>, instant: nat)
      reads this`live, this`clock
    {
      clock == instant + 1 && live == AfterEdit(editor(instant), before)
    }

    /** From now on the editor leaves the path alone, and every call succeeds. */
    ghost predicate AtPeace()
      reads this`clock, this`calls
    {
      (forall n :: n >= clock ==> editor(n).None?) && forall c :: c >= calls ==> adapter(c).Succeeds()
    }

    /** The backup of `k`, if there is one, holds the bytes it is named after. */
    predicate Genuine(k: Option<Bytes>)
      reads this`ops
    {
      Files(k).backup.None? || Files(k).backup == k
    }

    /** Every step keeps what is safe and the account honest. */
    twostate predicate Kept()
      reads this
    {
      Safe() && Honest(editor, old(Books()), Books())
    }

    /** Nothing but the accepted prior version has been moved out of the editor's reach. */
    twostate predicate OnlyPriorMoved(k: Option<Bytes>)
      reads this
    {
      Saved() <= old(Saved()) + if k.Some? then {k.value} else {}
    }

    /** The editor's next instant. What he does away with is his own affair. */
    method Interfere()
      requires Safe()
      modifies `live, `owed, `taken, `maker, `clock
      ensures Kept() && clock == old(clock) + 1 && live == AfterEdit(editor(old(clock)), old(live))
      ensures editor(old(clock)).None? ==> maker == old(maker) && owed == old(owed)
      ensures editor(old(clock)).Some? ==> maker.None?
    {
      hide Held, Known, Announced, Honest;
      ghost var after := Do(editor, Books(), Edit);
      OneAct(editor, Books(), Edit);
      OneLosesNothing(editor, Books(), Edit);
      EditKnown(editor, Books(), target, prior, Backups(ops));
      var edit := editor(clock);
      if edit.Some? {
        NothingAnnounced(edit.value, ops, target, prior);
        live, maker := edit.value, None;
      }
      owed, taken := after.owed, after.taken;
      clock := clock + 1;
      assert Books() == after;
    }

    /** A copy onto the vacant path, if it has left anything, is an honest act. */
    lemma PutStep(after: Option<Bytes>)
      requires Held(editor, Books()) && live.None?
      ensures Held(editor, Books().(live := after)) && Honest(editor, Books(), Books().(live := after))
    {
      HonestFrom(editor, Books());
      if after.Some? {
        OneAct(editor, Books(), Put(after.value));
      }
    }

    method Attempt() returns (s: Step, f: Fate)
      modifies `calls
      ensures f == adapter(old(calls)) && s == f.end && calls == old(calls) + 1
    {
      f := adapter(calls);
      s, calls := f.end, calls + 1;
    }

    /** `savedHash` of the path. */
    method Look() returns (s: Step, bytes: Option<Bytes>)
      requires Safe()
      modifies `live, `owed, `taken, `maker, `clock, `calls
      ensures Kept() && bytes == live && live == AfterEdit(editor(old(clock)), old(live))
      ensures clock == old(clock) + 1 && calls == old(calls) + 1 && s == adapter(old(calls)).end
      ensures editor(old(clock)).None? ==> maker == old(maker)
      ensures editor(old(clock)).Some? ==> maker.None?
    {
      Interfere();
      bytes := live;
      var fate;
      s, fate := Attempt();
    }

    // ------------------------------------------------------------ private files

    method SetFiles(k: Option<Bytes>, f: OpFiles)
      requires Safe() && f.backup == Files(k).backup
      requires maker == Some(k) ==> f.record == Files(k).record
      modifies `ops
      ensures Safe() && Books() == old(Books()) && ops == old(ops)[k := f] && Saved() == old(Saved()) && Files(k) == f
    {
      BackupsUpdated(ops, k, f);
      ops := ops[k := f];
    }

    /** `writeBinary` or `appendBinary` of the stage: anything may be left unless it succeeds, even where it reports that it has. */
    method WriteStage(k: Option<Bytes>, bytes: Bytes) returns (s: Step)
      requires Safe()
      modifies `ops, `calls
      ensures Safe() && Books() == old(Books()) && Saved() == old(Saved()) && calls == old(calls) + 1 && s == adapter(old(calls)).end
      ensures OthersKept(old(ops), ops, k) && Files(k) == old(Files(k)).(stage := Files(k).stage)
      ensures adapter(old(calls)).Succeeds() ==> Files(k).stage == Some(bytes)
    {
      var f;
      s, f := Attempt();
      SetFiles(k, Files(k).(stage := if f.Succeeds() then Some(bytes) else f.left));
    }

    /** `persistOperation`: the record may be torn unless the write succeeds. */
    method Persist(k: Option<Bytes>, phase: Phase) returns (s: Step)
      requires Safe() && maker.None?
      modifies `ops, `memory, `calls
      ensures Safe() && Books() == old(Books()) && Saved() == old(Saved()) && calls == old(calls) + 1 && s == adapter(old(calls)).end
      ensures SameBackups(old(ops), ops) && memory == Some(Memory(k, phase))
      ensures OthersKept(old(ops), ops, k) && Files(k) == old(Files(k)).(record := Files(k).record)
      ensures s.Done? ==> Files(k).record == Written(phase)
    {
      memory := Some(Memory(k, phase));
      var f;
      s, f := Attempt();
      if s.Done? {
        SetFiles(k, Files(k).(record := Written(phase)));
      } else if f.happens {
        SetFiles(k, Files(k).(record := Torn));
      }
    }

    // --------------------------------------------------------------- the path

    /** The rename as it takes effect. */
    method TakeAside(k: Option<Bytes>)
      requires Safe() && maker.None? && k.Some? && Files(k).backup.None? && live.Some?
      modifies `live, `ops
      ensures Kept() && live.None? && OnlyPriorMoved(old(live))
      ensures ops == old(ops)[k := old(Files(k)).(backup := old(live))]
    {
      hide FilesOf, Honest;
      ghost var after := Do(editor, Books(), Take({}));
      OneAct(editor, Books(), Take({}));
      BackupsUpdated(ops, k, Files(k).(backup := live));
      OtherFiles(ops, k, None, Files(k).(backup := live));
      ops := ops[k := Files(k).(backup := live)];
      live := None;
      assert Saved() == after.saved && Books() == after;
    }

    /** `rename` of the path to the backup is atomic; it may take effect and still be reported as failed. */
    method MoveAside(k: Option<Bytes>) returns (s: Step)
      requires Safe() && maker.None? && k.Some? && Files(k).backup.None?
      modifies `live, `ops, `owed, `taken, `maker, `clock, `calls
      ensures Kept() && maker.None? && calls >= old(calls)
      ensures OthersKept(old(ops), ops, k) && Files(k) == old(Files(k)).(backup := Files(k).backup)
      ensures s.Done? ==> live.None? && Files(k).backup.Some? && OnlyPriorMoved(Files(k).backup)
      ensures if Files(k).backup.Some? then live.None? && Files(k).backup == AfterEdit(editor(old(clock)), old(live)) else live == AfterEdit(editor(old(clock)), old(live))
      ensures calls > old(calls) && clock == old(clock) + 1 && (Undisturbed() ==> (s.Done? <==> old(live).Some?))
    {
      hide Honest, Held, Known, Announced, Backups;
      HonestFrom(editor, Books());
      Interfere();
      var f;
      s, f := Attempt();
      if live.None? {
        s := if s.Crashed? then Crashed else Failed;
      } else if s.Done? || f.happens {
        TakeAside(k);
      }
    }

    /**
     `copy` onto the path leaves an occupied path alone and fails. Otherwise it
     may stop half-way, and then part of the bytes may stay at the path.
     */
    method CopyToPath(k: Option<Bytes>, source: Bytes) returns (s: Step)
      requires Safe() && maker.None? && (k == prior || k == None) && Files(k).record == Written(Promoting)
      requires Some(source) == target || source in Backups(ops)
      modifies `live, `owed, `taken, `maker, `clock, `calls
      ensures Kept() && (maker.Some? ==> maker == Some(k) && !s.Done?) && calls >= old(calls) && clock == old(clock) + 1
      ensures var seen := AfterEdit(editor(old(clock)), old(live)); seen.Some? ==> s.Failed? && live == seen && maker.None?
      ensures var seen := AfterEdit(editor(old(clock)), old(live)); seen.None? ==>
                calls == old(calls) + 1 && s == adapter(old(calls)).end &&
                live == (if s.Done? then Some(source) else adapter(old(calls)).left)
      ensures s.Done? ==> live == Some(source)
      ensures maker.Some? <==>
              AfterEdit(editor(old(clock)), old(live)).None? && !s.Done? && live.Some? && live != Some(source) && live != target && live != prior
    {
      hide Held, Known, Announced, Honest, FilesOf;
      HonestFrom(editor, Books());
      Interfere();
      if live.Some? {
        s := Failed;
        return;
      }
      var f;
      s, f := Attempt();
      ghost var after := if s.Done? then Some(source) else f.left;
      CopyStep(owed, k, source, after, ops, target, prior);
      PutStep(after);
      if s.Done? {
        live := Some(source);
      } else {
        live := f.left;
        if live.Some? && live != Some(source) && live != target && live != prior {
          maker := Some(k);
        }
      }
    }

    /** `archiveOperationBackup`: a verified backup moves to its recovery name. */
    method Archive(k: Option<Bytes>) returns (s: Step)
      requires Safe() && Files(k).backup.Some?
      modifies `ops, `recovery, `calls
      ensures Kept() && Saved() == old(Saved()) && calls >= old(calls)
      ensures OthersKept(old(ops), ops, k) && Files(k) == old(Files(k)).(backup := Files(k).backup)
      ensures s.Done? ==> Files(k).backup.None?
      ensures clock == old(clock) && (s.Done? ==> old(Genuine(k)))
      ensures old(Genuine(k)) && Smooth(adapter, old(calls), calls) ==> s.Done?
    {
      hide Held, Known, Announced, Honest, FilesOf;
      HonestFrom(editor, Books());
      if Files(k).backup != k {
        return Failed;
      }
      var f;
      s, f := Attempt();
      if s.Done? || f.happens {
        ArchiveStep(ops, k, recovery, owed, maker, live, target, prior);
        recovery := recovery + {Files(k).backup.value};
        ops := ops[k := Files(k).(backup := None)];
      }
    }

    method AssertLocalUnchanged(expected: Option<Bytes>) returns (s: Step)
      requires Safe()
      modifies `live, `owed, `taken, `maker, `clock, `calls
      ensures Kept() && (old(maker).None? ==> maker.None?) && calls == old(calls) + 1
      ensures live == AfterEdit(editor(old(clock)), old(live)) && clock == old(clock) + 1
      ensures s.Done? <==> live == expected && adapter(old(calls)).end.Done?
    {
      var bytes :- Look();
      return if bytes == expected then Done else Failed;
    }

    // -------------------------------------------------------------- operations

    /** The phase of the operation under `k`: what its journal says, or else what the settings remember. */
    function PhaseOf(k: Option<Bytes>): Option<Phase>
      reads this`ops, this`memory
    {
      match Files(k).record
      case Written(phase) => Some(phase)
      case _ => if memory.Some? && memory.value.priorHash == k then Some(memory.value.phase) else None
    }

    /** `loadOperation`: a torn record holds the path. */
    method LoadOperation(k: Option<Bytes>) returns (s: Step, found: Option<Phase>)
      requires Safe()
      modifies `memory, `calls
      ensures Safe() && calls == old(calls) + 1
      ensures s == if adapter(old(calls)).end.Done? && Files(k).record == Torn then Failed else adapter(old(calls)).end
      ensures s.Done? ==> found == old(PhaseOf(k))
      ensures memory == old(memory) || (s.Done? && found.Some? && memory.Some? && memory.value.priorHash == k)
      ensures s.Done? && found.Some? ==> memory.Some? && memory.value.priorHash == k
    {
      found := None;
      var fate;
      s, fate := Attempt();
      if s.Done? {
        match Files(k).record
        case Torn => s := Failed;
        case Absent =>
          if memory.Some? && memory.value.priorHash == k {
            found := Some(memory.value.phase);
          }
        case Written(phase) =>
          memory, found := Some(Memory(k, phase)), Some(phase);
      }
    }

    method OperationFor(k: Option<Bytes>) returns (s: Step)
      requires Safe() && maker.None?
      modifies `ops, `memory, `calls
      ensures Kept() && Saved() == old(Saved()) && calls >= old(calls)
      ensures SameBackups(old(ops), ops) && Files(k).backup == old(Files(k)).backup
      ensures s.Done? ==> Files(k).record.Written? || (memory.Some? && memory.value.priorHash == k)
      ensures Smooth(adapter, old(calls), calls) ==> (s.Done? <==> old(Files(k)).record != Torn)
    {
      hide Honest;
      HonestFrom(editor, Books());
      var found :- LoadOperation(k);
      if found.None? {
        s := Persist(k, Planned);
      } else {
        s := Done;
      }
    }

    /** The copy from the backup onto the vacant path. */
    method Refill(k: Option<Bytes>) returns (s: Step, ghost halved: bool)
      requires Safe() && (k == prior || k == None) && maker.None? && live.None? && Files(k).backup.Some?
      modifies `live, `ops, `memory, `owed, `taken, `maker, `clock, `calls
      ensures Kept() && Saved() == old(Saved()) && calls >= old(calls)
      ensures SameBackups(old(ops), ops) && OthersKept(old(ops), ops, k) && Files(k).backup == old(Files(k)).backup
      ensures s.Done? ==> live.Some?
      ensures halved ==> maker == Some(k) && CutShort(adapter, old(calls), calls, target, prior)
      ensures s.Done? && maker.Some? ==> halved
      ensures memory == Some(Memory(k, Promoting))
      ensures Undisturbed() ==> s.Done? && live == old(Files(k)).backup && Files(k).record != Torn
    {
      hide Honest, Safe, Books, FilesOf, SameBackups, OthersKept, Backups;
      HonestFrom(editor, Books());
      halved := false;
      :- Persist(k, Promoting);
      BackupListed(ops, k);
      s := CopyToPath(k, Files(k).backup.value);
      if s.Failed? {
        var again :- Look();
        SafeFacts();
        halved := maker.Some?;
        s := if again.None? then Failed else Done;
      }
    }

    /**
     `rollbackMissingDestination`: copy the backup back to a vacant path. A
     failed copy counts as rolled back when something is at the path by then;
     `halved` tells that this something is what the copy itself left behind.
     */
    method RollBack(k: Option<Bytes>) returns (s: Step, ghost halved: bool)
      requires Safe() && (k == prior || k == None)
      modifies `live, `ops, `memory, `owed, `taken, `maker, `clock, `calls
      ensures Kept() && Saved() == old(Saved()) && calls >= old(calls)
      ensures SameBackups(old(ops), ops)
      ensures s.Done? ==> live.Some? || Files(k).backup.None?
      ensures old(Files(k)).backup.None? ==> live == old(live)
      ensures old(live).Some? && Quiet(editor, old(clock), clock) ==> live == old(live)
      ensures halved ==> maker == Some(k) && CutShort(adapter, old(calls), calls, target, prior)
      ensures s.Done? && maker.Some? ==> halved || maker == old(maker)
      ensures OthersKept(old(ops), ops, k) && Files(k).backup == old(Files(k)).backup && (Files(k).record == old(Files(k)).record || memory == Some(Memory(k, Promoting)))
      ensures memory == old(memory) || memory == Some(Memory(k, Promoting))
      ensures Undisturbed() ==> s.Done? && live == Refilled(old(live), old(Files(k)).backup)
      ensures Undisturbed() && old(Files(k)).record != Torn ==> Files(k).record != Torn
    {
      hide Honest, Safe, Books, FilesOf, SameBackups, OthersKept, Backups;
      HonestFrom(editor, Books());
      BackupsAlike(ops, k);
      halved := false;
      if Files(k).backup.None? {
        return Done, false;
      }
      SafeFacts();
      var bytes :- Look();
      SafeFacts();
      if bytes.Some? {
        return Done, false;
      }
      s, halved := Refill(k);
    }

    /** Archive an older backup, move the path aside and check what was moved. */
    method SetAside(k: Option<Bytes>) returns (s: Step)
      requires Safe() && maker.None? && k.Some?
      modifies `live, `ops, `recovery, `owed, `taken, `maker, `clock, `calls
      ensures Kept() && maker.None? && calls >= old(calls) && Files(k).stage == old(Files(k).stage)
      ensures s.Done? ==> live.None? && Files(k).backup == k && OnlyPriorMoved(k)
      ensures Undisturbed() ==> (s.Done? <==> old(live) == k && old(Genuine(k)))
      ensures old(live) == k && Quiet(editor, old(clock), clock) ==> live == k || (live.None? && Files(k).backup == k)
      ensures old(live) == k && Undisturbed() && !s.Done? ==> live == k
    {
      hide Honest, Safe, Books, FilesOf, OthersKept, Backups;
      HonestFrom(editor, Books());
      if Files(k).backup.Some? {
        :- Archive(k);
      }
      :- MoveAside(k);
      s := if Files(k).backup == k then Done else Failed;
    }

    /** `applyVerifiedStage`: on success the target stands at the path and the prior version in the backup. */
    method ApplyVerifiedStage(k: Option<Bytes>) returns (s: Step)
      requires Safe() && maker.None? && (k == prior || k == None) && target.Some?
      requires Files(k).stage == target
      modifies this
      ensures Kept() && baseRecorded == old(baseRecorded) && adopted == old(adopted) && calls >= old(calls)
      ensures s.Done? ==> live == target && maker.None? && OnlyPriorMoved(k)
      ensures s.Done? && k.Some? ==> Files(k).backup == k
      ensures s.Done? ==> memory == Some(Memory(k, Applied))
      ensures Undisturbed() ==> (s.Done? <==> old(live) == k && old(Genuine(k)))
      ensures old(live) == k && Quiet(editor, old(clock), clock) ==> BrokenOff(k, old(calls))
      ensures old(live) == k && Undisturbed() && !s.Done? ==> live == k
      ensures AfterEdit(editor(old(clock)), old(live)) != k ==> !s.Done? && Saved() == old(Saved())
      ensures Undisturbed() && old(live) != k ==> Files(k).record == Written(Staged)
    {
      hide Honest, Safe, Books, FilesOf, SameBackups, OthersKept, Backups;
      HonestFrom(editor, Books());
      :- Persist(k, Staged);
      :- AssertLocalUnchanged(k);
      if k.Some? {
        :- SetAside(k);
      }
      s := PromoteStage(k);
    }

    /** The second half of `applyVerifiedStage`: copy the stage onto the vacant path and check what is there. */
    method PromoteStage(k: Option<Bytes>) returns (s: Step)
      requires Safe() && maker.None? && (k == prior || k == None) && target.Some?
      requires Files(k).stage == target
      modifies this
      ensures Kept() && baseRecorded == old(baseRecorded) && adopted == old(adopted) && calls >= old(calls)
      ensures Saved() == old(Saved()) && Files(k).backup == old(Files(k).backup)
      ensures s.Done? ==> live == target && maker.None? && memory == Some(Memory(k, Applied))
      ensures Undisturbed() ==> (s.Done? <==> old(live).None?)
      ensures old(live).None? && Quiet(editor, old(clock), clock) ==> live.None? || Arrived(adapter, old(calls), calls, live, target)
      ensures Undisturbed() && old(live).Some? ==> Files(k).record == Written(BackedUp)
    {
      hide Honest, Safe, Books, FilesOf, SameBackups, OthersKept, Backups;
      HonestFrom(editor, Books());
      :- Persist(k, BackedUp);
      :- AssertLocalUnchanged(None);
      s := CopyStage(k);
    }

    /** The copy itself, and the look at what has arrived. */
    method CopyStage(k: Option<Bytes>) returns (s: Step)
      requires Safe() && maker.None? && (k == prior || k == None) && target.Some?
      requires Files(k).stage == target
      modifies this
      ensures Kept() && baseRecorded == old(baseRecorded) && adopted == old(adopted) && calls >= old(calls)
      ensures Saved() == old(Saved()) && Files(k).backup == old(Files(k).backup)
      ensures s.Done? ==> live == target && maker.None? && memory == Some(Memory(k, Applied))
      ensures Undisturbed() ==> (s.Done? <==> old(live).None?)
      ensures old(live).None? && Quiet(editor, old(clock), clock) ==> live.None? || Arrived(adapter, old(calls), calls, live, target)
    {
      hide Honest, Safe, Books, FilesOf, SameBackups, OthersKept, Backups;
      HonestFrom(editor, Books());
      :- Persist(k, Promoting);
      :- CopyToPath(k, Files(k).stage.value);
      var now :- Look();
      if now != target {
        return Failed;
      }
      s := Persist(k, Applied);
    }

    /** Stage the target, check it, promote it. */
    method StageAndApply(k: Option<Bytes>, bytes: Bytes) returns (s: Step)
      requires Safe() && maker.None? && (k == prior || k == None) && target == Some(bytes)
      modifies this
      ensures Kept() && baseRecorded == old(baseRecorded) && adopted == old(adopted) && calls >= old(calls)
      ensures s.Done? ==> live == target && maker.None? && OnlyPriorMoved(k) && memory == Some(Memory(k, Applied))
      ensures s.Done? && k.Some? ==> Files(k).backup == k
      ensures Undisturbed() ==> (s.Done? <==> old(live) == k && old(Genuine(k)))
      ensures old(live) == k && Quiet(editor, old(clock), clock) ==> BrokenOff(k, old(calls))
      ensures old(live) == k && Undisturbed() && !s.Done? ==> live == k
    {
      hide Honest, Safe, Books, FilesOf, SameBackups, OthersKept, Backups;
      HonestFrom(editor, Books());
      :- WriteStage(k, bytes);
      if Files(k).stage != Some(bytes) {
        return Failed;
      }
      s := ApplyVerifiedStage(k);
    }

    /** What both do with a throw: put a vacant path back to its backup and throw again. */
    method Undo(k: Option<Bytes>, ghost first: nat) returns (s: Step)
      requires Safe() && (k == prior || k == None) && first <= calls
      modifies `live, `ops, `memory, `owed, `taken, `maker, `clock, `calls
      ensures Kept() && !s.Done? && calls >= old(calls)
      ensures old(Files(k)).backup.None? ==> live == old(live)
      ensures old(live).Some? && Quiet(editor, old(clock), clock) ==> live == old(live)
      ensures Quiet(editor, old(clock), clock) && OneFails(adapter, first, calls) && !Smooth(adapter, first, old(calls)) ==>
                live == Refilled(old(live), old(Files(k)).backup)
    {
      hide Honest, Safe, Books, FilesOf, SameBackups, OthersKept, Backups, OneFails;
      var rolled, _ := RollBack(k);
      s := if rolled.Crashed? then Crashed else Failed;
      if OneFails(adapter, first, calls) && !Smooth(adapter, first, old(calls)) {
        RestSmooth(adapter, first, old(calls), calls);
      }
    }

    /** `replaceFile` and `replaceStreamedFile`: stage the target, check it, promote it; on a throw roll back. */
    method ReplaceFile(k: Option<Bytes>, bytes: Bytes) returns (s: Step)
      requires Safe() && maker.None? && (k == prior || k == None) && target == Some(bytes)
      modifies this
      ensures Kept() && baseRecorded == old(baseRecorded) && adopted == old(adopted) && calls >= old(calls)
      ensures s.Done? ==> live == target && maker.None? && OnlyPriorMoved(k)
      ensures s.Done? && k.Some? ==> Files(k).backup == k
      ensures s.Done? ==> memory == Some(Memory(k, Applied))
      ensures Undisturbed() ==> (s.Done? <==> old(live) == k && old(Genuine(k)) && old(Files(k)).record != Torn)
      ensures s.Failed? && old(live) == k && Quiet(editor, old(clock), clock) && OneFails(adapter, old(calls), calls) ==>
                live == k || Arrived(adapter, old(calls), calls, live, target)
      ensures AfterEdit(editor(old(clock)), old(live)) != k ==> !s.Done? && UnchangedBut(old(live), old(clock))
      ensures AfterEdit(editor(old(clock)), old(live)) != k ==> ops == old(ops) && recovery == old(recovery) && memory == old(memory)
    {
      hide Arrived, OneFails, Honest, Safe, Books, FilesOf, SameBackups, OthersKept, Backups;
      HonestFrom(editor, Books());
      :- AssertLocalUnchanged(k);
      :- OperationFor(k);
      ghost var from := calls;
      s := StageAndApply(k, bytes);
      if s.Failed? {
        ghost var mid, broken := calls, live;
        SafeFacts();
        s := Undo(k, old(calls));
        if Arrived(adapter, from, mid, broken, target) {
          ArrivedLater(adapter, old(calls), from, mid, calls, broken, target);
        }
      }
    }

    /** The body of `deleteFile`: on success the path is vacant and the prior version in the backup. */
    method RetireFile(k: Option<Bytes>) returns (s: Step)
      requires Safe() && maker.None? && k == prior && k.Some? && target.None?
      modifies this
      ensures Kept() && baseRecorded == old(baseRecorded) && adopted == old(adopted) && calls >= old(calls)
      ensures s.Done? ==> live.None? && maker.None? && OnlyPriorMoved(k) && Files(k).backup == k && memory == Some(Memory(k, Applied))
      ensures Undisturbed() ==> (s.Done? <==> old(live) == k && old(Genuine(k)))
      ensures old(live) == k && Quiet(editor, old(clock), clock) ==> live == k || (live.None? && Files(k).backup == k)
      ensures old(live) == k && Undisturbed() && !s.Done? ==> live == k
      ensures AfterEdit(editor(old(clock)), old(live)) != k ==> !s.Done? && Saved() == old(Saved())
    {
      hide Honest, Safe, Books, FilesOf, SameBackups, OthersKept, Backups;
      HonestFrom(editor, Books());
      :- AssertLocalUnchanged(k);
      :- SetAside(k);
      s := Persist(k, Applied);
    }

    /** `deleteFile` */
    method DeleteFile(k: Option<Bytes>) returns (s: Step)
      requires Safe() && maker.None? && k == prior && k.Some? && target.None?
      modifies this
      ensures Kept() && baseRecorded == old(baseRecorded) && adopted == old(adopted) && calls >= old(calls)
      ensures s.Done? ==> live.None? && maker.None? && OnlyPriorMoved(k) && Files(k).backup == k && memory == Some(Memory(k, Applied))
      ensures Undisturbed() ==> (s.Done? <==> old(live) == k && old(Genuine(k)) && old(Files(k)).record != Torn)
      ensures s.Failed? && old(live) == k && Quiet(editor, old(clock), clock) && OneFails(adapter, old(calls), calls) ==> live == k
      ensures AfterEdit(editor(old(clock)), old(live)) != k ==> !s.Done? && UnchangedBut(old(live), old(clock))
      ensures AfterEdit(editor(old(clock)), old(live)) != k ==> ops == old(ops) && recovery == old(recovery) && memory == old(memory)
    {
      hide Arrived, OneFails, Honest, Safe, Books, FilesOf, SameBackups, OthersKept, Backups;
      HonestFrom(editor, Books());
      :- AssertLocalUnchanged(k);
      :- OperationFor(k);
      s := RetireFile(k);
      if s.Failed? {
        s := Undo(k, old(calls));
      }
    }

    // ------------------------------------------------------------------ resume

    /** An unfinished copy made when the path was found absent although the accepted prior was a file. */
    ghost predicate Orphan()
      reads this
    {
      maker == Some(None) && prior.Some?
    }

    ghost function Judgement(): Boundary
      reads this`ops, this`memory, this`live
    {
      Judge(PhaseOf(prior), live, Files(prior).backup, target, prior)
    }

    /** The journal is whole, no foreign backup stands in the way, and no announced part does. */
    ghost predicate Passable()
      reads this`ops, this`memory, this`live
    {
      Files(prior).record != Torn && !Judgement().Hold?
    }

    /** What stands at the path when the boundary has been recovered. */
    ghost function Recovered(): Option<Bytes>
      reads this`ops, this`memory, this`live
    {
      if Judgement().Return? then Files(prior).backup else live
    }

    /** The operation the settings remember has no foreign backup. */
    ghost predicate Finishable()
      reads this`ops, this`memory
    {
      memory.Some? ==> Genuine(memory.value.priorHash)
    }

    lemma StillFinishable(ops: Ops, memory: Option<Memory>)
      requires SameBackups(ops, this.ops)
      requires this.memory == memory || (this.memory.Some? && this.memory.value.priorHash == prior && Genuine(prior))
      ensures (memory.Some? ==> var f := FilesOf(ops, memory.value.priorHash); f.backup.None? || f.backup == memory.value.priorHash) ==> Finishable()
    {
    }

    /** `recoverOperationBoundary`; `halved` is what `RollBack` says. */
    method RecoverBoundary() returns (s: Step, ghost halved: bool)
      requires Safe()
      modifies this
      ensures Kept() && baseRecorded == old(baseRecorded) && adopted == old(adopted) && Saved() == old(Saved()) && calls >= old(calls)
      ensures halved ==> maker == Some(prior) && target.Some? && CutShort(adapter, old(calls), calls, target, prior)
      ensures s.Done? && maker.Some? ==> halved || (maker == old(maker) && old(Orphan()))
      ensures s.Done? && old(Orphan()) && Quiet(editor, old(clock), clock) ==> maker == old(maker) && !halved
      ensures old(live).Some? && Quiet(editor, old(clock), clock) ==> live == old(live)
      ensures calls > old(calls) && OthersKept(old(ops), ops, prior) && Files(prior).backup == old(Files(prior)).backup
      ensures s.Done? && old(Finishable()) ==> Finishable()
      ensures Undisturbed() ==> (s.Done? <==> old(Passable()))
      ensures Undisturbed() && s.Done? ==> live == old(Recovered()) && Files(prior).record != Torn
    {
      hide Honest, Safe, Books, FilesOf, SameBackups, OthersKept, Backups;
      HonestFrom(editor, Books());
      BackupsAlike(ops, prior);
      halved := false;
      SafeFacts();
      ghost var ops0, memory0 := ops, memory;
      var found :- LoadOperation(prior);
      if found.None? {
        return Done, false;
      }
      var current :- Look();
      SafeFacts();
      match Judge(found, current, Files(prior).backup, target, prior)
      case Hold => s := Failed;
      case Return =>
        s, halved := RollBack(prior);
        StillFinishable(ops0, memory0);
      case Pass =>
        s := Done;
        StillFinishable(ops0, memory0);
    }

    /** Record the reconcile base and leave the path alone; from here on its bytes pass for the user's. */
    method Preserve()
      requires Safe() && live.Some? && (maker.None? ==> live.value in owed)
      modifies `baseRecorded, `maker, `owed, `adopted
      ensures Kept() && maker.None? && baseRecorded && live.value in owed
      ensures adopted == old(adopted) + if old(maker).Some? then {live.value} else {}
    {
      HonestFrom(editor, Books());
      OneAct(editor, Books(), Adopt);
      OneLosesNothing(editor, Books(), Adopt);
      hide Honest;
      baseRecorded := true;
      if maker.Some? {
        owed, adopted := owed + {live.value}, adopted + {live.value};
      }
      maker := None;
    }

    /** The operation that is due has a whole journal and no foreign backup. */
    ghost predicate Actionable(bytes: Option<Bytes>)
      reads this`ops
    {
      match Choose(bytes, target, prior)
      case Replace => Clear(ops, bytes)
      case Remove => Clear(ops, prior)
      case _ => true
    }

    lemma StillActionable(before: Ops, bytes: Option<Bytes>)
      requires OthersKept(before, ops, prior) && FilesOf(before, prior).backup == Files(prior).backup
      requires FilesOf(before, prior).record != Torn && Files(prior).record != Torn
      ensures Choose(bytes, target, prior).Replace? ==> (Clear(before, bytes) <==> Clear(ops, bytes))
      ensures Clear(before, prior) <==> Clear(ops, prior)
    {
    }

    /**
     The journal of the prior is whole. If it or the settings tell of an
     operation, its backup, if any, is the prior; if that operation was copying,
     what is at the path is the prior or the target. What has to be replaced or
     removed has no foreign backup; and what is found absent, with nothing to
     put back, has no torn journal of its own.
     */
    ghost predicate Resumable()
      reads this`ops, this`memory, this`live
    {
      var f, known := Files(prior), PhaseOf(prior);
      var own := f.backup.None? || f.backup == prior;
      && f.record != Torn
      && (known.Some? ==> own)
      && (known == Some(Promoting) ==> live.None? || live == target || live == prior)
      && (live == prior && live != target ==> own)
      && (live.None? && target.Some? && (known.None? || f.backup.None?) ==> Files(None).record != Torn)
    }

    /** An edit is what is neither target nor prior. */
    ghost function Outlook(): Outcome
      reads this`live
    {
      if live.Some? && live != target && live != prior then Preserved(live.value) else Landed
    }

    /** Neither the boundary nor what then has to be done is held up exactly then. */
    lemma ResumableIs()
      requires Safe()
      ensures Resumable() <==> Passable() && Actionable(Recovered())
      ensures Passable() ==>
                Outlook() == if Choose(Recovered(), target, prior).KeepEdit? then Preserved(Recovered().value) else Landed
    {
      hide Held, Known, Announced, Books;
    }

    /**
     One path of `resumePendingApplication`. It ends at its target, or it holds
     an edit that is neither target nor prior, untouched and with a reconcile
     base on record. The edit is the user's, unless it is `misread`: an
     unfinished copy of the engine's own, adopted as his. That happens exactly
     when a rollback of this very resume was cut short by an error but left
     bytes, or when the copy had been recorded under an absent prior and its
     journal is not the one consulted. Undisturbed, it succeeds exactly unless a
     journal is torn, a foreign backup stands in the way, or an announced part
     does.
     */
    method Resume() returns (s: Step, o: Outcome, ghost misread: bool, ghost halved: bool)
      requires Safe()
      modifies this
      ensures Kept() && calls >= old(calls)
      ensures s.Done? && o.Landed? ==> live == target
      ensures s.Done? && o.Preserved? ==>
        baseRecorded && live == Some(o.edit) && live != target && live != prior && o.edit in owed
      ensures s.Done? ==> maker.None? && OnlyPriorMoved(prior)
      ensures adopted == old(adopted) + if misread then {o.Edited()} else {}
      ensures halved ==> CutShort(adapter, old(calls), calls, target, prior)
      ensures misread ==> s.Done? && o.Preserved? && (halved || old(Orphan()))
      ensures s.Done? && Quiet(editor, old(clock), clock) ==> (misread <==> halved || old(Orphan()))
      ensures s.Done? && old(Finishable()) ==> Finishable()
      ensures Undisturbed() ==> (s.Done? <==> old(Resumable()))
      ensures Undisturbed() && s.Done? ==> o == old(Outlook())
    {
      hide Resumable, Outlook, Recovered, Finishable, Genuine, Clear, Judgement, Honest, Safe, Books, FilesOf, SameBackups, OthersKept, Backups;
      HonestFrom(editor, Books());
      ResumableIs();
      o, misread, halved := Landed, false, false;
      ghost var before, whole, expected := ops, Passable(), Recovered();
      halved :- RecoverBoundary();
      if whole && Files(prior).record != Torn {
        StillActionable(before, expected);
      }
      var bytes :- Look();
      s, o, misread := Act(bytes);
    }

    /** What the loop does with the bytes it has seen. */
    method Act(bytes: Option<Bytes>) returns (s: Step, o: Outcome, ghost misread: bool)
      requires Safe() && bytes == live
      modifies this
      ensures Kept() && calls >= old(calls)
      ensures s.Done? ==> maker.None? && OnlyPriorMoved(prior)
      ensures s.Done? ==> if Choose(bytes, target, prior).KeepEdit? then baseRecorded && live == bytes && bytes.value in owed else live == target
      ensures s.Done? ==> o == if Choose(bytes, target, prior).KeepEdit? then Preserved(bytes.value) else Landed
      ensures misread <==> old(maker).Some?
      ensures misread ==> s.Done? && o.Preserved?
      ensures adopted == old(adopted) + if misread then {o.Edited()} else {}
      ensures s.Done? && old(Finishable()) ==> Finishable()
      ensures Undisturbed() ==> (s.Done? <==> old(Actionable(bytes)))
    {
      hide Honest, Safe, Books, FilesOf, SameBackups, OthersKept, Backups;
      HonestFrom(editor, Books());
      SafeFacts();
      o, misread := Landed, false;
      match Choose(bytes, target, prior)
      case KeepEdit =>
        misread := maker.Some?;
        Preserve();
        s, o := Done, Preserved(bytes.value);
      case Nothing => s := Done;
      case Replace =>
        s := ReplaceFile(bytes, target.value);
        SafeFacts();
      case Remove => s := DeleteFile(prior);
    }

    // ------------------------------------------------------------------ finish

    /** `remove` of a private file; it may take effect and still be reported as failed. */
    method Discard(k: Option<Bytes>, f: OpFiles) returns (s: Step)
      requires Safe() && maker.None? && f.backup == Files(k).backup
      modifies `ops, `calls
      ensures Safe() && Books() == old(Books()) && Saved() == old(Saved()) && calls == old(calls) + 1 && s == adapter(old(calls)).end
      ensures OthersKept(old(ops), ops, k) && (Files(k) == f || Files(k) == old(Files(k))) && (s.Done? ==> Files(k) == f)
    {
      var fate;
      s, fate := Attempt();
      if s.Done? || fate.happens {
        SetFiles(k, f);
      }
    }

    /**
     `finishOperations` for one path: the remembered operation leaves no backup,
     no journal and no stage that holds the target.
     */
    method Finish() returns (s: Step)
      requires Safe() && maker.None?
      modifies `ops, `recovery, `memory, `calls
      ensures Kept() && Saved() == old(Saved()) && calls >= old(calls)
      ensures s.Done? ==> memory.None?
      ensures Smooth(adapter, old(calls), calls) ==> (s.Done? <==> old(Finishable()))
      ensures s.Done? && old(memory).Some? ==>
        var f := Files(old(memory).value.priorHash);
        f.backup.None? && f.record == Absent && (target.Some? ==> f.stage != target)
    {
      hide Honest, Safe, Books, FilesOf, OthersKept, Backups;
      HonestFrom(editor, Books());
      if memory.None? {
        return Done;
      }
      var k := memory.value.priorHash;
      if Files(k).backup.Some? {
        :- Archive(k);
      }
      if target.Some? && Files(k).stage == target {
        :- Discard(k, Files(k).(stage := None));
      }
      s := Discard(k, Files(k).(record := Absent));
      if s.Done? {
        memory := None;
      }
    }

    /** After a crash the settings remember whatever was last saved. */
    method Restart(saved: Option<Memory>)
      requires Safe()
      modifies `memory
      ensures Kept() && Saved() == old(Saved()) && memory == saved
    {
      hide Honest;
      HonestFrom(editor, Books());
      memory := saved;
    }
  }

  /**
   The prior file [1] has vanished by the time the path is resumed, so the copy
   of [2, 3] is recorded under an absent prior; a crash leaves [2]. The journal
   of the prior [1] says nothing, and the next resume takes [2] for an edit.
   The calls before the crash are those of `Resume` and `ReplaceFile`.
   */
  method UnfinishedCopyPassesForEdit() returns (p: PathApply, o: Outcome, ghost misread: bool)
    ensures fresh(p) && p.prior == Some(OLD) && p.target == Some(NEW) && p.editor == Vanishing
    ensures misread && o == Preserved(PART) && p.live == Some(PART) && p.adopted == {PART}
  {
    hide Honest, PathApply.Safe;
    p := CutCopy();
    p.Restart(p.memory);
    ghost var halved;
    var s;
    s, o, misread, halved := p.Resume();
    assert forall c :: c > 11 ==> Interrupted(c).Succeeds();
  }

  const OLD: Bytes := [1]
  const NEW: Bytes := [2, 3]
  const PART: Bytes := [2]

  /** The editor deletes the file at his first instant, and nothing else. */
  function Vanishing(n: nat): Option<Option<Bytes>> {
    if n == 0 then Some(None) else None
  }

  /** The call number 11 crashes and leaves a part of the new bytes. */
  function Interrupted(c: nat): Fate {
    if c == 11 then Fate(Crashed, false, Some(PART)) else Fate(Done, true, None)
  }

  lemma DifferentBytes()
    ensures OLD != NEW && OLD != PART && NEW != PART
  {
    assert PART[0] != OLD[0] && |PART| != |NEW| && |OLD| != |NEW|;
  }

  /** The vanished path is being resumed; `calls` of the adapter have been made, and the new bytes are staged if `staged`. */
  ghost predicate UnderWay(p: PathApply, calls: nat, staged: bool)
    reads p
  {
    && p.Safe() && p.prior == Some(OLD) && p.target == Some(NEW) && p.editor == Vanishing && p.adapter == Interrupted
    && p.calls == calls && p.clock > 0 && p.live.None? && p.maker.None? && p.adopted == {}
    && p.Files(p.prior) == OpFiles(None, None, Absent) && !(p.memory.Some? && p.memory.value.priorHash == p.prior)
    && (staged ==> p.Files(None).stage == Some(NEW))
  }

  /** `recoverOperationBoundary` and the look at the path: nothing is there, so the new bytes are to be put in place. */
  method FoundVanished() returns (p: PathApply)
    ensures fresh(p) && UnderWay(p, 2, false)
    ensures Choose(p.live, p.target, p.prior).Replace?
  {
    hide Honest, PathApply.Safe, FilesOf, Backups;
    DifferentBytes();
    p := new PathApply(Some(NEW), Some(OLD), Some(OLD), Vanishing, Interrupted);
    NoFiles(p.ops);
    var s, found := p.LoadOperation(p.prior);
    var bytes;
    s, bytes := p.Look();
  }

  /** `replaceFile` until the operation is recorded. */
  method RecordAbsent(p: PathApply)
    requires UnderWay(p, 2, false)
    modifies p
    ensures UnderWay(p, 5, false)
  {
    hide Honest, PathApply.Safe, OthersKept, SameBackups, FilesOf, Backups;
    var s := p.AssertLocalUnchanged(None);
    var found;
    s, found := p.LoadOperation(None);
    ghost var ops := p.ops;
    s := p.Persist(None, Planned);
    OtherKept(ops, p.ops, None, p.prior);
  }

  lemma NoFiles(ops: Ops)
    requires ops == map[]
    ensures forall k :: FilesOf(ops, k) == OpFiles(None, None, Absent)
  {
  }

  /** The stage is written and promotion begins. */
  method StageNew(p: PathApply)
    requires UnderWay(p, 5, false)
    modifies p
    ensures UnderWay(p, 8, true)
  {
    hide Honest, PathApply.Safe, OthersKept, SameBackups, FilesOf, Backups;
    ghost var ops := p.ops;
    var s := p.WriteStage(None, NEW);
    OtherKept(ops, p.ops, None, p.prior);
    ops := p.ops;
    s := p.Persist(None, Staged);
    OtherKept(ops, p.ops, None, p.prior);
    s := p.AssertLocalUnchanged(None);
  }

  /** The rest of `applyVerifiedStage`, up to the copy. */
  method BeginPromotion(p: PathApply)
    requires UnderWay(p, 8, true)
    modifies p
    ensures UnderWay(p, 11, true) && p.Files(None).record == Written(Promoting)
  {
    hide Honest, PathApply.Safe, OthersKept, SameBackups, FilesOf, Backups;
    ghost var ops := p.ops;
    var s := p.Persist(None, BackedUp);
    OtherKept(ops, p.ops, None, p.prior);
    s := p.AssertLocalUnchanged(None);
    ops := p.ops;
    s := p.Persist(None, Promoting);
    OtherKept(ops, p.ops, None, p.prior);
  }

  /** The copy crashes and leaves a part. */
  method CutCopy() returns (p: PathApply)
    ensures fresh(p) && p.Safe() && p.prior == Some(OLD) && p.target == Some(NEW) && p.editor == Vanishing && p.adapter == Interrupted
    ensures p.Orphan() && p.Resumable() && p.Outlook() == Preserved(PART) && p.live == Some(PART) && p.clock > 0 && p.calls > 11 && p.adopted == {}
    ensures p.live != p.target && p.live != p.prior
  {
    hide Honest, PathApply.Safe, FilesOf, Backups;
    DifferentBytes();
    p := FoundVanished();
    RecordAbsent(p);
    StageNew(p);
    BeginPromotion(p);
    var s := p.CopyToPath(None, NEW);
  }

  // ------------------------------------------------------------ all paths

  ghost predicate AllSafe(paths: seq<PathApply>)
    reads paths
  {
    forall p :: p in paths ==> p.Safe()
  }

  twostate predicate AllKept(paths: seq<PathApply>)
    reads paths
  {
    forall i :: 0 <= i < |paths| ==> paths[i].Kept()
  }

  /** Every path is safe, and its account honest since `before`. */
  ghost predicate AllHonest(paths: seq<PathApply>, before: seq<Account>)
    reads paths
  {
    |before| == |paths| && forall i :: 0 <= i < |paths| ==> paths[i].Safe() && Honest(paths[i].editor, before[i], paths[i].Books())
  }

  predicate DistinctPaths(paths: seq<PathApply>) {
    forall i, j :: 0 <= i < j < |paths| ==> paths[i] != paths[j]
  }

  /**
   How a path stands that was settled at the instant `mark`: its target, or the
   preserved edit, is there, under nothing but what the editor has written
   since; and the edit is still owed, unless the editor has done away with it.
   */
  ghost predicate Settled(p: PathApply, o: Outcome, mark: nat)
    reads p
  {
    && p.maker.None? && mark <= p.clock
    && match o
       case Landed => p.live == Overlaid(p.editor, mark, p.clock, p.target)
       case Preserved(edit) =>
         && p.baseRecorded && Some(edit) != p.target && Some(edit) != p.prior
         && p.live == Overlaid(p.editor, mark, p.clock, Some(edit))
         && (edit in p.owed || TookSince(p.taken, mark, edit))
  }

  /** If the editor has left a settled path alone, the target or his edit is there. */
  lemma SettledInPeace(p: PathApply, o: Outcome, mark: nat)
    requires p.Safe() && Settled(p, o, mark) && Quiet(p.editor, mark, p.clock)
    ensures o.Landed? ==> p.live == p.target
    ensures o.Preserved? ==> p.live == Some(o.edit) && o.edit in p.owed
  {
    QuietOverlay(p.editor, mark, p.clock, if o.Landed? then p.target else Some(o.Edited()));
    assert forall n :: n in p.taken ==> n < mark;
  }

  /** The first `done` paths are settled. */
  ghost predicate SettledUpTo(paths: seq<PathApply>, outcomes: seq<Outcome>, marks: seq<nat>, done: nat)
    requires done <= |paths| && done <= |outcomes| && done <= |marks|
    reads paths
  {
    forall i :: 0 <= i < done ==> Settled(paths[i], outcomes[i], marks[i])
  }

  ghost predicate AllSettled(paths: seq<PathApply>, outcomes: seq<Outcome>, marks: seq<nat>)
    reads paths
  {
    |outcomes| == |paths| == |marks| && SettledUpTo(paths, outcomes, marks, |paths|)
  }

  ghost predicate MarkedSince(before: seq<Account>, marks: seq<nat>) {
    forall i :: 0 <= i < |before| && i < |marks| ==> before[i].clock <= marks[i]
  }

  /**
   Nobody disturbs the paths, no foreign backup is in the way of finishing them,
   and of those past the first `done` the ones in `hopes` can be resumed; the
   first `done` could.
   */
  ghost predicate Calm(paths: seq<PathApply>, hopes: seq<bool>, done: nat)
    reads paths
  {
    |hopes| == |paths| && forall i :: 0 <= i < |paths| ==> CalmAt(paths[i], hopes[i], i < done)
  }

  ghost predicate CalmAt(p: PathApply, hope: bool, done: bool)
    reads p
  {
    p.AtPeace() && p.Finishable() && if done then hope else hope <==> p.Resumable()
  }

  /** Of the first paths no operation is left to finish. */
  ghost predicate FinishedUpTo(paths: seq<PathApply>, n: nat)
    requires n <= |paths|
    reads paths
  {
    forall i :: 0 <= i < n ==> paths[i].memory.None?
  }

  /** Another instant of the editor leaves a settled path settled. */
  method EditOne(p: PathApply, ghost o: Outcome, ghost mark: nat, ghost before: Account)
    requires p.Safe() && Honest(p.editor, before, p.Books())
    modifies p
    ensures p.Safe() && Honest(p.editor, before, p.Books())
    ensures old(Settled(p, o, mark)) ==> Settled(p, o, mark)
    ensures forall hope, done :: old(CalmAt(p, hope, done)) ==> CalmAt(p, hope, done)
    ensures p.memory == old(p.memory)
  {
    hide Honest;
    ghost var now := p.Books();
    p.Interfere();
    HonestTransitive(p.editor, before, now, p.Books());
    if old(Settled(p, o, mark)) && o.Preserved? {
      StillRemembered(p.editor, now, p.Books(), mark, o.edit);
    }
  }

  /** Bytes that are owed, or that the editor has done away with since `mark`, are so later. */
  lemma StillRemembered(editor: Editor, a: Account, b: Account, mark: nat, x: Bytes)
    requires Held(editor, a) && Honest(editor, a, b) && b.overwritten == {} && mark <= a.clock
    requires x in a.owed || TookSince(a.taken, mark, x)
    ensures x in b.owed || TookSince(b.taken, mark, x)
  {
    hide Honest;
    HonestLosesNothing(editor, a, b);
    if TookSince(a.taken, mark, x) {
      TookLater(a, b, mark, x);
    }
  }

  /** The editor may be at work on every path. */
  method EditAnything(paths: seq<PathApply>, ghost before: seq<Account>, ghost outcomes: seq<Outcome>, ghost marks: seq<nat>, ghost hopes: seq<bool>)
    requires DistinctPaths(paths) && AllHonest(paths, before)
    requires |outcomes| == |marks| <= |paths| && SettledUpTo(paths, outcomes, marks, |outcomes|)
    modifies paths
    ensures AllHonest(paths, before) && SettledUpTo(paths, outcomes, marks, |outcomes|)
    ensures old(Calm(paths, hopes, |outcomes|)) ==> Calm(paths, hopes, |outcomes|)
    ensures forall n :: 0 <= n <= |paths| && old(FinishedUpTo(paths, n)) ==> FinishedUpTo(paths, n)
  {
    hide Honest, PathApply.Safe, PathApply.Books, Settled, CalmAt;
    for i := 0 to |paths|
      invariant AllHonest(paths, before) && SettledUpTo(paths, outcomes, marks, |outcomes|)
      invariant old(Calm(paths, hopes, |outcomes|)) ==> Calm(paths, hopes, |outcomes|)
      invariant forall j :: 0 <= j < |paths| ==> paths[j].memory == old(paths[j].memory)
    {
      var edits: bool := *;
      if edits {
        ghost var o, mark := Landed, 0;
        if i < |outcomes| {
          o, mark := outcomes[i], marks[i];
        }
        EditOne(paths[i], o, mark, before[i]);
        assert forall j :: 0 <= j < |paths| && j != i ==> paths[j] != paths[i];
      }
    }
  }

  /** One path of the loop, settled as of now. */
  method ResumeOne(p: PathApply, ghost before: Account) returns (s: Step, o: Outcome, ghost mark: nat)
    requires p.Safe() && Honest(p.editor, before, p.Books())
    modifies p
    ensures p.Safe() && Honest(p.editor, before, p.Books())
    ensures s.Done? ==> Settled(p, o, mark) && before.clock <= mark
    ensures forall hope :: old(CalmAt(p, hope, false)) ==> (s.Done? <==> hope) && (s.Done? ==> CalmAt(p, hope, true))
  {
    ghost var now := p.Books();
    ghost var misread, halved;
    s, o, misread, halved := p.Resume();
    mark := p.clock;
    hide Honest;
    HonestFrom(p.editor, before);
  }

  lemma NothingMarked(paths: seq<PathApply>, before: seq<Account>)
    ensures SettledUpTo(paths, [], [], 0) && MarkedSince(before, [])
  {
  }

  /** The next path of the loop; the others stay as they are. */
  method ResumeAt(paths: seq<PathApply>, ghost before: seq<Account>, outcomes: seq<Outcome>, ghost marks: seq<nat>, ghost hopes: seq<bool>)
    returns (s: Step, o: Outcome, ghost mark: nat)
    requires DistinctPaths(paths) && AllHonest(paths, before) && |outcomes| == |marks| < |paths|
    requires SettledUpTo(paths, outcomes, marks, |outcomes|) && MarkedSince(before, marks)
    modifies paths
    ensures AllHonest(paths, before)
    ensures s.Done? ==> SettledUpTo(paths, outcomes + [o], marks + [mark], |outcomes| + 1) && MarkedSince(before, marks + [mark])
    ensures old(Calm(paths, hopes, |outcomes|)) ==> (s.Done? <==> hopes[|outcomes|]) && (s.Done? ==> Calm(paths, hopes, |outcomes| + 1))
  {
    hide Honest, PathApply.Safe, PathApply.Books, Settled, CalmAt;
    var i := |outcomes|;
    assert forall j :: 0 <= j < |paths| && j != i ==> paths[j] != paths[i];
    s, o, mark := ResumeOne(paths[i], before[i]);
  }

  ghost predicate AllHoped(hopes: seq<bool>, n: nat)
    requires n <= |hopes|
  {
    forall i :: 0 <= i < n ==> hopes[i]
  }

  /** The loop over the pending paths. */
  method ResumeAll(paths: seq<PathApply>, ghost before: seq<Account>, ghost hopes: seq<bool>) returns (s: Step, outcomes: seq<Outcome>, ghost marks: seq<nat>)
    requires DistinctPaths(paths) && AllHonest(paths, before) && |hopes| == |paths|
    modifies paths
    ensures AllHonest(paths, before)
    ensures s.Done? ==> AllSettled(paths, outcomes, marks) && MarkedSince(before, marks)
    ensures old(Calm(paths, hopes, 0)) ==> (s.Done? <==> AllHoped(hopes, |hopes|)) && (s.Done? ==> Calm(paths, hopes, |paths|))
  {
    hide AllHonest, SettledUpTo, MarkedSince, Calm;
    NothingMarked(paths, before);
    outcomes, marks := [], [];
    for i := 0 to |paths|
      invariant AllHonest(paths, before) && |outcomes| == |marks| == i
      invariant SettledUpTo(paths, outcomes, marks, i) && MarkedSince(before, marks)
      invariant old(Calm(paths, hopes, 0)) ==> Calm(paths, hopes, i) && AllHoped(hopes, i)
    {
      EditAnything(paths, before, outcomes, marks, hopes);
      var step, o;
      ghost var mark;
      step, o, mark := ResumeAt(paths, before, outcomes, marks, hopes);
      if step.IsFailure() {
        return step, outcomes, marks;
      }
      outcomes, marks := outcomes + [o], marks + [mark];
    }
    s := Done;
  }

  method FinishOne(p: PathApply, ghost o: Outcome, ghost mark: nat, ghost before: Account) returns (s: Step)
    requires p.Safe() && Honest(p.editor, before, p.Books()) && Settled(p, o, mark)
    modifies p
    ensures p.Safe() && Honest(p.editor, before, p.Books()) && Settled(p, o, mark)
    ensures forall hope :: old(CalmAt(p, hope, true)) ==> s.Done? && CalmAt(p, hope, true)
    ensures s.Done? ==> p.memory.None?
  {
    hide Honest;
    ghost var now := p.Books();
    s := p.Finish();
    HonestTransitive(p.editor, before, now, p.Books());
  }

  method FinishAt(paths: seq<PathApply>, ghost before: seq<Account>, ghost outcomes: seq<Outcome>, ghost marks: seq<nat>, ghost hopes: seq<bool>, i: nat)
    returns (s: Step)
    requires DistinctPaths(paths) && AllHonest(paths, before) && AllSettled(paths, outcomes, marks) && i < |paths|
    requires FinishedUpTo(paths, i)
    modifies paths
    ensures AllHonest(paths, before) && AllSettled(paths, outcomes, marks)
    ensures old(Calm(paths, hopes, |paths|)) ==> s.Done? && Calm(paths, hopes, |paths|)
    ensures s.Done? ==> FinishedUpTo(paths, i + 1)
  {
    hide Honest, PathApply.Safe, PathApply.Books, Settled, CalmAt;
    assert forall j :: 0 <= j < |paths| && j != i ==> paths[j] != paths[i];
    s := FinishOne(paths[i], outcomes[i], marks[i], before[i]);
  }

  /** `finishOperations`: archive the backups, drop the stages and the journals. */
  method FinishAll(paths: seq<PathApply>, ghost before: seq<Account>, ghost outcomes: seq<Outcome>, ghost marks: seq<nat>, ghost hopes: seq<bool>)
    returns (s: Step)
    requires DistinctPaths(paths) && AllHonest(paths, before) && AllSettled(paths, outcomes, marks)
    modifies paths
    ensures AllHonest(paths, before) && AllSettled(paths, outcomes, marks)
    ensures old(Calm(paths, hopes, |paths|)) ==> s.Done?
    ensures s.Done? ==> FinishedUpTo(paths, |paths|)
  {
    hide AllHonest, SettledUpTo, Calm;
    for i := 0 to |paths|
      invariant AllHonest(paths, before) && AllSettled(paths, outcomes, marks)
      invariant old(Calm(paths, hopes, |paths|)) ==> Calm(paths, hopes, |paths|)
      invariant FinishedUpTo(paths, i)
    {
      EditAnything(paths, before, outcomes, marks, hopes);
      :- FinishAt(paths, before, outcomes, marks, hopes, i);
    }
    s := Done;
  }

  /** The checkpoint of this device: whether it has moved to the accepted snapshot. */
  class Checkpoint {
    var advanced: bool

    constructor ()
      ensures !advanced
    {
      advanced := false;
    }
  }

  /** `resumePendingApplication`, with the accounts since `before`; `saved` tells whether the settings are saved in the end. */
  method ResumePending(paths: seq<PathApply>, checkpoint: Checkpoint, saved: bool, ghost before: seq<Account>, ghost hopes: seq<bool>)
    returns (s: Step, outcomes: seq<Outcome>, ghost marks: seq<nat>)
    requires DistinctPaths(paths) && AllHonest(paths, before) && !checkpoint.advanced && |hopes| == |paths|
    modifies paths, checkpoint
    ensures AllHonest(paths, before)
    ensures checkpoint.advanced ==> AllSettled(paths, outcomes, marks) && MarkedSince(before, marks) && FinishedUpTo(paths, |paths|)
    ensures s.Done? <==> checkpoint.advanced
    ensures old(Calm(paths, hopes, 0)) ==> (s.Done? <==> AllHoped(hopes, |hopes|) && saved)
  {
    hide AllHonest, AllSettled, MarkedSince, Calm, AllHoped;
    s, outcomes, marks := ResumeAll(paths, before, hopes);
    if s.IsFailure() {
      return;
    }
    s := FinishAll(paths, before, outcomes, marks, hopes);
    if s.IsFailure() {
      return;
    }
    s := if saved then Done else Crashed;
    checkpoint.advanced := saved;
  }

  ghost function BooksOf(paths: seq<PathApply>): (r: seq<Account>)
    reads paths
    ensures |r| == |paths| && forall i :: 0 <= i < |r| ==> r[i] == paths[i].Books()
  {
    if paths == [] then [] else BooksOf(paths[..|paths| - 1]) + [paths[|paths| - 1].Books()]
  }

  ghost function HopesOf(paths: seq<PathApply>): (r: seq<bool>)
    reads paths
    ensures |r| == |paths| && forall i :: 0 <= i < |r| ==> r[i] == paths[i].Resumable()
  {
    if paths == [] then [] else HopesOf(paths[..|paths| - 1]) + [paths[|paths| - 1].Resumable()]
  }

  /** Every path can be resumed. */
  ghost predicate AllResumable(paths: seq<PathApply>)
    reads paths
  {
    forall i :: 0 <= i < |paths| ==> paths[i].Resumable()
  }

  /** The editor and the disk are at peace, and no foreign backup is in the way of finishing. */
  ghost predicate AllCalm(paths: seq<PathApply>)
    reads paths
  {
    forall i :: 0 <= i < |paths| ==> paths[i].AtPeace() && paths[i].Finishable()
  }

  /** Since the accounts `before` no path has lost anything owed to the user or written by him. */
  ghost predicate NothingLost(paths: seq<PathApply>, before: seq<Account>)
    reads paths
  {
    |before| == |paths| && forall i :: 0 <= i < |paths| ==> LosesNothing(paths[i].editor, before[i], paths[i].Books())
  }

  lemma HonestLoseNothing(paths: seq<PathApply>, before: seq<Account>)
    requires AllHonest(paths, before) && forall i :: 0 <= i < |paths| ==> Held(paths[i].editor, before[i])
    ensures NothingLost(paths, before)
  {
    hide Honest, PathApply.Safe, PathApply.Books, LosesNothing, Held;
    forall i | 0 <= i < |paths|
      ensures LosesNothing(paths[i].editor, before[i], paths[i].Books())
    {
      HonestLosesNothing(paths[i].editor, before[i], paths[i].Books());
    }
  }

  /** How the paths stand when the checkpoint has advanced: settled since the accounts `before`, with no operation left open. */
  ghost predicate Accepted(paths: seq<PathApply>, outcomes: seq<Outcome>, marks: seq<nat>, before: seq<Account>)
    reads paths
  {
    AllSettled(paths, outcomes, marks) && MarkedSince(before, marks) && FinishedUpTo(paths, |paths|)
  }

  /**
   `resumePendingApplication`: whatever is interrupted, nothing owed to the
   user, nor anything he writes meanwhile, is lost but what he does away with
   himself, and the checkpoint advances only once every pending path holds its
   target, or an edit with its reconcile base recorded, under nothing but what
   the editor has written since. With nobody to disturb it, it advances exactly
   when every path can be resumed and the settings are saved.
   */
  method ResumePendingApplication(paths: seq<PathApply>, checkpoint: Checkpoint, saved: bool)
    returns (s: Step, outcomes: seq<Outcome>, ghost marks: seq<nat>)
    requires DistinctPaths(paths) && AllSafe(paths) && !checkpoint.advanced
    modifies paths, checkpoint
    ensures AllKept(paths)
    ensures NothingLost(paths, old(BooksOf(paths)))
    ensures checkpoint.advanced ==> Accepted(paths, outcomes, marks, old(BooksOf(paths)))
    ensures s.Done? <==> checkpoint.advanced
    ensures old(AllCalm(paths)) ==> (checkpoint.advanced <==> old(AllResumable(paths)) && saved)
  {
    ghost var before, hopes := BooksOf(paths), HopesOf(paths);
    NoStep(paths);
    hide Honest, PathApply.Safe, PathApply.Books, PathApply.Resumable, PathApply.AtPeace, PathApply.Finishable, AllSettled, MarkedSince, NothingLost, HopesOf;
    s, outcomes, marks := ResumePending(paths, checkpoint, saved, before, hopes);
    HonestLoseNothing(paths, before);
  }

  lemma NoStep(paths: seq<PathApply>)
    requires AllSafe(paths)
    ensures AllHonest(paths, BooksOf(paths))
    ensures forall i :: 0 <= i < |paths| ==> Held(paths[i].editor, BooksOf(paths)[i])
  {
    hide Honest, Held, PathApply.Safe, PathApply.Books, BooksOf;
    forall i | 0 <= i < |paths|
      ensures paths[i].Safe() && Honest(paths[i].editor, paths[i].Books(), paths[i].Books()) && Held(paths[i].editor, paths[i].Books())
    {
      assert paths[i] in paths;
      NoStepAt(paths[i]);
    }
  }

  lemma NoStepAt(p: PathApply)
    requires p.Safe()
    ensures Honest(p.editor, p.Books(), p.Books()) && Held(p.editor, p.Books())
  {
    hide Honest;
    HonestFrom(p.editor, p.Books());
  }

  /** Any number of interrupted resumes, with a restart after each, promise the same. */
  method ResumeRepeatedly(paths: seq<PathApply>, checkpoint: Checkpoint, attempts: nat)
    returns (outcomes: seq<Outcome>, ghost marks: seq<nat>)
    requires DistinctPaths(paths) && AllSafe(paths) && !checkpoint.advanced
    modifies paths, checkpoint
    ensures AllKept(paths)
    ensures NothingLost(paths, old(BooksOf(paths)))
    ensures checkpoint.advanced ==> Accepted(paths, outcomes, marks, old(BooksOf(paths)))
  {
    ghost var before := BooksOf(paths);
    NoStep(paths);
    hide Honest, PathApply.Safe, PathApply.Books, NothingLost, Accepted;
    outcomes, marks := ResumeUntil(paths, checkpoint, attempts, before);
    HonestLoseNothing(paths, before);
  }

  /** The attempts, with the accounts since `before`. */
  method ResumeUntil(paths: seq<PathApply>, checkpoint: Checkpoint, attempts: nat, ghost before: seq<Account>)
    returns (outcomes: seq<Outcome>, ghost marks: seq<nat>)
    requires DistinctPaths(paths) && AllHonest(paths, before) && !checkpoint.advanced
    modifies paths, checkpoint
    ensures AllHonest(paths, before)
    ensures checkpoint.advanced ==> Accepted(paths, outcomes, marks, before)
  {
    hide AllHonest, AllSettled, MarkedSince, Calm, AllHoped, HopesOf;
    var left := attempts;
    outcomes, marks := [], [];
    while left > 0 && !checkpoint.advanced
      invariant AllHonest(paths, before)
      invariant checkpoint.advanced ==> Accepted(paths, outcomes, marks, before)
    {
      var s;
      var saved: bool := *;
      s, outcomes, marks := ResumePending(paths, checkpoint, saved, before, HopesOf(paths));
      if !checkpoint.advanced {
        RestartAll(paths, before);
      }
      left := left - 1;
    }
  }

  /** After a crash every path remembers whatever was last saved. */
  method RestartAll(paths: seq<PathApply>, ghost before: seq<Account>)
    requires AllHonest(paths, before) && DistinctPaths(paths)
    modifies paths
    ensures AllHonest(paths, before)
  {
    hide Honest, PathApply.Safe;
    for i := 0 to |paths|
      invariant AllHonest(paths, before)
    {
      var saved: Option<Memory> := *;
      ghost var now := paths[i].Books();
      paths[i].Restart(saved);
      HonestTransitive(paths[i].editor, before[i], now, paths[i].Books());
    }
  }
}
