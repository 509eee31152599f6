/**
 What a batch makes (plugin/src/operation-plan.ts:39-40): the missing folders,
 shallowest first, then the new files, each naming the removal it replaces.
 */
module Making {
  import opened Wrappers
  import opened Paths
  import opened OperationModel
  import opened PlanWork
  import opened FolderPlan
  import opened FileMatching
  import opened FileMoves
  import opened Namespace

  /** The newest deleted entity the server remembers at a path. */
  datatype Tombstone = Tombstone(target: Id, revision: Id)

  type Tombstones = map<Path, Tombstone>

  // ---------------------------------------------------------------- promises

  /** The operation names a removal of this batch. */
  predicate Claims(op: Op) {
    (op.Mkdir? || op.Recreate?) && op.deletedBy.Some?
  }

  /** Operation `k` replaces what operation `j`, the last before it to do so, removed from the same path. */
  ghost predicate Replaces(t: Tree, ops: seq<Op>, j: nat, k: nat)
    requires j < k < |ops| && Claims(ops[k])
  {
    && RemovedAt(t, ops, j, ops[k].path) && (forall i: nat :: j < i < k ==> !RemovedAt(t, ops, i, ops[k].path))
    && ops[k].deletedBy == Some(ops[j].opId)
    && ops[k].target == ops[j].target
    && (if ops[k].Mkdir? then ops[k].retired == Some(ops[j].revision) else ops[k].revision == ops[j].revision)
  }

  ghost predicate TracedAt(t: Tree, ops: seq<Op>, k: nat)
    requires k < |ops|
  {
    Makes(ops[k]) ==>
      && (Claims(ops[k]) <==> exists j: nat :: j < k && RemovedAt(t, ops, j, ops[k].path))
      && (Claims(ops[k]) ==> exists j: nat :: j < k && Replaces(t, ops, j, k))
  }

  /**
   An operation names a removal exactly when the batch has emptied its path
   before, and the one it names is the last that did.
   */
  ghost predicate Traced(t: Tree, ops: seq<Op>) {
    forall k :: 0 <= k < |ops| ==> TracedAt(t, ops, k)
  }

  lemma NothingMadeTraced(t: Tree, ops: seq<Op>)
    requires NothingMade(ops)
    ensures Traced(t, ops)
  {
  }

  lemma TracedKept(t: Tree, ops: seq<Op>, op: Op, k: nat)
    requires k < |ops| && TracedAt(t, ops, k)
    ensures TracedAt(t, ops + [op], k)
  {
    hide RemovedAt;
    var all := ops + [op];
    assert all[k] == ops[k];
    if Makes(ops[k]) {
      RemovedBefore(t, ops, op, ops[k].path);
      if Claims(ops[k]) {
        var j: nat :| j < k && Replaces(t, ops, j, k);
        assert Replaces(t, all, j, k);
      }
    }
  }

  /** `op` carries the removal on record for its path, if there is one. */
  ghost predicate NamesRecord(op: Op, deletedAt: map<Path, Op>) {
    Makes(op) ==>
      && (Claims(op) <==> op.path in deletedAt && IsRemoval(deletedAt[op.path]))
      && (Claims(op) ==>
            && var removal := deletedAt[op.path];
            && op.deletedBy == Some(removal.opId)
            && op.target == removal.target
            && (if op.Mkdir? then op.retired == Some(removal.revision) else op.revision == removal.revision))
  }

  lemma TracedStep(t: Tree, ops: seq<Op>, deletedAt: map<Path, Op>, op: Op)
    requires Traced(t, ops) && Recorded(t, ops, deletedAt) && NamesRecord(op, deletedAt)
    ensures Traced(t, ops + [op])
  {
    hide TracedAt, Recorded, NamesRecord;
    var all := ops + [op];
    forall k | 0 <= k < |all|
      ensures TracedAt(t, all, k)
    {
      if k < |ops| {
        TracedKept(t, ops, op, k);
      } else {
        NewTraced(t, ops, deletedAt, op);
      }
    }
  }

  /** A path is on record exactly when some operation has emptied it. */
  lemma OnRecordIff(t: Tree, ops: seq<Op>, deletedAt: map<Path, Op>, path: Path)
    requires Recorded(t, ops, deletedAt)
    ensures path in deletedAt <==> exists j: nat :: j < |ops| && RemovedAt(t, ops, j, path)
    ensures path in deletedAt ==> IsRemoval(deletedAt[path])
    ensures path in deletedAt ==> exists j: nat :: LastRemovedAt(t, ops, j, path) && ops[j] == deletedAt[path]
  {
    if path in deletedAt {
      assert RemovedEarlier(t, ops, path, deletedAt[path]);
      var j: nat :| LastRemovedAt(t, ops, j, path) && ops[j] == deletedAt[path];
      assert RemovedAt(t, ops, j, path);
    }
  }

  lemma NewTraced(t: Tree, ops: seq<Op>, deletedAt: map<Path, Op>, op: Op)
    requires Recorded(t, ops, deletedAt) && NamesRecord(op, deletedAt)
    ensures TracedAt(t, ops + [op], |ops|)
  {
    hide Recorded, RemovedAt;
    var all := ops + [op];
    assert all[|ops|] == op;
    if Makes(op) {
      OnRecordIff(t, ops, deletedAt, op.path);
      RemovedBefore(t, ops, op, op.path);
      if Claims(op) {
        var j: nat :| LastRemovedAt(t, ops, j, op.path) && ops[j] == deletedAt[op.path];
        assert Replaces(t, all, j, |ops|);
      }
    }
  }

  lemma RemovedBefore(t: Tree, ops: seq<Op>, op: Op, path: Path)
    ensures forall j: nat :: j < |ops| ==> (RemovedAt(t, ops + [op], j, path) <==> RemovedAt(t, ops, j, path))
    ensures forall j: nat :: j < |ops| ==> (ops + [op])[j] == ops[j]
  {
    hide RemovedAt;
    forall j: nat | j < |ops|
      ensures RemovedAt(t, ops + [op], j, path) <==> RemovedAt(t, ops, j, path)
    {
      RemovedAtPrefix(t, ops, op, j, path);
    }
  }

  /** What holds of the batch while things are made. */
  ghost predicate Building(t: Tree, w: Work) {
    Always(t, w.ops, Lawful) && Recorded(t, w.ops, w.deletedAt) && Traced(t, w.ops)
  }

  function Emit(w: Work, op: Op, next: nat): Work {
    w.(ops := w.ops + [op], next := next)
  }

  lemma EmitBuilding(t: Tree, w: Work, op: Op, next: nat)
    requires Building(t, w) && Makes(op) && NamesRecord(op, w.deletedAt)
    ensures Building(t, Emit(w, op, next))
    ensures Run(t, Emit(w, op, next).ops) == Apply(Run(t, w.ops), op)
  {
    RunStep(t, w.ops, op);
    AlwaysStep(t, w.ops, op, Lawful);
    RecordedStep(t, w.ops, w.deletedAt, op);
    TracedStep(t, w.ops, w.deletedAt, op);
  }

  /** What claims no removal of the batch revives the newest tombstone of its path, if there is one. */
  predicate NamesTombstone(op: Op, stones: Tombstones) {
    Makes(op) && !Claims(op) ==>
      if op.path !in stones then op.Create? || (op.Mkdir? && op.retired.None? && op.replacement.None?)
      else
        && !op.Create? && op.target == stones[op.path].target
        && (if op.Mkdir? then op.retired == Some(stones[op.path].revision) && op.replacement.Some?
            else op.revision == stones[op.path].revision)
  }

  /** `later` only adds operations that make something. */
  ghost predicate OnlyMakes(stones: Tombstones, w: Work, later: Work) {
    && |w.ops| <= |later.ops| && later.ops[..|w.ops|] == w.ops
    && (forall k :: |w.ops| <= k < |later.ops| ==> Makes(later.ops[k]) && NamesTombstone(later.ops[k], stones))
    && later.deletedAt == w.deletedAt && later.next >= w.next
  }

  lemma OnlyMakesStep(stones: Tombstones, w: Work, later: Work, op: Op, next: nat)
    requires OnlyMakes(stones, w, later) && Makes(op) && NamesTombstone(op, stones) && next >= later.next
    ensures OnlyMakes(stones, w, Emit(later, op, next))
  {
    var after := Emit(later, op, next);
    assert after.ops[..|w.ops|] == later.ops[..|w.ops|];
  }

  lemma OnlyMakesTransitive(stones: Tombstones, a: Work, b: Work, c: Work)
    requires OnlyMakes(stones, a, b) && OnlyMakes(stones, b, c)
    ensures OnlyMakes(stones, a, c)
  {
    assert c.ops[..|a.ops|] == c.ops[..|b.ops|][..|a.ops|];
    forall k | |a.ops| <= k < |c.ops|
      ensures Makes(c.ops[k]) && NamesTombstone(c.ops[k], stones)
    {
      if k < |b.ops| {
        assert c.ops[k] == c.ops[..|b.ops|][k];
      }
    }
  }

  lemma OnlyMakesLength(stones: Tombstones, w: Work, later: Work)
    requires OnlyMakes(stones, w, later)
    ensures |w.ops| <= |later.ops| && later.next >= w.next
  {
  }

  // ------------------------------------------------------------------ folders

  /** What fixes the identity of a made folder. */
  datatype Naming = Naming(replaced: set<Path>, desired: map<Path, Id>, creations: Creations, tombstones: Tombstones)

  predicate UnderSome(p: Path, roots: set<Path>) {
    exists r :: r in roots && Under(p, r)
  }

  datatype Pick = Pick(id: Id, next: nat)

  function FolderIdentity(n: Naming, path: Path, next: nat): Pick {
    var asked := CreationId(n.creations, FolderEntity, path);
    if UnderSome(path, n.replaced) then Pick(Minted(next), next + 1)
    else if path in n.desired then Pick(n.desired[path], next)
    else if asked.Some? then Pick(asked.value, next)
    else Pick(Minted(next), next + 1)
  }

  function MkdirOp(n: Naming, deletedAt: map<Path, Op>, path: Path, drawn: Pick): (op: Op)
    ensures op.Mkdir? && op.path == path
    ensures (if op.replacement.Some? then op.replacement.value else op.target) == drawn.id
    ensures NamesRecord(op, deletedAt) && NamesTombstone(op, n.tombstones)
  {
    var opId := Minted(drawn.next);
    if path in deletedAt && (deletedAt[path].Delete? || deletedAt[path].Rmdir?) then
      var d := deletedAt[path];
      Mkdir(opId, d.target, Some(d.revision), path, Some(drawn.id), Some(d.opId))
    else if path in n.tombstones then
      Mkdir(opId, n.tombstones[path].target, Some(n.tombstones[path].revision), path, Some(drawn.id), None)
    else Mkdir(opId, drawn.id, None, path, None, None)
  }

  function MakeFolder(n: Naming, w: Work, path: Path): Work {
    var drawn := FolderIdentity(n, path, w.next);
    Emit(w, MkdirOp(n, w.deletedAt, path, drawn), drawn.next + 1)
  }

  /** A made folder is new under a replaced one; elsewhere it takes the desired, the created or a fresh identity. */
  ghost predicate RightfulFolder(n: Naming, d: Folder, start: nat) {
    var asked := CreationId(n.creations, FolderEntity, d.path);
    if !UnderSome(d.path, n.replaced) && d.path in n.desired then d.id == n.desired[d.path]
    else if !UnderSome(d.path, n.replaced) && asked.Some? then d.id == asked.value
    else d.id.Minted? && d.id.serial >= start
  }

  /** The folders of the run: those of `before`, and one for every missing wanted path handled so far. */
  ghost predicate FoldersMade(n: Naming, before: seq<Folder>, now: seq<Folder>, present: set<Path>, done: set<Path>, start: nat) {
    && (forall d :: d in before ==> d in now)
    && (forall d :: d in now && d !in before ==> d.path in done - present && RightfulFolder(n, d, start))
    && (forall p :: p in present + done <==> exists d :: d in now && d.path == p)
  }

  lemma FoldersMadeStep(n: Naming, before: seq<Folder>, now: seq<Folder>, present: set<Path>, done: set<Path>, start: nat, d: Folder)
    requires FoldersMade(n, before, now, present, done, start) && d.path !in present && RightfulFolder(n, d, start)
    ensures FoldersMade(n, before, now + [d], present, done + {d.path}, start)
  {
    hide RightfulFolder;
    var after := now + [d];
    assert d in after && forall e :: e in after <==> e in now || e == d;
    forall p
      ensures p in present + (done + {d.path}) <==> exists e :: e in after && e.path == p
    {
      if p in present + done {
        var e :| e in now && e.path == p;
        assert e in after;
      }
    }
  }

  lemma LiveIff(t: Tree, n: Naming, before: seq<Folder>, present: set<Path>, done: set<Path>, start: nat, p: Path)
    requires FoldersMade(n, before, t.folders, present, done, start)
    ensures LiveFolder(t, p) <==> p == [] || p in present + done
  {
    hide RightfulFolder;
  }

  /** The missing folders handled so far whose parent is not wanted. */
  ghost predicate AllHoused(wanted: set<Path>, present: set<Path>, done: set<Path>) {
    forall p :: p in done && p !in present && |p| > 1 ==> Parent(p) in wanted
  }

  /** `done` is a shallow part of `wanted`. */
  ghost predicate ShallowPart(wanted: set<Path>, done: set<Path>) {
    done <= wanted && forall p, q :: p in done && q in wanted && q !in done ==> |p| <= |q|
  }

  lemma {:induction false} SomeShallowest(todo: set<Path>) returns (p: Path)
    requires todo != {}
    ensures p in todo && forall q :: q in todo ==> |p| <= |q|
    decreases |todo|
  {
    p :| p in todo;
    var rest := todo - {p};
    if rest != {} {
      var r := SomeShallowest(rest);
      assert forall q :: q in todo ==> q == p || q in rest;
      if |r| < |p| {
        p := r;
      }
    }
  }

  /** The state of the mkdir loop once `done` has been handled. */
  ghost predicate Furnishing(t: Tree, w: Work, r: Work, n: Naming, wanted: set<Path>, present: set<Path>, done: set<Path>) {
    && Building(t, r) && OnlyMakes(n.tombstones, w, r)
    && Run(t, r.ops).files == Run(t, w.ops).files
    && FoldersMade(n, Run(t, w.ops).folders, Run(t, r.ops).folders, present, done * wanted - present, w.next)
    && (AlwaysFrom(t, r.ops, |w.ops|, Housed) <==> AllHoused(wanted, present, done))
  }

  lemma FurnishingSkip(t: Tree, w: Work, r: Work, n: Naming, wanted: set<Path>, present: set<Path>, done: set<Path>, p: Path)
    requires Furnishing(t, w, r, n, wanted, present, done) && p in present
    ensures Furnishing(t, w, r, n, wanted, present, done + {p})
  {
    hide Building, OnlyMakes, FoldersMade, AlwaysFrom;
    assert (done + {p}) * wanted - present == done * wanted - present;
  }

  /** The operation `MakeFolder` emits, and the folder it makes of any tree. */
  lemma MadeFolder(n: Naming, w: Work, path: Path, start: nat) returns (op: Op, d: Folder)
    requires start <= w.next
    ensures op.Mkdir? && op.path == path && NamesRecord(op, w.deletedAt) && NamesTombstone(op, n.tombstones)
    ensures MakeFolder(n, w, path) == Emit(w, op, MakeFolder(n, w, path).next) && MakeFolder(n, w, path).next > w.next
    ensures d.path == path && RightfulFolder(n, d, start)
    ensures forall t: Tree :: Apply(t, op) == t.(folders := t.folders + [d])
  {
    var drawn := FolderIdentity(n, path, w.next);
    op := MkdirOp(n, w.deletedAt, path, drawn);
    d := Folder(drawn.id, path, op.opId);
  }

  lemma FurnishingMake(t: Tree, w: Work, r: Work, n: Naming, wanted: set<Path>, present: set<Path>, done: set<Path>, p: Path)
    requires Furnishing(t, w, r, n, wanted, present, done) && p !in present
    requires present <= wanted && ShallowPart(wanted, done)
    requires p in wanted - done && forall q :: q in wanted - done ==> |p| <= |q|
    ensures Furnishing(t, w, MakeFolder(n, r, p), n, wanted, present, done + {p})
  {
    hide Building, OnlyMakes, AlwaysFrom, RightfulFolder, MakeFolder, NamesRecord, NamesTombstone, FoldersMade, ShallowPart, LiveFolder, Run, Apply, AllHoused;
    OnlyMakesLength(n.tombstones, w, r);
    var op, d := MadeFolder(n, r, p, w.next);
    var after := MakeFolder(n, r, p);
    EmitBuilding(t, r, op, after.next);
    OnlyMakesStep(n.tombstones, w, r, op, after.next);
    AlwaysFromIff(t, r.ops, |w.ops|, op, Housed);
    var made := done * wanted - present;
    var now := Run(t, r.ops);
    ParentLiveIff(t, n, w, r, wanted, present, done, p);
    FoldersMadeStep(n, Run(t, w.ops).folders, now.folders, present, made, w.next, d);
    assert (done + {p}) * wanted - present == made + {p};
    assert Apply(now, op) == now.(folders := now.folders + [d]);
    AllHousedStep(wanted, present, done, p);
  }

  lemma AllHousedStep(wanted: set<Path>, present: set<Path>, done: set<Path>, p: Path)
    requires p !in present
    ensures AllHoused(wanted, present, done + {p}) <==> AllHoused(wanted, present, done) && (|p| <= 1 || Parent(p) in wanted)
  {
    assert p in done + {p};
  }

  /** Next in order: the parent is live exactly when it is wanted. */
  lemma ParentLiveIff(t: Tree, n: Naming, w: Work, r: Work, wanted: set<Path>, present: set<Path>, done: set<Path>, p: Path)
    requires FoldersMade(n, Run(t, w.ops).folders, Run(t, r.ops).folders, present, done * wanted - present, w.next)
    requires present <= wanted && ShallowPart(wanted, done)
    requires p in wanted - done && forall q :: q in wanted - done ==> |p| <= |q|
    ensures LiveFolder(Run(t, r.ops), Parent(p)) <==> |p| <= 1 || Parent(p) in wanted
  {
    hide RightfulFolder;
    var now := Run(t, r.ops);
    LiveIff(now, n, Run(t, w.ops).folders, present, done * wanted - present, w.next, Parent(p));
    if |p| > 1 && Parent(p) in wanted {
      assert |Parent(p)| < |p|;
      assert Parent(p) in done;
    }
  }

  /**
   The mkdir loop (plugin/src/operation-plan.ts:39). Afterwards exactly the
   wanted folders are live; each is made inside a live folder exactly when no
   missing one has an unwanted parent.
   */
  method MakeFolders(ghost t: Tree, w: Work, n: Naming, wanted: set<Path>, present: set<Path>) returns (r: Work)
    requires Building(t, w) && present <= wanted
    requires forall p :: p in present <==> exists d :: d in Run(t, w.ops).folders && d.path == p
    ensures Building(t, r) && OnlyMakes(n.tombstones, w, r) && Drawn(w, r)
    ensures Run(t, r.ops).files == Run(t, w.ops).files
    ensures FoldersMade(n, Run(t, w.ops).folders, Run(t, r.ops).folders, present, wanted - present, w.next)
    ensures AlwaysFrom(t, r.ops, |w.ops|, Housed) <==> AllHoused(wanted, present, wanted)
  {
    hide Drawn, Building, OnlyMakes, AlwaysFrom, RightfulFolder, MakeFolder, AllHoused, FoldersMade;
    r := w;
    NoneDrawn(w, w);
    var todo := wanted;
    assert wanted - todo == {};
    FurnishingStart(t, w, n, wanted, present);
    while todo != {}
      invariant todo <= wanted && ShallowPart(wanted, wanted - todo)
      invariant Furnishing(t, w, r, n, wanted, present, wanted - todo)
      invariant Drawn(w, r)
    {
      ghost var shallowest := SomeShallowest(todo);
      var p :| p in todo && forall q :: q in todo ==> |p| <= |q|;
      ghost var done := wanted - todo;
      assert wanted - done == todo;
      assert wanted - (todo - {p}) == done + {p};
      if p in present {
        FurnishingSkip(t, w, r, n, wanted, present, done, p);
      } else {
        FurnishingMake(t, w, r, n, wanted, present, done, p);
        MakeFolderDrawn(n, r, p);
        DrawnTransitive(w, r, MakeFolder(n, r, p));
        r := MakeFolder(n, r, p);
      }
      todo := todo - {p};
    }
    assert wanted - todo == wanted && wanted * wanted - present == wanted - present;
  }

  lemma MakeFolderDrawn(n: Naming, w: Work, path: Path)
    ensures Drawn(w, MakeFolder(n, w, path))
  {
    var after := MakeFolder(n, w, path);
    OneDrawn(w, after, after.ops[|w.ops|]);
  }

  lemma FurnishingStart(t: Tree, w: Work, n: Naming, wanted: set<Path>, present: set<Path>)
    requires Building(t, w)
    requires forall p :: p in present <==> exists d :: d in Run(t, w.ops).folders && d.path == p
    ensures Furnishing(t, w, w, n, wanted, present, {})
  {
    assert w.ops[..|w.ops|] == w.ops;
    assert {} * wanted - present == {};
  }

  // -------------------------------------------------------------------- files

  function CreateOp(n: Naming, deletedAt: map<Path, Op>, c: Creation, next: nat): (op: Op)
    ensures op.opId == Minted(next) && Makes(op) && op.path == c.entry.path && NamesRecord(op, deletedAt) && NamesTombstone(op, n.tombstones)
  {
    var path := c.entry.path;
    if path in deletedAt && (deletedAt[path].Delete? || deletedAt[path].Rmdir?) then
      var d := deletedAt[path];
      Recreate(Minted(next), d.target, d.revision, c.target, path, c.entry.content, Some(d.opId))
    else if path in n.tombstones then
      Recreate(Minted(next), n.tombstones[path].target, n.tombstones[path].revision, c.target, path, c.entry.content, None)
    else Create(Minted(next), c.target, path, c.entry.content)
  }

  /** The last `|creates|` files are the made ones. */
  ghost predicate FilesMade(before: seq<File>, now: seq<File>, creates: seq<Creation>) {
    && |now| == |before| + |creates|
    && now[..|before|] == before
    && forall i :: 0 <= i < |creates| ==>
      var f := now[|before| + i];
      f.id == Some(creates[i].target) && f.path == creates[i].entry.path && f.content == creates[i].entry.content
  }

  lemma CreateApplied(t: Tree, n: Naming, deletedAt: map<Path, Op>, creates: seq<Creation>, c: Creation, next: nat, before: seq<File>)
    requires FilesMade(before, t.files, creates)
    ensures var after := Apply(t, CreateOp(n, deletedAt, c, next));
      after.folders == t.folders && FilesMade(before, after.files, creates + [c])
  {
    var after := Apply(t, CreateOp(n, deletedAt, c, next));
    assert after.files[..|before|] == t.files[..|before|];
  }

  /** The create loop (plugin/src/operation-plan.ts:40). */
  method MakeFiles(ghost t: Tree, w: Work, n: Naming, creates: seq<Creation>) returns (r: Work)
    requires Building(t, w)
    requires forall c :: c in creates ==> LiveFolder(Run(t, w.ops), Parent(c.entry.path))
    ensures Building(t, r) && OnlyMakes(n.tombstones, w, r) && Drawn(w, r)
    ensures Run(t, r.ops).folders == Run(t, w.ops).folders
    ensures FilesMade(Run(t, w.ops).files, Run(t, r.ops).files, creates)
    ensures AlwaysFrom(t, r.ops, |w.ops|, Housed)
  {
    hide Drawn, Building, FilesMade, NamesRecord, NamesTombstone, OnlyMakes, AlwaysFrom;
    r := w;
    NoneDrawn(w, w);
    MakeFilesStart(t, w, n);
    for i := 0 to |creates|
      invariant Building(t, r) && OnlyMakes(n.tombstones, w, r) && Drawn(w, r)
      invariant Run(t, r.ops).folders == Run(t, w.ops).folders
      invariant FilesMade(Run(t, w.ops).files, Run(t, r.ops).files, creates[..i])
      invariant AlwaysFrom(t, r.ops, |w.ops|, Housed)
    {
      var op := CreateOp(n, r.deletedAt, creates[i], r.next);
      OnlyMakesLength(n.tombstones, w, r);
      CreateApplied(Run(t, r.ops), n, r.deletedAt, creates[..i], creates[i], r.next, Run(t, w.ops).files);
      EmitBuilding(t, r, op, r.next + 1);
      OnlyMakesStep(n.tombstones, w, r, op, r.next + 1);
      assert creates[i] in creates;
      assert LiveFolder(Run(t, r.ops), Parent(op.path));
      AlwaysFromIff(t, r.ops, |w.ops|, op, Housed);
      assert creates[..i] + [creates[i]] == creates[..i + 1];
      OneDrawn(r, Emit(r, op, r.next + 1), op);
      DrawnTransitive(w, r, Emit(r, op, r.next + 1));
      r := Emit(r, op, r.next + 1);
    }
    assert creates[..|creates|] == creates;
  }

  lemma MakeFilesStart(t: Tree, w: Work, n: Naming)
    ensures OnlyMakes(n.tombstones, w, w) && AlwaysFrom(t, w.ops, |w.ops|, Housed)
    ensures FilesMade(Run(t, w.ops).files, Run(t, w.ops).files, [])
  {
    assert w.ops[..|w.ops|] == w.ops;
    var files := Run(t, w.ops).files;
    assert files[..|files|] == files;
  }
}
