/**
 The chains of the file-move loop (plugin/src/operation-plan.ts:36): a file
 whose destination is taken waits for the file that stands there, and so on
 until a destination is free, its own, or held by a file already in the chain.
 A chain is then resolved from its free end, so that each file moves to the
 place the one after it has just left; a cycle is opened with one scratch name.
 */
module FileMoves {
  import opened Wrappers
  import opened Paths
  import opened OperationModel
  import opened PlanWork
  import opened FileMatching
  import opened FileRuns

  /** `pending` and `occupied` beside the working arrays. */
  datatype MoveState = MoveState(work: Work, pending: map<Id, Relocation>, occupied: map<Path, Id>)

  // ---------------------------------------------------------------- positions

  /** Where each claimed file stands. */
  ghost function Positions(files: seq<File>, used: set<Id>): map<Id, Path> {
    map id | id in used && ById(files, id).Some? :: ById(files, id).value.path
  }

  ghost predicate Injective<K, V>(m: map<K, V>) {
    forall a, b :: a in m && b in m && m[a] == m[b] ==> a == b
  }

  /** `occupied` is the inverse of the positions. */
  ghost predicate Inverse(occupied: map<Path, Id>, at: map<Id, Path>) {
    && (forall id :: id in at ==> at[id] in occupied && occupied[at[id]] == id)
    && (forall p :: p in occupied ==> occupied[p] in at && at[occupied[p]] == p)
  }

  lemma {:induction false} ByIdMoved(files: seq<File>, id: Id, to: Path, x: Id)
    ensures ById(MoveFiles(files, id, to), x) ==
            match ById(files, x) case None => None case Some(f) => Some(MoveFile(f, id, to))
  {
    if files != [] {
      var n := |files| - 1;
      ByIdMoved(files[..n], id, to, x);
      assert MoveFiles(files, id, to)[..n] == MoveFiles(files[..n], id, to);
    }
  }

  lemma PositionsMoved(files: seq<File>, used: set<Id>, id: Id, to: Path)
    requires id in used && ById(files, id).Some?
    ensures Positions(MoveFiles(files, id, to), used) == Positions(files, used)[id := to]
  {
    hide ById, MoveFiles;
    forall x | x in used
      ensures ById(MoveFiles(files, id, to), x).Some? == ById(files, x).Some?
      ensures ById(files, x).Some? ==>
        ById(MoveFiles(files, id, to), x).value.path == (if x == id then to else ById(files, x).value.path)
    {
      ByIdMoved(files, id, to, x);
    }
  }

  lemma MoveInverse(occupied: map<Path, Id>, at: map<Id, Path>, id: Id, to: Path)
    requires Inverse(occupied, at) && id in at && to !in occupied
    ensures Inverse((occupied - {at[id]})[to := id], at[id := to])
  {
    var after, moved := (occupied - {at[id]})[to := id], at[id := to];
    forall x | x in moved
      ensures moved[x] in after && after[moved[x]] == x
    {
      if x != id {
        assert at[x] != at[id] && at[x] != to;
      }
    }
  }

  /** `new Map` over the claimed files. */
  function OccupiedBy(files: seq<File>, used: set<Id>): map<Path, Id> {
    if files == [] then map[]
    else
      var last := files[|files| - 1];
      var before := OccupiedBy(files[..|files| - 1], used);
      if last.id.Some? && last.id.value in used then before[last.path := last.id.value] else before
  }

  lemma {:induction false} OccupiedInverse(files: seq<File>, used: set<Id>)
    requires DistinctFileIds(files) && Injective(Positions(files, used))
    ensures Inverse(OccupiedBy(files, used), Positions(files, used))
  {
    if files != [] {
      var n := |files| - 1;
      PositionsLast(files, used);
      var at, prior := Positions(files, used), Positions(files[..n], used);
      InjectivePrior(at, prior, files[n]);
      OccupiedInverse(files[..n], used);
      if files[n].id.Some? && files[n].id.value in used {
        InverseExtended(OccupiedBy(files[..n], used), prior, files[n].id.value, files[n].path);
      }
    }
  }

  lemma InjectivePrior(at: map<Id, Path>, prior: map<Id, Path>, last: File)
    requires Injective(at)
    requires at == prior || (last.id.Some? && last.id.value !in prior && at == prior[last.id.value := last.path])
    ensures Injective(prior)
  {
    forall a, b | a in prior && b in prior && prior[a] == prior[b]
      ensures a == b
    {
      assert at[a] == prior[a] && at[b] == prior[b];
    }
  }

  lemma InverseExtended(occupied: map<Path, Id>, at: map<Id, Path>, id: Id, p: Path)
    requires Inverse(occupied, at) && id !in at && Injective(at[id := p])
    ensures Inverse(occupied[p := id], at[id := p])
  {
    var after := at[id := p];
    forall x | x in at
      ensures at[x] != p
    {
      assert after[x] == at[x] && after[id] == p;
    }
  }

  lemma PositionsLast(files: seq<File>, used: set<Id>)
    requires DistinctFileIds(files) && files != []
    ensures var last, prior := files[|files| - 1], Positions(files[..|files| - 1], used);
      if last.id.Some? && last.id.value in used
      then last.id.value !in prior && Positions(files, used) == prior[last.id.value := last.path]
      else Positions(files, used) == prior
  {
    var n := |files| - 1;
    var last := files[n];
    if last.id.Some? {
      assert forall f :: f in files[..n] ==> f.id != last.id;
      assert ById(files[..n], last.id.value).None?;
    }
  }

  // -------------------------------------------------------------------- steps

  /** `moveTo` */
  function MoveTo(s: MoveState, item: Relocation, to: Path): MoveState
    requires ById(s.work.files, item.id).Some?
  {
    var from := ById(s.work.files, item.id).value.path;
    MoveState(MoveRecord(s.work, item.id, item.revision, to), s.pending, (s.occupied - {from})[to := item.id])
  }

  /** No other identified file stands where `op` moves a file. */
  ghost predicate Unoccupied(t: Tree, op: Op) {
    op.Move? ==> forall f :: f in t.files && f.id.Some? && f.path == op.newPath ==> f.id == Some(op.target)
  }

  /** From position `n` on, every operation of the batch meets a tree for which `p` holds. */
  ghost predicate AlwaysFrom(t: Tree, ops: seq<Op>, n: nat, p: (Tree, Op) -> bool) {
    forall k {:trigger Run(t, ops[..k])} :: n <= k < |ops| ==> p(Run(t, ops[..k]), ops[k])
  }

  lemma AlwaysFromStep(t: Tree, ops: seq<Op>, n: nat, op: Op, p: (Tree, Op) -> bool)
    requires AlwaysFrom(t, ops, n, p) && p(Run(t, ops), op)
    ensures AlwaysFrom(t, ops + [op], n, p)
  {
    var all := ops + [op];
    forall k | n <= k < |all|
      ensures p(Run(t, all[..k]), all[k])
    {
      assert all[..k] == if k < |ops| then ops[..k] else ops;
    }
  }

  lemma MoveToUnoccupied(t: Tree, s: MoveState, used: set<Id>, item: Relocation, to: Path)
    requires Settling(t, s.work, used) && Inverse(s.occupied, Positions(s.work.files, used)) && to !in s.occupied
    ensures Unoccupied(Run(t, s.work.ops), Move(Minted(s.work.next), item.id, item.revision, to))
  {
    KeepMembers(s.work.files, used);
    forall f | f in KeepFiles(s.work.files, used) && f.id.Some?
      ensures f.path != to
    {
      ByIdUnique(s.work.files, f);
      assert f.id.value in Positions(s.work.files, used);
    }
  }

  /** Every pending item has its file, at the revision it was matched with. */
  ghost predicate Backed(w: Work, used: set<Id>, items: seq<Relocation>) {
    forall i :: 0 <= i < |items| ==>
      items[i].id in used && ById(w.files, items[i].id).Some?
      && ById(w.files, items[i].id).value.revision == Some(items[i].revision) && OldPath(items[i].to, w.next)
  }

  lemma MoveToSettling(t: Tree, s: MoveState, used: set<Id>, item: Relocation, to: Path, items: seq<Relocation>)
    requires Settling(t, s.work, used) && Backed(s.work, used, items) && Backed(s.work, used, [item])
    requires OldPath(to, s.work.next + 1) && ById(s.work.files, item.id).Some?
    ensures var r := MoveTo(s, item, to);
      && Settling(t, r.work, used)
      && Backed(r.work, used, items)
      && Positions(r.work.files, used) == Positions(s.work.files, used)[item.id := to]
  {
    assert [item][0] == item;
    var f := ById(s.work.files, item.id).value;
    assert HasFile(Tree(s.work.files, s.work.folders), item.id, item.revision);
    MoveRecordSettling(t, s.work, used, item.id, item.revision, to);
    PositionsMoved(s.work.files, used, item.id, to);
    forall i | 0 <= i < |items|
      ensures ById(MoveFiles(s.work.files, item.id, to), items[i].id).Some?
      ensures ById(MoveFiles(s.work.files, item.id, to), items[i].id).value.revision == Some(items[i].revision)
    {
      ByIdMoved(s.work.files, item.id, to, items[i].id);
    }
  }

  // ------------------------------------------------------------------- chains

  /** The items from a start to a free destination, or to a repeated identity. */
  datatype Chain = Chain(items: seq<Relocation>, again: Option<Id>)

  ghost predicate DistinctItems(items: seq<Relocation>) {
    forall i, j :: 0 <= i < j < |items| ==> items[i].id != items[j].id
  }

  ghost predicate Linked(s: MoveState, items: seq<Relocation>) {
    && DistinctItems(items)
    && (forall i :: 0 <= i < |items| ==> items[i].id in s.pending && s.pending[items[i].id] == items[i])
    && (forall i :: 0 <= i < |items| - 1 ==> items[i].to in s.occupied && s.occupied[items[i].to] == items[i + 1].id)
  }

  ghost predicate ValidChain(s: MoveState, c: Chain) {
    && c.items != []
    && Linked(s, c.items)
    && var last := c.items[|c.items| - 1];
    && match c.again
       case None => last.to !in s.occupied || s.occupied[last.to] == last.id
       case Some(id) =>
         && last.to in s.occupied && s.occupied[last.to] == id && id != last.id
         && exists j :: 0 <= j < |c.items| && c.items[j].id == id
  }

  /** A destination is held by a file that is not waiting to move. */
  ghost predicate Walled(s: MoveState) {
    exists id :: id in s.pending && s.pending[id].to in s.occupied
                 && s.occupied[s.pending[id].to] !in s.pending && s.occupied[s.pending[id].to] != id
  }

  ghost predicate Keyed(pending: map<Id, Relocation>) {
    forall id :: id in pending ==> pending[id].id == id
  }

  method FollowChain(s: MoveState, start: Id) returns (r: Result<Chain>)
    requires start in s.pending && Keyed(s.pending)
    ensures r.Ok? ==> ValidChain(s, r.value) && r.value.items[0].id == start
    ensures r.Thrown? ==> Walled(s)
  {
    hide ItemIds;
    var items: seq<Relocation> := [];
    var seen: set<Id> := {};
    var id := start;
    NothingLinked(s);
    while true
      invariant Linked(s, items)
      invariant seen == ItemIds(items)
      invariant items == [] ==> id == start
      invariant items != [] ==>
        && items[0].id == start
        && var last := items[|items| - 1];
        && last.to in s.occupied && s.occupied[last.to] == id && id != last.id
      decreases s.pending.Keys - seen
    {
      if id !in s.pending {
        return Thrown("A file move destination belongs to an unchanged independent file");
      }
      var item := s.pending[id];
      if id in seen {
        SeenIs(items, id);
        return Ok(Chain(items, Some(id)));
      }
      ghost var before := items;
      LinkedStep(s, items, item);
      items := items + [item];
      SeenStep(before, item);
      seen := seen + {id};
      if item.to !in s.occupied || s.occupied[item.to] == id {
        return Ok(Chain(items, None));
      }
      id := s.occupied[item.to];
    }
  }

  lemma LinkedStep(s: MoveState, items: seq<Relocation>, item: Relocation)
    requires Linked(s, items) && item.id in s.pending && s.pending[item.id] == item && item.id !in ItemIds(items)
    requires items != [] ==>
               var last := items[|items| - 1]; last.to in s.occupied && s.occupied[last.to] == item.id
    ensures Linked(s, items + [item])
  {
    var longer := items + [item];
    assert forall i :: 0 <= i < |items| ==> longer[i] == items[i] && items[i].id in ItemIds(items);
  }

  lemma NothingLinked(s: MoveState)
    ensures Linked(s, []) && ItemIds([]) == {}
  {
  }

  lemma SeenIs(items: seq<Relocation>, id: Id)
    requires id in ItemIds(items)
    ensures exists j :: 0 <= j < |items| && items[j].id == id
  {
  }

  lemma SeenStep(items: seq<Relocation>, item: Relocation)
    ensures ItemIds(items + [item]) == ItemIds(items) + {item.id}
  {
    var longer := items + [item];
    assert forall i :: 0 <= i < |items| ==> longer[i] == items[i];
    assert longer[|items|] == item;
  }

  /** Free the chain from its end (`chain.reverse()`). */
  ghost predicate Freeable(s: MoveState, used: set<Id>, items: seq<Relocation>) {
    var at := Positions(s.work.files, used);
    && items != []
    && Inverse(s.occupied, at)
    && (forall i :: 0 <= i < |items| ==> items[i].id in at)
    && items[|items| - 1].to !in s.occupied
    && (forall i :: 0 <= i < |items| - 1 ==> at[items[i + 1].id] == items[i].to)
    && (forall i, j :: 0 <= i < j < |items| ==> items[i].to != items[j].to)
  }

  ghost function Landed(at: map<Id, Path>, items: seq<Relocation>): map<Id, Path> {
    if items == [] then at else Landed(at, items[1..])[items[0].id := items[0].to]
  }

  ghost function ItemIds(items: seq<Relocation>): set<Id> {
    set i | 0 <= i < |items| :: items[i].id
  }

  lemma {:induction false} LandedAt(at: map<Id, Path>, items: seq<Relocation>)
    requires DistinctItems(items)
    ensures Landed(at, items).Keys == at.Keys + ItemIds(items)
    ensures forall i :: 0 <= i < |items| ==> Landed(at, items)[items[i].id] == items[i].to
    ensures forall id :: id in at && id !in ItemIds(items) ==> Landed(at, items)[id] == at[id]
  {
    if items != [] {
      LandedAt(at, items[1..]);
      assert items == [items[0]] + items[1..];
      ItemIdsCons(items[0], items[1..]);
      forall i | 0 <= i < |items|
        ensures Landed(at, items)[items[i].id] == items[i].to
      {
        if i > 0 {
          assert items[1..][i - 1] == items[i];
        }
      }
    }
  }

  /** The items from `i` on have been put in place. */
  ghost predicate Midway(t: Tree, s: MoveState, used: set<Id>, items: seq<Relocation>, i: nat, at: MoveState)
    requires i <= |items|
  {
    && Settling(t, at.work, used) && Backed(at.work, used, items)
    && Positions(at.work.files, used) == Landed(Positions(s.work.files, used), items[i..])
    && at.pending == s.pending - ItemIds(items[i..])
    && SameRecords(s.work, at.work)
  }

  /** When the chain is free at its end: no file was in the way, and the next destination is free again. */
  ghost predicate MidwayFree(t: Tree, s: MoveState, used: set<Id>, items: seq<Relocation>, i: nat, at: MoveState)
    requires i <= |items|
  {
    && Inverse(at.occupied, Positions(at.work.files, used))
    && (i > 0 ==> items[i - 1].to !in at.occupied)
    && |at.work.ops| == |s.work.ops| + |items| - i
    && AlwaysFrom(t, at.work.ops, |s.work.ops|, Unoccupied)
  }

  function Place(at: MoveState, item: Relocation): MoveState
    requires ById(at.work.files, item.id).Some?
  {
    var moved := if ById(at.work.files, item.id).value.path != item.to then MoveTo(at, item, item.to) else at;
    moved.(pending := moved.pending - {item.id})
  }

  lemma SameRecordsMove(a: Work, b: Work, id: Id, revision: Id, to: Path)
    requires SameRecords(a, b)
    ensures SameRecords(a, MoveRecord(b, id, revision, to))
  {
    var c := MoveRecord(b, id, revision, to);
    assert c.ops[..|a.ops|] == b.ops[..|a.ops|];
    OneDrawn(b, c, c.ops[|b.ops|]);
    DrawnTransitive(a, b, c);
    hide Drawn;
  }

  lemma ItemIdsCons(item: Relocation, rest: seq<Relocation>)
    ensures ItemIds([item] + rest) == {item.id} + ItemIds(rest)
  {
    var all := [item] + rest;
    forall id | id in {item.id} + ItemIds(rest)
      ensures id in ItemIds(all)
    {
      if id == item.id {
        assert all[0] == item;
      } else {
        var i :| 0 <= i < |rest| && rest[i].id == id;
        assert all[i + 1] == rest[i];
      }
    }
  }

  lemma MidwayStep(t: Tree, s: MoveState, used: set<Id>, items: seq<Relocation>, i: nat, at: MoveState)
    requires i < |items| && Midway(t, s, used, items, i + 1, at)
    ensures ById(at.work.files, items[i].id).Some?
    ensures Midway(t, s, used, items, i, Place(at, items[i]))
  {
    PlaceSettling(t, at, used, items, i);
    LandedStep(Positions(s.work.files, used), items, i);
    PendingStep(s.pending, items, i);
    SameRecordsMove(s.work, at.work, items[i].id, items[i].revision, items[i].to);
  }

  lemma PlaceSettling(t: Tree, at: MoveState, used: set<Id>, items: seq<Relocation>, i: nat)
    requires i < |items| && Settling(t, at.work, used) && Backed(at.work, used, items)
    ensures ById(at.work.files, items[i].id).Some?
    ensures var r := Place(at, items[i]);
      && Settling(t, r.work, used)
      && Backed(r.work, used, items)
      && Positions(r.work.files, used) == Positions(at.work.files, used)[items[i].id := items[i].to]
      && r.pending == at.pending - {items[i].id}
      && (r.work == at.work || r.work == MoveRecord(at.work, items[i].id, items[i].revision, items[i].to))
  {
    var item := items[i];
    var here := Positions(at.work.files, used);
    assert item.id in here && here[item.id] == ById(at.work.files, item.id).value.path;
    if here[item.id] == item.to {
      assert here == here[item.id := item.to];
    } else {
      MoveToSettling(t, at, used, item, item.to, items);
    }
  }

  lemma LandedStep(at: map<Id, Path>, items: seq<Relocation>, i: nat)
    requires i < |items|
    ensures Landed(at, items[i..]) == Landed(at, items[i + 1..])[items[i].id := items[i].to]
  {
    assert items[i..][1..] == items[i + 1..];
  }

  lemma PendingStep(pending: map<Id, Relocation>, items: seq<Relocation>, i: nat)
    requires i < |items|
    ensures pending - ItemIds(items[i + 1..]) - {items[i].id} == pending - ItemIds(items[i..])
  {
    assert items[i..] == [items[i]] + items[i + 1..];
    ItemIdsCons(items[i], items[i + 1..]);
  }

  lemma MidwayFreeStep(t: Tree, s: MoveState, used: set<Id>, items: seq<Relocation>, i: nat, at: MoveState)
    requires i < |items| && Midway(t, s, used, items, i + 1, at) && MidwayFree(t, s, used, items, i + 1, at)
    requires Freeable(s, used, items) && DistinctItems(items)
    ensures ById(at.work.files, items[i].id).Some?
    ensures MidwayFree(t, s, used, items, i, Place(at, items[i]))
  {
    hide Settling, Inverse, AlwaysFrom, Positions, Backed, SameRecords, Freeable, Landed, Place, Unoccupied, ById, DistinctItems;
    var item := items[i];
    var here := Positions(at.work.files, used);
    StillHere(t, s, used, items, i, at);
    PositionsById(at.work.files, used, item.id);
    NextIsFree(t, s, used, items, i, at);
    FreeMove(t, at, used, item, |s.work.ops|);
  }

  lemma NextIsFree(t: Tree, s: MoveState, used: set<Id>, items: seq<Relocation>, i: nat, at: MoveState)
    requires i < |items| && Midway(t, s, used, items, i + 1, at) && MidwayFree(t, s, used, items, i + 1, at)
    ensures items[i].to !in at.occupied && |s.work.ops| <= |at.work.ops|
    ensures AlwaysFrom(t, at.work.ops, |s.work.ops|, Unoccupied) && Inverse(at.occupied, Positions(at.work.files, used))
    ensures |at.work.ops| == |s.work.ops| + |items| - (i + 1)
  {
    hide Settling, Inverse, AlwaysFrom, Positions, Backed, Landed;
  }

  /** An item not yet reached stands where it stood, and what it leaves is where the previous item goes. */
  lemma StillHere(t: Tree, s: MoveState, used: set<Id>, items: seq<Relocation>, i: nat, at: MoveState)
    requires i < |items| && Midway(t, s, used, items, i + 1, at)
    requires Freeable(s, used, items) && DistinctItems(items)
    ensures var here := Positions(at.work.files, used);
      && items[i].id in here && here[items[i].id] == Positions(s.work.files, used)[items[i].id]
      && (i > 0 ==> here[items[i].id] == items[i - 1].to && items[i - 1].to != items[i].to)
  {
    NotYetLanded(Positions(s.work.files, used), items, i);
  }

  lemma FreeMove(t: Tree, at: MoveState, used: set<Id>, item: Relocation, n: nat)
    requires Settling(t, at.work, used) && n <= |at.work.ops|
    requires item.id in Positions(at.work.files, used) && item.to !in at.occupied
    requires Inverse(at.occupied, Positions(at.work.files, used)) && AlwaysFrom(t, at.work.ops, n, Unoccupied)
    ensures var here, r := Positions(at.work.files, used), Place(at, item);
      && r.occupied == (at.occupied - {here[item.id]})[item.to := item.id]
      && Inverse(r.occupied, Positions(r.work.files, used))
      && |r.work.ops| == |at.work.ops| + 1
      && AlwaysFrom(t, r.work.ops, n, Unoccupied)
  {
    hide Settling, AlwaysFrom, Positions, Inverse, Unoccupied, MoveFiles;
    var here := Positions(at.work.files, used);
    PositionsById(at.work.files, used, item.id);
    MoveToUnoccupied(t, at, used, item, item.to);
    AlwaysFromStep(t, at.work.ops, n, Move(Minted(at.work.next), item.id, item.revision, item.to), Unoccupied);
    MoveInverse(at.occupied, here, item.id, item.to);
    PositionsMoved(at.work.files, used, item.id, item.to);
    InverseAt(at.occupied, here, item.id);
  }

  lemma PositionsById(files: seq<File>, used: set<Id>, id: Id)
    requires id in Positions(files, used)
    ensures id in used && ById(files, id).Some? && Positions(files, used)[id] == ById(files, id).value.path
  {
  }

  lemma InverseAt(occupied: map<Path, Id>, at: map<Id, Path>, id: Id)
    requires Inverse(occupied, at) && id in at
    ensures at[id] in occupied
  {
  }

  lemma NotYetLanded(at: map<Id, Path>, items: seq<Relocation>, i: nat)
    requires i < |items| && DistinctItems(items) && items[i].id in at
    ensures items[i].id in Landed(at, items[i + 1..]) && Landed(at, items[i + 1..])[items[i].id] == at[items[i].id]
  {
    var rest := items[i + 1..];
    assert forall k :: 0 <= k < |rest| ==> rest[k] == items[i + 1 + k];
    LandedAt(at, rest);
  }

  method Resolve(ghost t: Tree, s: MoveState, ghost used: set<Id>, items: seq<Relocation>) returns (r: Result<MoveState>)
    requires Settling(t, s.work, used) && Backed(s.work, used, items) && DistinctItems(items)
    ensures r.Ok? ==> Midway(t, s, used, items, 0, r.value)
    ensures Freeable(s, used, items) ==> r.Ok? && MidwayFree(t, s, used, items, 0, r.value)
  {
    var at := s;
    var i := |items|;
    ghost var free := Freeable(s, used, items);
    MidwayStart(t, s, used, items);
    while i > 0
      invariant 0 <= i <= |items|
      invariant Midway(t, s, used, items, i, at)
      invariant free ==> MidwayFree(t, s, used, items, i, at)
    {
      i := i - 1;
      var item := items[i];
      if item.to in at.occupied && at.occupied[item.to] != item.id {
        return Thrown("File move destinations could not be freed safely");
      }
      MidwayStep(t, s, used, items, i, at);
      if free {
        MidwayFreeStep(t, s, used, items, i, at);
      }
      at := Place(at, item);
    }
    return Ok(at);
  }

  lemma MidwayStart(t: Tree, s: MoveState, used: set<Id>, items: seq<Relocation>)
    requires Settling(t, s.work, used) && Backed(s.work, used, items)
    ensures Midway(t, s, used, items, |items|, s)
    ensures Freeable(s, used, items) ==> MidwayFree(t, s, used, items, |items|, s)
  {
    assert items[|items|..] == [];
    assert s.pending - ItemIds([]) == s.pending;
    NoneDrawn(s.work, s.work);
  }

  /** Only files moved: the batch grew, nothing else about the records changed. */
  ghost predicate SameRecords(before: Work, after: Work) {
    && |before.ops| <= |after.ops| && after.ops[..|before.ops|] == before.ops
    && (forall k :: |before.ops| <= k < |after.ops| ==> after.ops[k].Move?)
    && |after.files| == |before.files|
    && (forall i :: 0 <= i < |after.files| ==> after.files[i] == before.files[i].(path := after.files[i].path))
    && (forall i :: 0 <= i < |after.files| && after.files[i].id.None? ==> after.files[i] == before.files[i])
    && after.folders == before.folders
    && after.deletedAt == before.deletedAt
    && before.next <= after.next
    && Drawn(before, after)
  }
}
