/**
 `buildOperationBatch` (plugin/src/operation-plan.ts:5-41): from a server tree
 and a desired manifest to a batch, and what replaying that batch yields.
 */
module BatchPlan {
  import opened Wrappers
  import opened Paths
  import opened OperationModel
  import opened PlanWork
  import opened FolderPlan
  import opened FolderTurns
  import opened FileMatching
  import opened FileMoves
  import opened FileEdits
  import opened FilePlan
  import opened Namespace
  import opened Making
  import opened BatchFacts

  // -------------------------------------------------------------- destinations

  /** A path and the identity the shared plan wants there. */
  datatype Wish = Wish(path: Path, id: Id)

  /** A folder-move intent. */
  datatype Rename = Rename(from: Path, to: Path)

  function WishedPaths(wishes: seq<Wish>): map<Id, Path> {
    if wishes == [] then map[]
    else
      var last := wishes[|wishes| - 1];
      WishedPaths(wishes[..|wishes| - 1])[last.id := last.path]
  }

  function WishedIds(wishes: seq<Wish>): map<Path, Id> {
    if wishes == [] then map[]
    else
      var last := wishes[|wishes| - 1];
      WishedIds(wishes[..|wishes| - 1])[last.path := last.id]
  }

  /** The path after every folder-move intent, in order. */
  function Renamed(path: Path, renames: seq<Rename>): Path {
    if renames == [] then path
    else
      var last := renames[|renames| - 1];
      var before := Renamed(path, renames[..|renames| - 1]);
      if last.from != [] && before == last.from then last.to
      else if Under(before, last.from) then Rebase(before, last.from, last.to)
      else before
  }

  function RenamedPaths(folders: seq<Folder>, renames: seq<Rename>): map<Id, Path> {
    if folders == [] then map[]
    else
      var last := folders[|folders| - 1];
      RenamedPaths(folders[..|folders| - 1], renames)[last.id := Renamed(last.path, renames)]
  }

  function Destinations(wishes: seq<Wish>, renames: seq<Rename>, folders: seq<Folder>): map<Id, Path> {
    if wishes != [] then WishedPaths(wishes) else RenamedPaths(folders, renames)
  }

  /** Where no identity is wished twice, each has the path wished for it. */
  lemma {:induction false} WishedAt(wishes: seq<Wish>, i: nat)
    requires i < |wishes| && forall j, k :: 0 <= j < k < |wishes| ==> wishes[j].id != wishes[k].id
    ensures wishes[i].id in WishedPaths(wishes) && WishedPaths(wishes)[wishes[i].id] == wishes[i].path
  {
    if i < |wishes| - 1 {
      WishedAt(wishes[..|wishes| - 1], i);
    }
  }

  lemma {:induction false} WishedOnly(wishes: seq<Wish>)
    ensures WishedPaths(wishes).Keys == WishIds(wishes)
  {
    if wishes != [] {
      var init := wishes[..|wishes| - 1];
      WishedOnly(init);
      assert WishIds(wishes) == WishIds(init) + {wishes[|wishes| - 1].id};
    }
  }

  lemma {:induction false} WishedOld(wishes: seq<Wish>, next: nat)
    requires forall i :: 0 <= i < |wishes| ==> OldPath(wishes[i].path, next)
    ensures forall id :: id in WishedPaths(wishes) ==> OldPath(WishedPaths(wishes)[id], next)
  {
    if wishes != [] {
      WishedOld(wishes[..|wishes| - 1], next);
    }
  }

  lemma {:induction false} RenamedOld(path: Path, renames: seq<Rename>, next: nat)
    requires OldPath(path, next) && forall i :: 0 <= i < |renames| ==> OldPath(renames[i].to, next)
    ensures OldPath(Renamed(path, renames), next)
  {
    if renames != [] {
      var last := renames[|renames| - 1];
      var before := Renamed(path, renames[..|renames| - 1]);
      RenamedOld(path, renames[..|renames| - 1], next);
      if Under(before, last.from) {
        RebaseOld(before, last.from, last.to, next);
      }
    }
  }

  lemma {:induction false} RenamedPathsOld(folders: seq<Folder>, renames: seq<Rename>, next: nat)
    requires forall d :: d in folders ==> OldPath(d.path, next)
    requires forall i :: 0 <= i < |renames| ==> OldPath(renames[i].to, next)
    ensures forall id :: id in RenamedPaths(folders, renames) ==> OldPath(RenamedPaths(folders, renames)[id], next)
  {
    if folders != [] {
      RenamedPathsOld(folders[..|folders| - 1], renames, next);
      RenamedOld(folders[|folders| - 1].path, renames, next);
    }
  }

  // ------------------------------------------------------------------- request

  /** Everything but the tree; `start` is the state of the uuid source. */
  datatype Request = Request(
    entries: seq<Entry>, folders: seq<Path>, wishes: seq<Wish>, renames: seq<Rename>,
    preserve: set<Path>, creations: Creations, tombstones: Tombstones, start: nat)

  /** The uuid source never repeats a value that occurs in a path. */
  ghost predicate Unused(t: Tree, q: Request) {
    && (forall f :: f in t.files ==> OldPath(f.path, q.start))
    && (forall d :: d in t.folders ==> OldPath(d.path, q.start))
    && (forall i :: 0 <= i < |q.entries| ==> OldPath(q.entries[i].path, q.start))
    && (forall i :: 0 <= i < |q.wishes| ==> OldPath(q.wishes[i].path, q.start))
    && (forall i :: 0 <= i < |q.renames| ==> OldPath(q.renames[i].to, q.start))
  }

  function EntryIds(entries: seq<Entry>): set<Id> {
    set i | 0 <= i < |entries| && entries[i].id.Some? :: entries[i].id.value
  }

  function WishIds(wishes: seq<Wish>): set<Id> {
    set i | 0 <= i < |wishes| :: wishes[i].id
  }

  function PreservedIds(folders: seq<Folder>, preserve: set<Path>): set<Id> {
    set d | d in folders && d.path in preserve :: d.id
  }

  // ------------------------------------------------------------------- folders

  /** The file is still there, wherever it has been carried. */
  ghost predicate FileLeft(files: seq<File>, f: File) {
    exists g :: g in files && g == f.(path := g.path)
  }

  ghost predicate FolderLeft(folders: seq<Folder>, d: Folder) {
    exists e :: e in folders && e == d.(path := e.path)
  }

  /** The file comes from there, wherever it has been carried. */
  ghost predicate FileFrom(files: seq<File>, g: File) {
    exists f :: f in files && g == f.(path := g.path)
  }

  ghost predicate FolderFrom(folders: seq<Folder>, e: Folder) {
    exists d :: d in folders && e == d.(path := e.path)
  }

  /**
   What is settled comes from the tree, and of the tree nothing is gone but what
   stood in the way of a moving folder: no file that an entry names or that has
   no identity, no folder that is wished for or preserved.
   */
  ghost predicate Spared(t: Tree, q: Request, w: Work) {
    var goals := Destinations(q.wishes, q.renames, t.folders);
    && (forall g :: g in w.files ==> FileFrom(t.files, g))
    && (forall e :: e in w.folders ==> FolderFrom(t.folders, e))
    && (forall f :: f in t.files && (f.id.None? || NamedByEntry(q, f.id) || !InTheWay(t.folders, goals, f.path)) ==> FileLeft(w.files, f))
    && (forall d :: d in t.folders && (WishedFor(q, d.id) || d.path in q.preserve || !InTheWay(t.folders, goals, d.path))
                    ==> FolderLeft(w.folders, d))
  }

  ghost predicate NamedByEntry(q: Request, id: Option<Id>) {
    exists i :: 0 <= i < |q.entries| && q.entries[i].id == id
  }

  ghost predicate WishedFor(q: Request, id: Id) {
    exists i :: 0 <= i < |q.wishes| && q.wishes[i].id == id
  }

  /** Relocation keeps every file and folder but for its path. */
  lemma Carried(before: Work, after: Work)
    requires SameEntities(before, after)
    ensures forall f :: f in before.files ==> FileLeft(after.files, f)
    ensures forall d :: d in before.folders ==> FolderLeft(after.folders, d)
  {
    forall f | f in before.files
      ensures FileLeft(after.files, f)
    {
      var i :| 0 <= i < |before.files| && before.files[i] == f;
      assert after.files[i] in after.files;
    }
    forall d | d in before.folders
      ensures FolderLeft(after.folders, d)
    {
      var i :| 0 <= i < |before.folders| && before.folders[i] == d;
      assert after.folders[i] in after.folders;
    }
  }

  lemma CarriedFrom(before: Work, after: Work)
    requires SameEntities(before, after)
    ensures forall g :: g in after.files ==> FileFrom(before.files, g)
    ensures forall e :: e in after.folders ==> FolderFrom(before.folders, e)
  {
    forall g | g in after.files
      ensures FileFrom(before.files, g)
    {
      var i :| 0 <= i < |after.files| && after.files[i] == g;
      assert before.files[i] in before.files;
    }
    forall e | e in after.folders
      ensures FolderFrom(before.folders, e)
    {
      var i :| 0 <= i < |after.folders| && after.folders[i] == e;
      assert before.folders[i] in before.folders;
    }
  }

  lemma FromMore(a: Work, b: Work, c: Work)
    requires (forall f :: f in b.files ==> f in a.files) && (forall d :: d in b.folders ==> d in a.folders)
    requires (forall g :: g in c.files ==> FileFrom(b.files, g)) && (forall e :: e in c.folders ==> FolderFrom(b.folders, e))
    ensures (forall g :: g in c.files ==> FileFrom(a.files, g)) && (forall e :: e in c.folders ==> FolderFrom(a.folders, e))
  {
    forall g | g in c.files
      ensures FileFrom(a.files, g)
    {
      var f :| f in b.files && g == f.(path := g.path);
    }
    forall e | e in c.folders
      ensures FolderFrom(a.folders, e)
    {
      var d :| d in b.folders && e == d.(path := e.path);
    }
  }

  lemma SparedHolds(t: Tree, q: Request, retired: Work, settled: Work)
    requires OnlyUnwantedGone(Unplanned(t, q), retired, EntryIds(q.entries), WishIds(q.wishes), PreservedIds(t.folders, q.preserve))
    requires GoneFromWay(Unplanned(t, q), retired, Destinations(q.wishes, q.renames, t.folders)) && SameEntities(retired, settled)
    ensures Spared(t, q, settled)
  {
    hide Destinations, InTheWay, Unidentified, SameEntities, FileLeft, FolderLeft, FileFrom, FolderFrom;
    Carried(retired, settled);
    CarriedFrom(retired, settled);
    FromMore(Unplanned(t, q), retired, settled);
  }

  /** The folders stand where they belong and only what nobody wants is gone. */
  ghost predicate FoldersSettled(t: Tree, q: Request, w: Work) {
    && Spared(t, q, w)
    && Consistent(t, w) && w.next >= q.start && Serials(w.ops, q.start, w.next)
    && Unidentified(w.files) == Unidentified(t.files)
    && var destinations := Destinations(q.wishes, q.renames, t.folders);
       (forall d :: d in w.folders && d.id in destinations ==> d.path == destinations[d.id])
  }

  /** The planner's arrays before anything is planned. */
  function Unplanned(t: Tree, q: Request): Work {
    Work([], t.files, t.folders, map[], q.start)
  }

  /** Nothing stands on the destination of a moving folder that the retirement loop would take away. */
  ghost predicate Unretired(t: Tree, q: Request) {
    var goals := Destinations(q.wishes, q.renames, t.folders);
    forall d :: d in t.folders && Displaced(d, goals) ==>
      LeftAlone(Unplanned(t, q), goals[d.id], goals, EntryIds(q.entries), WishIds(q.wishes), PreservedIds(t.folders, q.preserve))
  }

  /**
   The folders that move keep out of each other's way, and a folder on the
   destination of another is itself wanted under its own identity.
   */
  ghost predicate Movable(t: Tree, q: Request) {
    var goals := Destinations(q.wishes, q.renames, t.folders);
    && Separate(t.files, t.folders, goals)
    && forall d, e :: d in t.folders && e in t.folders && Displaced(d, goals) && Displaced(e, goals) && e.path == goals[d.id]
                      ==> e.id in WishIds(q.wishes) || e.id in PreservedIds(t.folders, q.preserve)
  }

  /** Every folder of the tree is where the request wants it. */
  ghost predicate Undisplaced(t: Tree, q: Request) {
    NoneDisplaced(t.folders, Destinations(q.wishes, q.renames, t.folders))
  }

  lemma UndisplacedMovable(t: Tree, q: Request)
    requires Undisplaced(t, q)
    ensures Movable(t, q) && Relocated(Unplanned(t, q), Destinations(q.wishes, q.renames, t.folders)) == Ok(Unplanned(t, q))
  {
    var goals := Destinations(q.wishes, q.renames, t.folders);
    hide Destinations;
    SettledTurns(Unplanned(t, q), goals, |t.folders| * 3 + 1);
  }

  lemma MovableUnretired(t: Tree, q: Request)
    requires Movable(t, q)
    ensures Unretired(t, q)
  {
    hide Destinations, OwnSubtree;
    var goals := Destinations(q.wishes, q.renames, t.folders);
    forall d | d in t.folders && Displaced(d, goals)
      ensures LeftAlone(Unplanned(t, q), goals[d.id], goals, EntryIds(q.entries), WishIds(q.wishes), PreservedIds(t.folders, q.preserve))
    {
      assert FreeGoal(t.folders, d, goals) && FilesAside(t.files, t.folders, d, goals);
      forall e | e in t.folders && Misplaced(e, goals[d.id], goals)
        ensures e.id in WishIds(q.wishes) || e.id in PreservedIds(t.folders, q.preserve)
      {
        assert e.id != d.id ==> Displaced(e, goals);
      }
    }
  }

  method SettleFolders(t: Tree, q: Request) returns (r: Result<Work>)
    requires DistinctIds(t) && Unused(t, q)
    ensures r.Ok? ==> FoldersSettled(t, q, r.value)
    ensures Unretired(t, q) ==> r == Relocated(Unplanned(t, q), Destinations(q.wishes, q.renames, t.folders))
    ensures Movable(t, q) ==> Unretired(t, q) && r.Ok?
  {
    hide Proper, Destinations, OldPath, Drawn, Serials, Movable, LeftAlone, Relocated, Separate, Unidentified, Spared, GoneFromWay;
    var w := Unplanned(t, q);
    StartConsistent(t, q);
    var destinations := Destinations(q.wishes, q.renames, t.folders);
    DestinationsOld(t, q);
    if Movable(t, q) {
      MovableUnretired(t, q);
      MovableSettles(t, q, destinations);
    }
    var retired :- Retire(t, w, destinations, EntryIds(q.entries), WishIds(q.wishes), PreservedIds(t.folders, q.preserve));
    LaterPaths(destinations, q.start, retired.next);
    var settled :- RelocateAll(t, retired, destinations);
    UnidentifiedSame(settled.files, retired.files);
    SparedHolds(t, q, retired, settled);
    DrawnTransitive(w, retired, settled);
    AllDrawn(w, settled);
    return Ok(settled);
  }

  lemma MovableSettles(t: Tree, q: Request, goals: map<Id, Path>)
    requires DistinctIds(t) && Unused(t, q) && Movable(t, q) && goals == Destinations(q.wishes, q.renames, t.folders)
    ensures Relocated(Unplanned(t, q), goals).Ok?
  {
    DestinationsOld(t, q);
    hide Separate, Relocated, Destinations;
    SeparateSettles(Unplanned(t, q), goals);
  }

  lemma AllDrawn(a: Work, b: Work)
    requires Drawn(a, b) && a.ops == []
    ensures Serials(b.ops, a.next, b.next)
  {
    assert b.ops[0..] == b.ops;
  }

  lemma StartConsistent(t: Tree, q: Request)
    requires DistinctIds(t) && Unused(t, q)
    ensures Consistent(t, Work([], t.files, t.folders, map[], q.start))
  {
  }

  lemma DestinationsOld(t: Tree, q: Request)
    requires Unused(t, q)
    ensures var destinations := Destinations(q.wishes, q.renames, t.folders);
      forall id :: id in destinations ==> OldPath(destinations[id], q.start)
  {
    WishedOld(q.wishes, q.start);
    RenamedPathsOld(t.folders, q.renames, q.start);
  }

  lemma LaterPaths(destinations: map<Id, Path>, start: nat, next: nat)
    requires start <= next && forall id :: id in destinations ==> OldPath(destinations[id], start)
    ensures forall id :: id in destinations ==> OldPath(destinations[id], next)
  {
  }

  // ------------------------------------------------------------------ replaced

  /** The plan or a newer creation wants another folder where `d` is (plugin/src/operation-plan.ts:29). */
  predicate Replaced(d: Folder, desired: map<Path, Id>, creations: Creations) {
    var asked := CreationId(creations, FolderEntity, d.path);
    || (d.path in desired && desired[d.path] != d.id)
    || (asked.Some? && asked.value != d.id)
  }

  function ReplacedPaths(folders: seq<Folder>, wanted: set<Path>, desired: map<Path, Id>, creations: Creations): (r: set<Path>)
    ensures forall p :: p in r ==> exists d :: d in folders && d.path == p
  {
    set d | d in folders && d.path in wanted && Replaced(d, desired, creations) :: d.path
  }

  /** Entries under a replaced folder start a new generation; the others are as they were. */
  ghost predicate Rewritten(entries: seq<Entry>, rewritten: seq<Entry>, replaced: set<Path>, creations: Creations, start: nat) {
    && |rewritten| == |entries|
    && forall i :: 0 <= i < |entries| ==>
      var e, r := entries[i], rewritten[i];
      if !UnderSome(e.path, replaced) then r == e
      else
        && r == e.(id := r.id) && r.id.Some?
        && var asked := CreationId(creations, FileEntity, e.path);
           if asked.Some? then r.id == asked else r.id.value.Minted? && r.id.value.serial >= start
  }

  predicate Renews(e: Entry, replaced: set<Path>, creations: Creations) {
    UnderSome(e.path, replaced) && CreationId(creations, FileEntity, e.path).None?
  }

  /** Renewed identities are minted for one entry each, from serial `lo` up to `hi`. */
  ghost predicate RenewedApart(entries: seq<Entry>, rewritten: seq<Entry>, replaced: set<Path>, creations: Creations, lo: nat, hi: nat) {
    && |rewritten| == |entries|
    && (forall i :: 0 <= i < |entries| && Renews(entries[i], replaced, creations) ==>
         rewritten[i].id.Some? && rewritten[i].id.value.Minted? && lo <= rewritten[i].id.value.serial < hi)
    && (forall i, j :: 0 <= i < j < |entries| && Renews(entries[i], replaced, creations) && Renews(entries[j], replaced, creations)
                       ==> rewritten[i].id != rewritten[j].id)
  }

  /** plugin/src/operation-plan.ts:32 */
  method RewriteEntries(entries: seq<Entry>, replaced: set<Path>, creations: Creations, start: nat)
    returns (rewritten: seq<Entry>, next: nat)
    ensures Rewritten(entries, rewritten, replaced, creations, start) && next >= start
    ensures RenewedApart(entries, rewritten, replaced, creations, start, next)
  {
    hide Rewritten, RenewedApart, UnderSome, CreationId;
    rewritten, next := [], start;
    NothingRewritten(replaced, creations, start);
    assert entries[..0] == [];
    for i := 0 to |entries|
      invariant Rewritten(entries[..i], rewritten, replaced, creations, start) && next >= start
      invariant RenewedApart(entries[..i], rewritten, replaced, creations, start, next)
    {
      var e := entries[i];
      var r := Renewed(e, replaced, creations, next);
      RewrittenStep(entries[..i], rewritten, replaced, creations, start, next, e);
      assert entries[..i + 1] == entries[..i] + [e];
      rewritten, next := rewritten + [r], if Renews(e, replaced, creations) then next + 1 else next;
    }
    assert entries[..|entries|] == entries;
  }

  /** The entry as it goes on: a renewed one takes the recorded creation's identity, or the next uuid. */
  function Renewed(e: Entry, replaced: set<Path>, creations: Creations, next: nat): Entry {
    if !UnderSome(e.path, replaced) then e
    else if CreationId(creations, FileEntity, e.path).Some? then e.(id := CreationId(creations, FileEntity, e.path))
    else e.(id := Some(Minted(next)))
  }

  lemma NothingRewritten(replaced: set<Path>, creations: Creations, start: nat)
    ensures Rewritten([], [], replaced, creations, start) && RenewedApart([], [], replaced, creations, start, start)
  {
  }

  lemma RewrittenStep(entries: seq<Entry>, rewritten: seq<Entry>, replaced: set<Path>, creations: Creations, start: nat, next: nat, e: Entry)
    requires Rewritten(entries, rewritten, replaced, creations, start) && next >= start
    requires RenewedApart(entries, rewritten, replaced, creations, start, next)
    ensures var r := rewritten + [Renewed(e, replaced, creations, next)];
      && Rewritten(entries + [e], r, replaced, creations, start)
      && RenewedApart(entries + [e], r, replaced, creations, start, if Renews(e, replaced, creations) then next + 1 else next)
  {
    hide UnderSome, CreationId;
  }

  function EntryParents(entries: seq<Entry>): (r: seq<Path>)
    ensures |r| == |entries| && forall i :: 0 <= i < |r| ==> r[i] == Parent(entries[i].path)
  {
    seq(|entries|, i requires 0 <= i < |entries| => Parent(entries[i].path))
  }

  /** Where the preserved folders now are. */
  function PreservedPaths(settled: seq<Folder>, preserved: set<Id>): set<Path> {
    set d | d in settled && d.id in preserved :: d.path
  }

  /** The folders asked for, the parents of everything, and the preserved folders. */
  ghost predicate IsWanted(q: Request, kept: set<Path>, parents: set<Path>, wanted: set<Path>) {
    && IsPrefixSet(parents, q.folders + EntryParents(q.entries))
    && wanted == (set p | p in q.folders) + parents + kept
  }

  lemma EntryParentWanted(q: Request, kept: set<Path>, parents: set<Path>, wanted: set<Path>, i: nat)
    requires IsWanted(q, kept, parents, wanted) && i < |q.entries|
    ensures Parent(q.entries[i].path) == [] || Parent(q.entries[i].path) in wanted
  {
    var raws := q.folders + EntryParents(q.entries);
    var p := Parent(q.entries[i].path);
    assert raws[|q.folders| + i] == p;
    if p != [] {
      assert p[..|p|] == p;
      assert PrefixOfSome(p, raws);
    }
  }

  /** plugin/src/operation-plan.ts:27-28 */
  method CollectWanted(q: Request, kept: set<Path>) returns (wanted: set<Path>, parents: set<Path>)
    ensures IsWanted(q, kept, parents, wanted)
  {
    parents := CollectParents(q.folders + EntryParents(q.entries));
    wanted := (set p | p in q.folders) + parents + kept;
  }

  // --------------------------------------------------------------- the outcome

  function AssignedTo(fate: Fate): Id {
    if fate.Reuse? then fate.id else fate.target
  }

  function Assigned(fates: seq<Fate>): (r: seq<Id>)
    ensures |r| == |fates| && forall i :: 0 <= i < |r| ==> r[i] == AssignedTo(fates[i])
  {
    seq(|fates|, i requires 0 <= i < |fates| => AssignedTo(fates[i]))
  }

  /**
   The files are exactly the desired ones, each with its path, content and
   assigned identity, beside the untouched files that have no identity.
   */
  ghost predicate Fulfilled(before: seq<File>, after: seq<File>, entries: seq<Entry>, ids: seq<Id>) {
    && |ids| == |entries|
    && |after| == |Unidentified(before)| + |entries|
    && (forall f :: f in before && f.id.None? ==> f in after)
    && (forall f :: f in after && f.id.None? ==> f in before)
    && (forall f :: f in after && f.id.Some? ==> exists i :: 0 <= i < |entries| && IsEntry(f, entries[i], ids[i]))
    && (forall i :: 0 <= i < |entries| ==> Met(after, entries[i], ids[i]))
  }

  lemma {:induction false} CreationsMembers(entries: seq<Entry>, fates: seq<Fate>)
    requires |entries| == |fates|
    ensures forall c :: c in CreationsOf(entries, fates) ==> exists i :: 0 <= i < |fates| && fates[i] == Make(c.target) && entries[i] == c.entry
    ensures forall i :: 0 <= i < |fates| && fates[i].Make? ==> Creation(entries[i], fates[i].target) in CreationsOf(entries, fates)
  {
    if fates != [] {
      var n := |fates| - 1;
      CreationsMembers(entries[..n], fates[..n]);
      forall c | c in CreationsOf(entries, fates)
        ensures exists i :: 0 <= i < |fates| && fates[i] == Make(c.target) && entries[i] == c.entry
      {
        if c in CreationsOf(entries[..n], fates[..n]) {
          var i :| 0 <= i < n && fates[..n][i] == Make(c.target) && entries[..n][i] == c.entry;
          assert fates[i] == Make(c.target) && entries[i] == c.entry;
        } else {
          assert fates[n] == Make(c.target) && entries[n] == c.entry;
        }
      }
    }
  }

  lemma MadeIsEntry(kept: seq<File>, after: seq<File>, entries: seq<Entry>, fates: seq<Fate>, f: File)
    requires |entries| == |fates| && FilesMade(kept, after, CreationsOf(entries, fates)) && f in after && f !in kept
    ensures exists i :: 0 <= i < |entries| && IsEntry(f, entries[i], AssignedTo(fates[i]))
  {
    var creates := CreationsOf(entries, fates);
    CreationsMembers(entries, fates);
    assert forall j :: 0 <= j < |kept| ==> after[j] == after[..|kept|][j] && after[j] in kept;
    var k :| 0 <= k < |after| && after[k] == f;
    var c := creates[k - |kept|];
    assert c in creates && f == after[|kept| + (k - |kept|)];
    var i :| 0 <= i < |fates| && fates[i] == Make(c.target) && entries[i] == c.entry;
    assert IsEntry(f, entries[i], AssignedTo(fates[i]));
  }

  lemma EntryIsMade(kept: seq<File>, after: seq<File>, entries: seq<Entry>, fates: seq<Fate>, i: nat)
    requires |entries| == |fates| && FilesMade(kept, after, CreationsOf(entries, fates)) && i < |entries| && fates[i].Make?
    ensures Met(after, entries[i], AssignedTo(fates[i]))
  {
    var creates := CreationsOf(entries, fates);
    CreationsMembers(entries, fates);
    var k :| 0 <= k < |creates| && creates[k] == Creation(entries[i], fates[i].target);
    assert after[|kept| + k] in after;
  }

  lemma KeptInAfter(kept: seq<File>, after: seq<File>, creates: seq<Creation>)
    requires FilesMade(kept, after, creates)
    ensures forall f :: f in kept ==> f in after
    ensures forall f :: f in after && f.id.None? ==> f in kept
    ensures |after| == |kept| + |creates|
  {
    assert forall k :: 0 <= k < |kept| ==> after[k] == after[..|kept|][k] == kept[k];
    MadeIdentified(kept, after, creates);
  }

  lemma MadeIdentified(kept: seq<File>, after: seq<File>, creates: seq<Creation>)
    requires FilesMade(kept, after, creates)
    ensures forall k :: |kept| <= k < |after| ==> after[k].id.Some?
  {
    forall k | |kept| <= k < |after|
      ensures after[k].id.Some?
    {
      var i := k - |kept|;
      assert after[|kept| + i].id == Some(creates[i].target);
    }
  }

  lemma FulfilledHolds(before: seq<File>, kept: seq<File>, after: seq<File>, entries: seq<Entry>, fates: seq<Fate>)
    requires |entries| == |fates| && SoundFates(before, fates)
    requires KeptAsWanted(before, kept, entries, fates) && FilesMade(kept, after, CreationsOf(entries, fates))
    ensures Fulfilled(before, after, entries, Assigned(fates))
  {
    hide SoundFates, FilesMade, CreationsOf, IsEntry;
    FateCount(before, entries, fates);
    KeptInAfter(kept, after, CreationsOf(entries, fates));
    forall f | f in after && f.id.Some?
      ensures exists i :: 0 <= i < |entries| && IsEntry(f, entries[i], Assigned(fates)[i])
    {
      if f in kept {
        assert KeptBySome(f, entries, fates);
        var i :| 0 <= i < |fates| && fates[i].Reuse? && IsEntry(f, entries[i], fates[i].id);
        assert Assigned(fates)[i] == fates[i].id;
      } else {
        MadeIsEntry(kept, after, entries, fates, f);
        var i :| 0 <= i < |entries| && IsEntry(f, entries[i], AssignedTo(fates[i]));
        assert Assigned(fates)[i] == AssignedTo(fates[i]);
      }
    }
    forall i | 0 <= i < |entries|
      ensures Met(after, entries[i], Assigned(fates)[i])
    {
      if fates[i].Make? {
        EntryIsMade(kept, after, entries, fates, i);
      } else {
        var f :| f in kept && IsEntry(f, entries[i], fates[i].id);
        assert f in after;
      }
    }
  }

  // ----------------------------------------------------------------- the batch

  /** The folders and the new files around a settled batch (plugin/src/operation-plan.ts:38-40). */
  datatype Stages = Stages(
    settled: Work,         // folders where they belong
    rewritten: seq<Entry>, // entries under replaced folders renewed
    fates: seq<Fate>,      // one per entry
    parents: set<Path>, wanted: set<Path>, replaced: set<Path>,
    revised: Work,         // files deleted, moved and edited
    cleared: Work,         // unwanted folders removed
    present: set<Path>)    // folders that stayed

  /** How the later stages follow from one another. */
  ghost predicate Staged(t: Tree, q: Request, n: Naming, creates: seq<Creation>, s: Stages, furnished: Work, done: Work) {
    && n == Naming(s.replaced, WishedIds(q.wishes), q.creations, q.tombstones)
    && Proper(t, s.revised.ops, s.revised.deletedAt)
    && NothingMade(s.cleared.ops)
    && OnlyRmdirs(s.revised, s.cleared) && OnlyMakes(q.tombstones, s.cleared, furnished) && OnlyMakes(q.tombstones, furnished, done)
    && Building(t, done)
    && Run(t, s.cleared.ops).files == Run(t, s.revised.ops).files
    && Run(t, furnished.ops).files == Run(t, s.revised.ops).files
    && Run(t, done.ops).folders == Run(t, furnished.ops).folders
    && FilesMade(Run(t, s.revised.ops).files, Run(t, done.ops).files, creates)
    && (forall d :: d in Run(t, s.cleared.ops).folders <==> d in s.settled.folders && !Doomed(d.path, s.wanted, s.replaced))
    && s.present <= s.wanted
    && FoldersMade(n, Run(t, s.cleared.ops).folders, Run(t, done.ops).folders, s.present, s.wanted - s.present, s.cleared.next)
    && (AlwaysFrom(t, s.cleared.ops, |s.revised.ops|, Emptied)
        <==> Clearable(Run(t, s.revised.ops).files, s.settled.folders, s.wanted, s.replaced))
    && (AlwaysFrom(t, furnished.ops, |s.cleared.ops|, Housed) <==> AllHoused(s.wanted, s.present, s.wanted))
    && AlwaysFrom(t, done.ops, |furnished.ops|, Housed)
  }

  lemma ClearingIsBuilding(t: Tree, w: Work)
    requires Clearing(t, w)
    ensures Building(t, w) && NothingMade(w.ops)
  {
    NothingMadeTraced(t, w.ops);
  }

  lemma PresentWanted(folders: seq<Folder>, wanted: set<Path>, replaced: set<Path>, present: set<Path>)
    requires forall p :: p in present <==> exists d :: d in folders && d.path == p && !Doomed(d.path, wanted, replaced)
    ensures present <= wanted
  {
  }

  lemma PresentLive(folders: seq<Folder>, live: seq<Folder>, wanted: set<Path>, replaced: set<Path>, present: set<Path>)
    requires forall p :: p in present <==> exists d :: d in folders && d.path == p && !Doomed(d.path, wanted, replaced)
    requires forall d :: d in live <==> d in folders && !Doomed(d.path, wanted, replaced)
    ensures forall p :: p in present <==> exists d :: d in live && d.path == p
  {
    hide Doomed;
  }

  lemma CreationsHoused(t: Tree, q: Request, kept: set<Path>, parents: set<Path>, wanted: set<Path>, present: set<Path>,
                        n: Naming, before: seq<Folder>, start: nat, creates: seq<Creation>)
    requires IsWanted(q, kept, parents, wanted) && present <= wanted
    requires FoldersMade(n, before, t.folders, present, wanted - present, start)
    requires forall c :: c in creates ==> exists i :: 0 <= i < |q.entries| && q.entries[i].path == c.entry.path
    ensures forall c :: c in creates ==> LiveFolder(t, Parent(c.entry.path))
  {
    hide RightfulFolder, IsWanted;
    forall c | c in creates
      ensures LiveFolder(t, Parent(c.entry.path))
    {
      var i :| 0 <= i < |q.entries| && q.entries[i].path == c.entry.path;
      EntryParentWanted(q, kept, parents, wanted, i);
      LiveIff(t, n, before, present, wanted - present, start, Parent(c.entry.path));
    }
  }

  lemma CreationsFromEntries(q: Request, rewritten: seq<Entry>, replaced: set<Path>, start: nat, fates: seq<Fate>)
    requires Rewritten(q.entries, rewritten, replaced, q.creations, start) && |fates| == |rewritten|
    ensures forall c :: c in CreationsOf(rewritten, fates) ==> exists i :: 0 <= i < |q.entries| && q.entries[i].path == c.entry.path
  {
    CreationsMembers(rewritten, fates);
    forall c | c in CreationsOf(rewritten, fates)
      ensures exists i :: 0 <= i < |q.entries| && q.entries[i].path == c.entry.path
    {
      var i :| 0 <= i < |fates| && fates[i] == Make(c.target) && rewritten[i] == c.entry;
      assert q.entries[i].path == c.entry.path;
    }
  }

  method SettleNamespace(ghost t: Tree, q: Request, ghost kept: set<Path>, parents: set<Path>, creates: seq<Creation>,
                         settled: Work, rewritten: seq<Entry>, fates: seq<Fate>, wanted: set<Path>, replaced: set<Path>, revised: Work)
    returns (done: Work, s: Stages, ghost furnished: Work)
    requires Proper(t, revised.ops, revised.deletedAt) && revised.folders == settled.folders
    requires Run(t, revised.ops).folders == settled.folders && DistinctFolderIds(settled.folders)
    requires IsWanted(q, kept, parents, wanted)
    requires forall c :: c in creates ==> exists i :: 0 <= i < |q.entries| && q.entries[i].path == c.entry.path
    ensures s == Stages(settled, rewritten, fates, s.parents, wanted, replaced, revised, s.cleared, s.present) && s.parents == parents
    ensures Staged(t, q, Naming(replaced, WishedIds(q.wishes), q.creations, q.tombstones), creates, s, furnished, done)
    ensures Drawn(revised, done)
  {
    hide Drawn, Always, Recorded, NothingMade, Building, Clearable, AllHoused, AlwaysFrom, FilesMade, FoldersMade, Doomed, OnlyMakes, OnlyRmdirs, IsWanted, Clearing, Run, LiveFolder, DistinctFolderIds;
    ProperClearing(t, revised);
    var cleared, present := RemoveUnwanted(t, revised, wanted, replaced);
    ClearingIsBuilding(t, cleared);
    PresentWanted(settled.folders, wanted, replaced, present);
    PresentLive(settled.folders, Run(t, cleared.ops).folders, wanted, replaced, present);
    var n := Naming(replaced, WishedIds(q.wishes), q.creations, q.tombstones);
    var made := MakeFolders(t, cleared, n, wanted, present);
    CreationsHoused(Run(t, made.ops), q, kept, parents, wanted, present, n, Run(t, cleared.ops).folders, cleared.next, creates);
    done := MakeFiles(t, made, n, creates);
    s := Stages(settled, rewritten, fates, parents, wanted, replaced, revised, cleared, present);
    furnished := made;
    DrawnTransitive(revised, cleared, made);
    DrawnTransitive(revised, made, done);
  }

  lemma ProperClearing(t: Tree, w: Work)
    requires Proper(t, w.ops, w.deletedAt)
    ensures Clearing(t, w)
  {
  }

  // --------------------------------------------------- promises about the batch

  /** Every delete names a file of the tree at the tree's revision, and no entry keeps that file. */
  ghost predicate DeletesSpare(t: Tree, ops: seq<Op>, fates: seq<Fate>) {
    forall k :: 0 <= k < |ops| && ops[k].Delete? ==>
      HasFile(t, ops[k].target, ops[k].revision) && forall i :: 0 <= i < |fates| && fates[i].Reuse? ==> fates[i].id != ops[k].target
  }

  /** The operations of `done` after those of `revised`: removals of folders, then creations. */
  lemma LaterOps(stones: Tombstones, revised: Work, cleared: Work, furnished: Work, done: Work)
    requires OnlyRmdirs(revised, cleared) && OnlyMakes(stones, cleared, furnished) && OnlyMakes(stones, furnished, done)
    ensures |revised.ops| <= |cleared.ops| <= |furnished.ops| <= |done.ops|
    ensures done.ops[..|revised.ops|] == revised.ops && done.ops[..|cleared.ops|] == cleared.ops && done.ops[..|furnished.ops|] == furnished.ops
    ensures forall k :: |revised.ops| <= k < |cleared.ops| ==> done.ops[k].Rmdir?
    ensures forall k :: |cleared.ops| <= k < |done.ops| ==> Makes(done.ops[k]) && NamesTombstone(done.ops[k], stones)
  {
    OnlyMakesTransitive(stones, cleared, furnished, done);
    assert done.ops[..|revised.ops|] == done.ops[..|cleared.ops|][..|revised.ops|];
    forall k | |revised.ops| <= k < |cleared.ops|
      ensures done.ops[k].Rmdir?
    {
      assert done.ops[k] == done.ops[..|cleared.ops|][k];
    }
  }

  lemma DeletesHold(t: Tree, revised: seq<Op>, ops: seq<Op>, files: seq<File>, entries: seq<Entry>, fates: seq<Fate>)
    requires Always(t, revised, Lawful) && NothingMade(revised)
    requires |revised| <= |ops| && ops[..|revised|] == revised && forall k :: |revised| <= k < |ops| ==> !ops[k].Delete?
    requires |entries| == |fates| && KeptAsWanted(files, Run(t, revised).files, entries, fates)
    ensures DeletesSpare(t, ops, fates)
  {
    hide Run;
    DeletesFromTree(t, revised);
    forall k | 0 <= k < |ops| && ops[k].Delete?
      ensures HasFile(t, ops[k].target, ops[k].revision) && forall i :: 0 <= i < |fates| && fates[i].Reuse? ==> fates[i].id != ops[k].target
    {
      assert revised[k] == ops[k];
    }
  }

  lemma ShelteredEmptied(t: Tree, op: Op)
    requires Sheltered(t, op)
    ensures Emptied(t, op)
  {
  }

  lemma EmptiedHolds(t: Tree, revised: seq<Op>, cleared: seq<Op>, ops: seq<Op>)
    requires Always(t, revised, Sheltered)
    requires |revised| <= |cleared| <= |ops| && ops[..|revised|] == revised && ops[..|cleared|] == cleared
    requires forall k :: |cleared| <= k < |ops| ==> Makes(ops[k])
    ensures Always(t, ops, Emptied) <==> AlwaysFrom(t, cleared, |revised|, Emptied)
  {
    hide Run, Sheltered;
    forall k | 0 <= k < |revised| || |cleared| <= k < |ops|
      ensures Emptied(Run(t, ops[..k]), ops[k])
    {
      if k < |revised| {
        assert ops[..k] == revised[..k] && ops[k] == revised[k];
        ShelteredEmptied(Run(t, ops[..k]), ops[k]);
      }
    }
    StageIff(t, ops, |revised|, |cleared|, Emptied);
  }

  lemma HousedHolds(t: Tree, cleared: seq<Op>, furnished: seq<Op>, ops: seq<Op>)
    requires NothingMade(cleared)
    requires |cleared| <= |furnished| <= |ops| && ops[..|cleared|] == cleared && ops[..|furnished|] == furnished
    requires AlwaysFrom(t, ops, |furnished|, Housed)
    ensures Always(t, ops, Housed) <==> AlwaysFrom(t, furnished, |cleared|, Housed)
  {
    hide Run;
    forall k | 0 <= k < |cleared|
      ensures Housed(Run(t, ops[..k]), ops[k])
    {
      assert ops[k] == cleared[k];
    }
    TwoStagesIff(t, ops, |cleared|, |furnished|, Housed);
  }

  lemma UnoccupiedHolds(t: Tree, revised: seq<Op>, ops: seq<Op>)
    requires Always(t, revised, Unoccupied) && |revised| <= |ops| && ops[..|revised|] == revised
    requires forall k :: |revised| <= k < |ops| ==> !ops[k].Move?
    ensures Always(t, ops, Unoccupied)
  {
    hide Run;
    StageIff(t, ops, 0, |revised|, Unoccupied);
  }

  /** With pairwise distinct tree paths, clear landings keep the settled files apart. */
  lemma ClearLandingsApart(t: Tree, q: Request, settled: Work, ops: seq<Op>)
    requires DistinctIds(t) && DistinctPaths(t) && Consistent(t, settled)
    requires |settled.ops| <= |ops| && ops[..|settled.ops|] == settled.ops && Always(t, ops, ClearLanding)
    requires forall i, j :: 0 <= i < j < |q.entries| ==> q.entries[i].path != q.entries[j].path
    ensures AllApart(settled.files, q.entries)
  {
    hide ClearLanding, Lawful, Sheltered;
    AlwaysPrefix(t, ops, |settled.ops|, ClearLanding);
    DistinctThroughoutIff(t, settled.ops);
    assert settled.ops[..|settled.ops|] == settled.ops;
    var files := settled.files;
    assert DistinctFilePaths(files);
    forall f, g | f in files && g in files && f.path == g.path
      ensures f.id == g.id
    {
      var i :| 0 <= i < |files| && files[i] == f;
      var j :| 0 <= j < |files| && files[j] == g;
      assert !(i < j) && !(j < i);
    }
  }

  /** What the planner returns: the operations, and the identity each entry ends up with. */
  datatype Batch = Batch(ops: seq<Op>, ids: seq<Id>)

  /** The identity of every entry is its own, the one it had in the tree, or that of a new file. */
  ghost predicate Identified(q: Request, s: Stages) {
    && FoldersSettledEntries(q, s)
    && AuthorizedFates(s.settled.files, s.rewritten, s.fates, q.creations, q.start)
  }

  ghost predicate FoldersSettledEntries(q: Request, s: Stages) {
    Rewritten(q.entries, s.rewritten, s.replaced, q.creations, q.start) && |s.fates| == |s.rewritten|
  }

  /** Exactly the wanted folders are live: those that stayed where they belong, and new ones. */
  ghost predicate Furnished(q: Request, s: Stages, folders: seq<Folder>) {
    && (forall p :: p in s.wanted <==> exists d :: d in folders && d.path == p)
    && (forall d :: d in s.settled.folders && !Doomed(d.path, s.wanted, s.replaced) ==> d in folders)
    && (forall d :: d in folders ==>
         || (d in s.settled.folders && !Doomed(d.path, s.wanted, s.replaced))
         || (d.path !in s.present && RightfulFolder(Naming(s.replaced, WishedIds(q.wishes), q.creations, q.tombstones), d, q.start)))
  }

  /** Which folders are wanted, and which of those are to be replaced. */
  ghost predicate Decided(t: Tree, q: Request, s: Stages) {
    && IsWanted(q, PreservedPaths(s.settled.folders, PreservedIds(t.folders, q.preserve)), s.parents, s.wanted)
    && s.replaced == ReplacedPaths(s.settled.folders, s.wanted, WishedIds(q.wishes), q.creations)
  }

  /** Entry `i` gets a new file under an identity that is drawn from the uuid source. */
  predicate Fresh(q: Request, s: Stages, i: nat)
    requires i < |q.entries| && i < |s.fates|
  {
    && s.fates[i].Make? && CreationId(q.creations, FileEntity, q.entries[i].path).None?
    && (UnderSome(q.entries[i].path, s.replaced) || q.entries[i].id.None?)
  }

  /** No uuid is used twice: operations have names of their own, and so have the files nobody has named yet. */
  ghost predicate OwnNames(q: Request, b: Batch, s: Stages) {
    && (forall k :: 0 <= k < |b.ops| ==> b.ops[k].opId.Minted? && b.ops[k].opId.serial >= q.start)
    && (forall j, k :: 0 <= j < k < |b.ops| ==> b.ops[j].opId != b.ops[k].opId)
    && |b.ids| == |s.fates| == |q.entries|
    && (forall i, j :: 0 <= i < j < |q.entries| && Fresh(q, s, i) && Fresh(q, s, j) ==> b.ids[i] != b.ids[j])
  }

  lemma OwnNamesHold(q: Request, s: Stages, done: Work, rest: nat)
    requires Serials(s.settled.ops, q.start, s.settled.next) && q.start <= rest <= s.settled.next
    requires Drawn(s.settled, s.revised) && Drawn(s.revised, done)
    requires Identified(q, s)
    requires RenewedApart(q.entries, s.rewritten, s.replaced, q.creations, rest, s.settled.next)
    requires |s.fates| == |s.rewritten| && OwnIds(s.rewritten, s.fates, q.creations, s.settled.next, s.revised.next)
    ensures OwnNames(q, Batch(done.ops, Assigned(s.fates)), s)
  {
    DrawnTransitive(s.settled, s.revised, done);
    SerialsJoin(s.settled.ops, done.ops[|s.settled.ops|..], q.start, s.settled.next, done.next);
    assert done.ops == s.settled.ops + done.ops[|s.settled.ops|..];
    FreshApart(q, s, rest);
    hide Drawn, RenewedApart, OwnIds, Identified;
  }

  lemma FreshApart(q: Request, s: Stages, rest: nat)
    requires Identified(q, s)
    requires RenewedApart(q.entries, s.rewritten, s.replaced, q.creations, rest, s.settled.next)
    requires |s.fates| == |s.rewritten| && OwnIds(s.rewritten, s.fates, q.creations, s.settled.next, s.revised.next)
    ensures |s.fates| == |q.entries|
    ensures forall i, j :: 0 <= i < j < |q.entries| && Fresh(q, s, i) && Fresh(q, s, j) ==> s.fates[i].target != s.fates[j].target
  {
    forall i | 0 <= i < |q.entries| && Fresh(q, s, i)
      ensures if UnderSome(q.entries[i].path, s.replaced) then Renews(q.entries[i], s.replaced, q.creations) && Some(s.fates[i].target) == s.rewritten[i].id
              else DrawsId(s.rewritten[i], q.creations)
    {
      var e, r := q.entries[i], s.rewritten[i];
      assert AuthorizedFate(s.settled.files, r, s.fates[i], q.creations, q.start);
    }
  }

  // ---------------------------------------------- what was asked for, literally

  /** The last wish for the path. */
  ghost predicate WishAt(q: Request, i: nat, path: Path) {
    i < |q.wishes| && q.wishes[i].path == path && forall j :: i < j < |q.wishes| ==> q.wishes[j].path != path
  }

  /** The last wish for the identity. */
  ghost predicate WishFor(q: Request, i: nat, id: Id) {
    i < |q.wishes| && q.wishes[i].id == id && forall j :: i < j < |q.wishes| ==> q.wishes[j].id != id
  }

  ghost predicate Unwished(q: Request, path: Path) {
    forall i :: 0 <= i < |q.wishes| ==> q.wishes[i].path != path
  }

  /** The latest intent at the path creates it under this identity. */
  ghost predicate CreatedAs(q: Request, kind: EntityKind, path: Path, id: Id) {
    (kind, path) in q.creations && q.creations[(kind, path)] == Some(id)
  }

  /** One rename carries the folder itself and what is inside it, and nothing else. */
  ghost predicate Carries(r: Rename, path: Path, to: Path) {
    if r.from != [] && |r.from| <= |path| && path[..|r.from|] == r.from then to == r.to + path[|r.from|..] else to == path
  }

  /** The paths a folder takes from rename to rename. */
  ghost predicate Trail(renames: seq<Rename>, from: Path, to: Path, trail: seq<Path>) {
    && |trail| == |renames| + 1 && trail[0] == from && trail[|renames|] == to
    && forall k :: 0 <= k < |renames| ==> Carries(renames[k], trail[k], trail[k + 1])
  }

  /** Wished folders stand where they are wished; without wishes every folder is where the renames carry it. */
  ghost predicate WhereAsked(t: Tree, q: Request, folders: seq<Folder>) {
    && (forall d, i: nat :: d in folders && WishFor(q, i, d.id) ==> d.path == q.wishes[i].path)
    && (q.wishes == [] ==>
          forall d, e :: d in folders && e in t.folders && e.id == d.id ==> exists trail :: Trail(q.renames, e.path, d.path, trail))
  }

  /** A folder has the identity wished for its path, or else that of its recorded creation; inside a replaced one it is new. */
  ghost predicate NamedAsAsked(q: Request, s: Stages, d: Folder) {
    if UnderSome(d.path, s.replaced) then d.id.Minted? && d.id.serial >= q.start
    else
      && (forall i: nat :: WishAt(q, i, d.path) ==> d.id == q.wishes[i].id)
      && (Unwished(q, d.path) ==> forall id :: CreatedAs(q, FolderEntity, d.path, id) ==> d.id == id)
  }

  /** Neither the wishes nor a recorded creation want another folder where the one of the tree stands alone. */
  ghost predicate Undisputed(q: Request, s: Stages, d: Folder) {
    && d in s.settled.folders && d.path in s.wanted && !UnderSome(d.path, s.replaced)
    && (forall e :: e in s.settled.folders && e.path == d.path ==> e == d)
    && (forall i: nat :: WishAt(q, i, d.path) ==> d.id == q.wishes[i].id)
    && (forall id :: CreatedAs(q, FolderEntity, d.path, id) ==> d.id == id)
  }

  ghost predicate FoldersAsAsked(q: Request, s: Stages, folders: seq<Folder>) {
    && (forall d :: d in folders ==> NamedAsAsked(q, s, d))
    && (forall d :: Undisputed(q, s, d) ==> d in folders)
  }

  /** The entry keeps the file with this identity, and no operation deletes it. */
  ghost predicate KeepsFile(b: Batch, i: nat, id: Id) {
    i < |b.ids| && b.ids[i] == id && forall k :: 0 <= k < |b.ops| && b.ops[k].Delete? ==> b.ops[k].target != id
  }

  /** `f` is the only file that stands at its path. */
  ghost predicate StandsAlone(files: seq<File>, f: File) {
    f in files && forall g :: g in files && g.path == f.path ==> g == f
  }

  /**
   An entry keeps the file of its own identity, or without one the file at its
   path unless a creation is recorded there; a new file takes the identity of
   that creation, or its own. Inside a replaced folder every file is new.
   */
  ghost predicate FileAsAsked(q: Request, b: Batch, s: Stages, i: nat)
    requires i < |q.entries|
  {
    var e := q.entries[i];
    if UnderSome(e.path, s.replaced) then
      && i < |b.ids| && (forall id :: CreatedAs(q, FileEntity, e.path, id) ==> b.ids[i] == id)
      && ((forall id :: !CreatedAs(q, FileEntity, e.path, id)) ==> b.ids[i].Minted? && b.ids[i].serial >= q.start)
    else if e.id.Some? then
      if exists f :: f in s.settled.files && f.id == e.id then KeepsFile(b, i, e.id.value)
      else
        && i < |b.ids| && (forall id :: CreatedAs(q, FileEntity, e.path, id) ==> b.ids[i] == id)
        && ((forall id :: !CreatedAs(q, FileEntity, e.path, id)) ==> b.ids[i] == e.id.value)
    else if (FileEntity, e.path) in q.creations then
      && i < |b.ids| && (forall id :: CreatedAs(q, FileEntity, e.path, id) ==> b.ids[i] == id)
      && ((forall id :: !CreatedAs(q, FileEntity, e.path, id)) ==> b.ids[i].Minted? && b.ids[i].serial >= q.start)
    else
      && (forall f :: StandsAlone(s.settled.files, f) && f.path == e.path && f.id.Some? ==> KeepsFile(b, i, f.id.value))
      && ((forall f :: f in s.settled.files ==> f.path != e.path) ==> i < |b.ids| && b.ids[i].Minted? && b.ids[i].serial >= q.start)
  }

  /** A folder that was at a preserved path stands there now. */
  ghost predicate PreservedAt(t: Tree, q: Request, settled: seq<Folder>, p: Path) {
    exists d, e :: d in t.folders && d.path in q.preserve && e in settled && e.id == d.id && e.path == p
  }

  /** The folder was asked for, holds one that was or an entry, or is preserved. */
  ghost predicate AskedFor(t: Tree, q: Request, settled: seq<Folder>, p: Path) {
    || p in q.folders
    || (p != [] && exists i :: 0 <= i < |q.folders| && p <= q.folders[i])
    || (p != [] && exists i :: 0 <= i < |q.entries| && p < q.entries[i].path)
    || PreservedAt(t, q, settled, p)
  }

  ghost predicate AsAsked(t: Tree, q: Request, b: Batch, s: Stages) {
    && (forall p :: p in s.wanted <==> AskedFor(t, q, s.settled.folders, p))
    && s.replaced <= s.wanted
    && WhereAsked(t, q, s.settled.folders)
    && FoldersAsAsked(q, s, Run(t, b.ops).folders)
    && forall i :: 0 <= i < |q.entries| ==> FileAsAsked(q, b, s, i)
  }

  lemma {:induction false} WishedPathsLast(wishes: seq<Wish>, i: nat)
    requires i < |wishes| && forall j :: i < j < |wishes| ==> wishes[j].id != wishes[i].id
    ensures wishes[i].id in WishedPaths(wishes) && WishedPaths(wishes)[wishes[i].id] == wishes[i].path
  {
    if i < |wishes| - 1 {
      WishedPathsLast(wishes[..|wishes| - 1], i);
    }
  }

  lemma {:induction false} WishedIdsLast(wishes: seq<Wish>, i: nat)
    requires i < |wishes| && forall j :: i < j < |wishes| ==> wishes[j].path != wishes[i].path
    ensures wishes[i].path in WishedIds(wishes) && WishedIds(wishes)[wishes[i].path] == wishes[i].id
  {
    if i < |wishes| - 1 {
      WishedIdsLast(wishes[..|wishes| - 1], i);
    }
  }

  lemma {:induction false} WishedIdsFrom(wishes: seq<Wish>, path: Path) returns (i: nat)
    requires path in WishedIds(wishes)
    ensures i < |wishes| && wishes[i].path == path && forall j :: i < j < |wishes| ==> wishes[j].path != path
  {
    var n := |wishes| - 1;
    if wishes[n].path == path {
      i := n;
    } else {
      i := WishedIdsFrom(wishes[..n], path);
    }
  }

  lemma {:induction false} RenamedTrail(path: Path, renames: seq<Rename>) returns (trail: seq<Path>)
    ensures Trail(renames, path, Renamed(path, renames), trail)
  {
    if renames == [] {
      trail := [path];
    } else {
      var n := |renames| - 1;
      var init := RenamedTrail(path, renames[..n]);
      var before, after := Renamed(path, renames[..n]), Renamed(path, renames);
      trail := init + [after];
      OneRename(before, renames[n], after);
      forall k | 0 <= k < |renames|
        ensures Carries(renames[k], trail[k], trail[k + 1])
      {
        if k < n {
          assert Carries(renames[..n][k], init[k], init[k + 1]);
        }
      }
    }
  }

  lemma OneRename(before: Path, r: Rename, after: Path)
    requires after == if r.from != [] && before == r.from then r.to else if Under(before, r.from) then Rebase(before, r.from, r.to) else before
    ensures Carries(r, before, after)
  {
    assert before == r.from ==> before[..|r.from|] == r.from && r.to + before[|r.from|..] == r.to;
    assert |before| == |r.from| ==> before[..|r.from|] == before;
  }

  lemma {:induction false} RenamedPathsAt(folders: seq<Folder>, renames: seq<Rename>, e: Folder)
    requires DistinctFolderIds(folders) && e in folders
    ensures e.id in RenamedPaths(folders, renames) && RenamedPaths(folders, renames)[e.id] == Renamed(e.path, renames)
  {
    var n := |folders| - 1;
    var i :| 0 <= i < |folders| && folders[i] == e;
    if i < n {
      assert folders[..n][i] == e;
      RenamedPathsAt(folders[..n], renames, e);
    }
  }

  lemma WhereAskedHolds(t: Tree, q: Request, w: Work)
    requires DistinctIds(t) && FoldersSettled(t, q, w)
    ensures WhereAsked(t, q, w.folders)
  {
    hide Spared, Consistent, Serials, Unidentified, Renamed, Trail;
    forall d, i: nat | d in w.folders && WishFor(q, i, d.id)
      ensures d.path == q.wishes[i].path
    {
      WishedPathsLast(q.wishes, i);
    }
    if q.wishes == [] {
      forall d, e | d in w.folders && e in t.folders && e.id == d.id
        ensures exists trail :: Trail(q.renames, e.path, d.path, trail)
      {
        RenamedPathsAt(t.folders, q.renames, e);
        var trail := RenamedTrail(e.path, q.renames);
      }
    }
  }

  /** Always true of a returned batch. */
  ghost predicate Planned(t: Tree, q: Request, b: Batch, s: Stages) {
    && Fulfilled(t.files, Run(t, b.ops).files, q.entries, b.ids)
    && Decided(t, q, s)
    && Identified(q, s) && b.ids == Assigned(s.fates)
    && Furnished(q, s, Run(t, b.ops).folders)
    && Always(t, b.ops, Lawful)
    && DeletesSpare(t, b.ops, s.fates)
    && Traced(t, b.ops)
    && (forall k :: 0 <= k < |b.ops| ==> NamesTombstone(b.ops[k], q.tombstones))
  }

  /** The wishes and creations for a folder, read off the maps the planner works with. */
  lemma WishedOrCreated(q: Request, p: Path)
    ensures forall i: nat :: WishAt(q, i, p) ==> p in WishedIds(q.wishes) && WishedIds(q.wishes)[p] == q.wishes[i].id
    ensures p in WishedIds(q.wishes) ==> exists i: nat :: WishAt(q, i, p)
    ensures forall id :: CreatedAs(q, FolderEntity, p, id) <==> CreationId(q.creations, FolderEntity, p) == Some(id)
  {
    forall i: nat | WishAt(q, i, p)
      ensures p in WishedIds(q.wishes) && WishedIds(q.wishes)[p] == q.wishes[i].id
    {
      WishedIdsLast(q.wishes, i);
    }
    if p in WishedIds(q.wishes) {
      var i := WishedIdsFrom(q.wishes, p);
      assert WishAt(q, i, p);
    }
  }

  lemma WantedHolds(t: Tree, q: Request, s: Stages, p: Path)
    requires Decided(t, q, s)
    ensures p in s.wanted <==> AskedFor(t, q, s.settled.folders, p)
  {
    var raws := q.folders + EntryParents(q.entries);
    if PrefixOfSome(p, raws) {
      var i :| 0 <= i < |raws| && 0 < |p| <= |raws[i]| && raws[i][..|p|] == p;
      if i < |q.folders| {
        assert p <= q.folders[i];
      } else {
        assert p < q.entries[i - |q.folders|].path;
      }
    }
    if i :| 0 <= i < |q.folders| && p <= q.folders[i] && p != [] {
      assert raws[i] == q.folders[i];
    }
    if i :| 0 <= i < |q.entries| && p < q.entries[i].path && p != [] {
      assert raws[|q.folders| + i] == Parent(q.entries[i].path);
      assert Parent(q.entries[i].path)[..|p|] == p;
    }
    PreservedIff(t, q, s.settled.folders, p);
  }

  lemma PreservedIff(t: Tree, q: Request, settled: seq<Folder>, p: Path)
    ensures p in PreservedPaths(settled, PreservedIds(t.folders, q.preserve)) <==> PreservedAt(t, q, settled, p)
  {
  }

  lemma NamedHolds(t: Tree, q: Request, s: Stages, folders: seq<Folder>, d: Folder)
    requires Decided(t, q, s) && Furnished(q, s, folders) && d in folders
    ensures NamedAsAsked(q, s, d)
  {
    WishedOrCreated(q, d.path);
    hide IsWanted, CreatedAs, CreationId;
    if d in s.settled.folders && !Doomed(d.path, s.wanted, s.replaced) {
      assert d.path !in s.replaced && !UnderSome(d.path, s.replaced);
      assert !Replaced(d, WishedIds(q.wishes), q.creations);
    } else {
      assert RightfulFolder(Naming(s.replaced, WishedIds(q.wishes), q.creations, q.tombstones), d, q.start);
    }
  }

  lemma UndisputedStays(t: Tree, q: Request, s: Stages, folders: seq<Folder>, d: Folder)
    requires Decided(t, q, s) && Furnished(q, s, folders) && Undisputed(q, s, d)
    ensures d in folders
  {
    WishedOrCreated(q, d.path);
    hide IsWanted, WishAt, CreatedAs, CreationId, RightfulFolder;
    assert !Replaced(d, WishedIds(q.wishes), q.creations);
    assert d.path !in s.replaced;
    assert !Doomed(d.path, s.wanted, s.replaced);
  }

  /** The file the planner finds for an entry that is not renewed. */
  lemma FileHolds(q: Request, b: Batch, s: Stages, t: Tree, i: nat)
    requires i < |q.entries| && Identified(q, s) && b.ids == Assigned(s.fates) && DeletesSpare(t, b.ops, s.fates)
    requires AsClaimed(s.settled.files, s.rewritten, q.creations, s.fates)
    ensures FileAsAsked(q, b, s, i)
  {
    hide UnderSome, ById, ByPath;
    var e, r := q.entries[i], s.rewritten[i];
    assert AuthorizedFate(s.settled.files, r, s.fates[i], q.creations, q.start);
    assert b.ids[i] == AssignedTo(s.fates[i]);
    assert forall id :: CreatedAs(q, FileEntity, e.path, id) <==> CreationId(q.creations, FileEntity, e.path) == Some(id);
    if CreationId(q.creations, FileEntity, e.path).Some? {
      assert CreatedAs(q, FileEntity, e.path, CreationId(q.creations, FileEntity, e.path).value);
    }
  }

  lemma ReplacedWanted(t: Tree, q: Request, s: Stages)
    requires Decided(t, q, s)
    ensures s.replaced <= s.wanted
  {
  }

  lemma AsAskedHolds(t: Tree, q: Request, b: Batch, s: Stages)
    requires DistinctIds(t) && FoldersSettled(t, q, s.settled) && Planned(t, q, b, s)
    requires AsClaimed(s.settled.files, s.rewritten, q.creations, s.fates)
    ensures AsAsked(t, q, b, s)
  {
    hide AskedFor, FoldersSettled, WhereAsked, NamedAsAsked, Undisputed, FileAsAsked, Decided, Furnished, Identified, DeletesSpare, AsClaimed, Fulfilled, Always, Lawful, Traced, NamesTombstone, Run;
    WhereAskedHolds(t, q, s.settled);
    ReplacedWanted(t, q, s);
    forall p
      ensures p in s.wanted <==> AskedFor(t, q, s.settled.folders, p)
    {
      WantedHolds(t, q, s, p);
    }
    var folders := Run(t, b.ops).folders;
    forall d | d in folders
      ensures NamedAsAsked(q, s, d)
    {
      NamedHolds(t, q, s, folders, d);
    }
    forall d | Undisputed(q, s, d)
      ensures d in folders
    {
      UndisputedStays(t, q, s, folders, d);
    }
    forall i | 0 <= i < |q.entries|
      ensures FileAsAsked(q, b, s, i)
    {
      FileHolds(q, b, s, t, i);
    }
  }

  /** No file of the tree would be left under a folder about to be removed. */
  ghost predicate NothingStrays(s: Stages) {
    && (forall f, d :: f in s.settled.files && f.id.None? && d in s.settled.folders && Doomed(d.path, s.wanted, s.replaced)
                       ==> !Under(f.path, d.path))
    && (forall i :: 0 <= i < |s.rewritten| && UnderSome(s.rewritten[i].path, s.replaced) && s.rewritten[i].id.Some?
                    ==> ById(s.settled.files, s.rewritten[i].id.value).None?)
  }

  /**
   With a parent-closed wanted set every folder is empty when it goes exactly
   when no unidentified file lies under one, and no entry under a replaced
   folder carries the identity of a file still in the tree (as the target of a
   recorded creation may, plugin/src/operation-plan.ts:32). In any case
   everything is made inside a live folder exactly when no missing folder has
   an unwanted parent, and file moves meet nobody when folder moves land clear.
   */
  ghost predicate SafeExactlyWhen(t: Tree, q: Request, b: Batch, s: Stages) {
    && (ParentClosed(s.wanted) ==> (Always(t, b.ops, Emptied) <==> NothingStrays(s)))
    && (Always(t, b.ops, Housed) <==> AllHoused(s.wanted, s.present, s.wanted))
    && (DistinctPaths(t) && EntriesApart(q) && Always(t, b.ops, ClearLanding) ==> Always(t, b.ops, Unoccupied))
  }

  ghost predicate EntriesApart(q: Request) {
    forall i, j :: 0 <= i < j < |q.entries| ==> q.entries[i].path != q.entries[j].path
  }

  lemma PlannedFacts(t: Tree, q: Request, b: Batch, s: Stages)
    requires Planned(t, q, b, s)
    ensures Identified(q, s)
    ensures Fulfilled(t.files, Run(t, b.ops).files, q.entries, b.ids) && Always(t, b.ops, Lawful) && Traced(t, b.ops)
  {
  }

  lemma FurnishedHolds(t: Tree, q: Request, n: Naming, creates: seq<Creation>, s: Stages, furnished: Work, done: Work)
    requires Staged(t, q, n, creates, s, furnished, done) && s.cleared.next >= q.start
    ensures Furnished(q, s, Run(t, done.ops).folders)
  {
    hide Proper, NothingMade, OnlyRmdirs, OnlyMakes, Building, FilesMade, AlwaysFrom, Clearable, AllHoused, Doomed, Run;
    assert s.present + (s.wanted - s.present) == s.wanted;
  }

  /** An entry's folders are wanted. */
  lemma EntryFoldersWanted(q: Request, kept: set<Path>, parents: set<Path>, wanted: set<Path>, i: nat, p: Path)
    requires IsWanted(q, kept, parents, wanted) && i < |q.entries| && Under(q.entries[i].path, p)
    ensures p in wanted
  {
    var raws := q.folders + EntryParents(q.entries);
    var parent := Parent(q.entries[i].path);
    assert raws[|q.folders| + i] == parent;
    assert parent[..|p|] == p;
    assert PrefixOfSome(p, raws);
  }

  /** An identified file left under a doomed folder is kept for an entry under a replaced folder. */
  lemma StrayIsKept(t: Tree, q: Request, s: Stages, live: seq<File>, f: File, d: Folder)
    requires Decided(t, q, s) && Identified(q, s)
    requires SoundFates(s.settled.files, s.fates) && KeptAsWanted(s.settled.files, live, s.rewritten, s.fates)
    requires f in live && f.id.Some? && Doomed(d.path, s.wanted, s.replaced) && Under(f.path, d.path)
    ensures exists i :: 0 <= i < |s.rewritten| && UnderSome(s.rewritten[i].path, s.replaced) && s.rewritten[i].id.Some?
                        && ById(s.settled.files, s.rewritten[i].id.value).Some?
  {
    hide Decided, Doomed, Rewritten, UnderSome, Under, AuthorizedFate, CreationId, SoundFate, UsedIds, Unidentified, ById;
    assert KeptBySome(f, s.rewritten, s.fates);
    var i :| 0 <= i < |s.fates| && s.fates[i].Reuse? && IsEntry(f, s.rewritten[i], s.fates[i].id);
    RewrittenLength(q.entries, s.rewritten, s.replaced, q.creations, q.start);
    SameAsk(q.entries, s.rewritten, s.replaced, q.creations, q.start, i);
    StrayUnderReplaced(t, q, s, i, d);
    RenewedIdentified(q.entries, s.rewritten, s.replaced, q.creations, q.start, i);
    KeptIsInTree(s.settled.files, s.rewritten[i], s.fates[i], q.creations, q.start);
  }

  lemma StrayUnderReplaced(t: Tree, q: Request, s: Stages, i: nat, d: Folder)
    requires Decided(t, q, s) && i < |q.entries| && Under(q.entries[i].path, d.path) && Doomed(d.path, s.wanted, s.replaced)
    ensures UnderSome(q.entries[i].path, s.replaced)
  {
    hide IsWanted;
    EntryFoldersWanted(q, PreservedPaths(s.settled.folders, PreservedIds(t.folders, q.preserve)), s.parents, s.wanted, i, d.path);
    var r :| r in s.replaced && (d.path == r || Under(d.path, r));
    if d.path != r {
      UnderTransitive(q.entries[i].path, d.path, r);
    }
  }

  lemma RenewedIdentified(entries: seq<Entry>, rewritten: seq<Entry>, replaced: set<Path>, creations: Creations, start: nat, i: nat)
    requires Rewritten(entries, rewritten, replaced, creations, start) && i < |entries| && UnderSome(entries[i].path, replaced)
    ensures i < |rewritten| && rewritten[i].id.Some?
  {
  }

  lemma KeptIsInTree(files: seq<File>, e: Entry, fate: Fate, creations: Creations, next: nat)
    requires AuthorizedFate(files, e, fate, creations, next) && SoundFate(files, fate) && fate.Reuse? && e.id.Some?
    ensures ById(files, e.id.value).Some?
  {
  }

  lemma StraysOnly(t: Tree, q: Request, s: Stages, live: seq<File>, f: File, d: Folder)
    requires Decided(t, q, s) && Identified(q, s) && NothingStrays(s)
    requires SoundFates(s.settled.files, s.fates) && KeptAsWanted(s.settled.files, live, s.rewritten, s.fates)
    requires f in live && d in s.settled.folders && Doomed(d.path, s.wanted, s.replaced)
    ensures !Under(f.path, d.path)
  {
    hide Decided, Identified, SoundFates, Doomed;
    if f.id.Some? && Under(f.path, d.path) {
      StrayIsKept(t, q, s, live, f, d);
    }
  }

  lemma StrayBlocks(t: Tree, q: Request, s: Stages, live: seq<File>, i: nat)
    requires Decided(t, q, s) && Identified(q, s)
    requires KeptAsWanted(s.settled.files, live, s.rewritten, s.fates)
    requires Clearable(live, s.settled.folders, s.wanted, s.replaced)
    requires i < |s.rewritten| && UnderSome(s.rewritten[i].path, s.replaced) && s.rewritten[i].id.Some?
    ensures ById(s.settled.files, s.rewritten[i].id.value).None?
  {
    hide IsWanted, Rewritten;
    var r :| r in s.replaced && Under(s.rewritten[i].path, r);
    var d :| d in s.settled.folders && d.path == r;
    assert Clear(live, s.settled.folders, s.wanted, s.replaced, d.path);
    assert AuthorizedFate(s.settled.files, s.rewritten[i], s.fates[i], q.creations, q.start);
    assert s.fates[i].Reuse? ==> Met(live, s.rewritten[i], s.fates[i].id);
  }

  lemma ClearableIff(t: Tree, q: Request, s: Stages, live: seq<File>)
    requires Decided(t, q, s) && Identified(q, s) && ParentClosed(s.wanted)
    requires SoundFates(s.settled.files, s.fates) && KeptAsWanted(s.settled.files, live, s.rewritten, s.fates)
    ensures Clearable(live, s.settled.folders, s.wanted, s.replaced) <==> NothingStrays(s)
  {
    hide Decided, Identified, SoundFates, Doomed, ParentClosed;
    if NothingStrays(s) {
      forall f, d | f in live && d in s.settled.folders && Doomed(d.path, s.wanted, s.replaced)
        ensures !Under(f.path, d.path)
      {
        StraysOnly(t, q, s, live, f, d);
      }
      ClosedClearable(live, s.settled.folders, s.wanted, s.replaced);
    }
    if Clearable(live, s.settled.folders, s.wanted, s.replaced) {
      forall i | 0 <= i < |s.rewritten| && UnderSome(s.rewritten[i].path, s.replaced) && s.rewritten[i].id.Some?
        ensures ById(s.settled.files, s.rewritten[i].id.value).None?
      {
        StrayBlocks(t, q, s, live, i);
      }
      FateLengths(q, s);
      UntouchedClear(s, live);
    }
  }

  lemma FateLengths(q: Request, s: Stages)
    requires Identified(q, s)
    ensures |s.rewritten| == |s.fates|
  {
  }

  lemma UntouchedClear(s: Stages, live: seq<File>)
    requires |s.rewritten| == |s.fates| && KeptAsWanted(s.settled.files, live, s.rewritten, s.fates)
    requires Clearable(live, s.settled.folders, s.wanted, s.replaced)
    ensures forall f, d :: f in s.settled.files && f.id.None? && d in s.settled.folders && Doomed(d.path, s.wanted, s.replaced)
                           ==> !Under(f.path, d.path)
  {
    hide Doomed;
    forall f, d | f in s.settled.files && f.id.None? && d in s.settled.folders && Doomed(d.path, s.wanted, s.replaced)
      ensures !Under(f.path, d.path)
    {
      assert Clear(live, s.settled.folders, s.wanted, s.replaced, d.path);
    }
  }

  lemma SafetyHolds(t: Tree, q: Request, n: Naming, creates: seq<Creation>, s: Stages, furnished: Work, done: Work, ids: seq<Id>)
    requires Staged(t, q, n, creates, s, furnished, done)
    requires Decided(t, q, s) && Identified(q, s)
    requires SoundFates(s.settled.files, s.fates) && KeptAsWanted(s.settled.files, Run(t, s.revised.ops).files, s.rewritten, s.fates)
    requires DistinctIds(t) && Consistent(t, s.settled)
    requires |s.settled.ops| <= |s.revised.ops| && s.revised.ops[..|s.settled.ops|] == s.settled.ops
    requires AllApart(s.settled.files, q.entries) ==> Always(t, s.revised.ops, Unoccupied)
    ensures SafeExactlyWhen(t, q, Batch(done.ops, ids), s)
  {
    hide Always, AlwaysFrom, Clearable, AllHoused, Building, FilesMade, FoldersMade, Doomed, OnlyMakes, OnlyRmdirs, NothingMade, Run, DistinctPaths, AllApart, Consistent, Decided, Identified, SoundFates, KeptAsWanted, NothingStrays, ParentClosed;
    LaterOps(q.tombstones, s.revised, s.cleared, furnished, done);
    ProperParts(t, s.revised.ops, s.revised.deletedAt);
    EmptiedHolds(t, s.revised.ops, s.cleared.ops, done.ops);
    HousedHolds(t, s.cleared.ops, furnished.ops, done.ops);
    if ParentClosed(s.wanted) {
      ClearableIff(t, q, s, Run(t, s.revised.ops).files);
    }
    if DistinctPaths(t) && EntriesApart(q) && Always(t, done.ops, ClearLanding) {
      SettledFirst(s.settled.ops, s.revised.ops, done.ops);
      ClearLandingsApart(t, q, s.settled, done.ops);
      UnoccupiedHolds(t, s.revised.ops, done.ops);
    }
  }

  lemma SettledFirst(a: seq<Op>, b: seq<Op>, c: seq<Op>)
    requires |a| <= |b| <= |c| && b[..|a|] == a && c[..|b|] == b
    ensures |a| <= |c| && c[..|a|] == a
  {
    assert c[..|a|] == c[..|b|][..|a|];
  }

  lemma ProperParts(t: Tree, ops: seq<Op>, deletedAt: map<Path, Op>)
    requires Proper(t, ops, deletedAt)
    ensures Always(t, ops, Lawful) && Always(t, ops, Sheltered) && NothingMade(ops)
  {
  }

  lemma TombstonesHold(stones: Tombstones, cleared: seq<Op>, ops: seq<Op>)
    requires NothingMade(cleared) && |cleared| <= |ops| && ops[..|cleared|] == cleared
    requires forall k :: |cleared| <= k < |ops| ==> NamesTombstone(ops[k], stones)
    ensures forall k :: 0 <= k < |ops| ==> NamesTombstone(ops[k], stones)
  {
    forall k | 0 <= k < |cleared|
      ensures !Makes(ops[k])
    {
      assert ops[k] == cleared[k];
    }
  }

  lemma PlanHolds(t: Tree, q: Request, n: Naming, s: Stages, furnished: Work, done: Work, m: Matching)
    requires FoldersSettled(t, q, s.settled) && Decided(t, q, s) && FoldersSettledEntries(q, s) && m.fates == s.fates
    requires SoundFates(s.settled.files, s.fates) && m.creates == CreationsOf(s.rewritten, s.fates)
    requires AuthorizedFates(s.settled.files, s.rewritten, s.fates, q.creations, q.start)
    requires KeptAsWanted(s.settled.files, Run(t, s.revised.ops).files, s.rewritten, s.fates)
    requires Staged(t, q, n, m.creates, s, furnished, done) && s.cleared.next >= q.start
    ensures Planned(t, q, Batch(done.ops, Assigned(s.fates)), s)
  {
    hide Always, AlwaysFrom, Clearable, AllHoused, FoldersMade, FilesMade, Doomed, OnlyMakes, OnlyRmdirs, NothingMade, Run, Consistent, KeptAsWanted, SoundFates, AuthorizedFates, Rewritten, Fulfilled, DeletesSpare, Furnished, Traced, Assigned, CreationsOf, Decided, NamesTombstone;
    LaterOps(q.tombstones, s.revised, s.cleared, furnished, done);
    ProperParts(t, s.revised.ops, s.revised.deletedAt);
    DeletesHold(t, s.revised.ops, done.ops, s.settled.files, s.rewritten, s.fates);
    TombstonesHold(q.tombstones, s.cleared.ops, done.ops);
    FulfilledHolds(s.settled.files, Run(t, s.revised.ops).files, Run(t, done.ops).files, s.rewritten, s.fates);
    FulfilledForEntries(t.files, s.settled.files, Run(t, done.ops).files, q.entries, s.rewritten, Assigned(s.fates), s.replaced, q.creations, q.start);
    FurnishedHolds(t, q, n, m.creates, s, furnished, done);
  }

  /** Renaming the identity an entry starts with does not change what it asks for. */
  lemma SameAsk(entries: seq<Entry>, rewritten: seq<Entry>, replaced: set<Path>, creations: Creations, start: nat, i: nat)
    requires Rewritten(entries, rewritten, replaced, creations, start) && i < |entries|
    ensures i < |rewritten| && rewritten[i].path == entries[i].path && rewritten[i].content == entries[i].content
  {
  }

  lemma SameUnidentified(a: seq<File>, b: seq<File>, f: File)
    requires Unidentified(a) == Unidentified(b) && f.id.None?
    ensures f in a <==> f in b
  {
    UnidentifiedMembers(a);
    UnidentifiedMembers(b);
    assert f in a <==> f in Unidentified(a);
  }

  lemma FulfilledForEntries(tree: seq<File>, files: seq<File>, after: seq<File>, entries: seq<Entry>, rewritten: seq<Entry>, ids: seq<Id>,
                            replaced: set<Path>, creations: Creations, start: nat)
    requires Unidentified(files) == Unidentified(tree)
    requires Rewritten(entries, rewritten, replaced, creations, start)
    requires Fulfilled(files, after, rewritten, ids)
    ensures Fulfilled(tree, after, entries, ids)
  {
    hide Rewritten, Unidentified;
    RewrittenLength(entries, rewritten, replaced, creations, start);
    forall f: File | f.id.None?
      ensures f in files <==> f in tree
    {
      SameUnidentified(files, tree, f);
    }
    forall f | f in after && f.id.Some?
      ensures exists i :: 0 <= i < |entries| && IsEntry(f, entries[i], ids[i])
    {
      var i :| 0 <= i < |rewritten| && IsEntry(f, rewritten[i], ids[i]);
      SameAsk(entries, rewritten, replaced, creations, start, i);
      assert IsEntry(f, entries[i], ids[i]);
    }
    forall i | 0 <= i < |entries|
      ensures Met(after, entries[i], ids[i])
    {
      SameAsk(entries, rewritten, replaced, creations, start, i);
      MetAlike(after, rewritten[i], entries[i], ids[i]);
    }
  }

  lemma MetAlike(files: seq<File>, e: Entry, r: Entry, id: Id)
    requires Met(files, e, id) && r.path == e.path && r.content == e.content
    ensures Met(files, r, id)
  {
    var f :| f in files && IsEntry(f, e, id);
    assert IsEntry(f, r, id);
  }

  lemma RewrittenLength(entries: seq<Entry>, rewritten: seq<Entry>, replaced: set<Path>, creations: Creations, start: nat)
    requires Rewritten(entries, rewritten, replaced, creations, start)
    ensures |rewritten| == |entries|
  {
  }

  /** The decisions taken before the files are looked at. */
  ghost predicate Prepared(t: Tree, q: Request, s: Stages) {
    && (var r := Relocated(Unplanned(t, q), Destinations(q.wishes, q.renames, t.folders));
        r.Ok? && s.settled == r.value.(next := s.settled.next))
    && Decided(t, q, s) && Rewritten(q.entries, s.rewritten, s.replaced, q.creations, q.start)
  }

  /** No folder of the tree has to make way for a new one at its path. */
  ghost predicate NoneReplaced(t: Tree, q: Request) {
    forall d :: d in t.folders ==> !Replaced(d, WishedIds(q.wishes), q.creations)
  }

  lemma NothingRenewed(t: Tree, q: Request, s: Stages)
    requires Decided(t, q, s) && Rewritten(q.entries, s.rewritten, s.replaced, q.creations, q.start)
    requires s.settled.folders == t.folders && NoneReplaced(t, q)
    ensures s.rewritten == q.entries
  {
    assert s.replaced == {};
    forall i | 0 <= i < |q.entries|
      ensures s.rewritten[i] == q.entries[i]
    {
      assert !UnderSome(q.entries[i].path, s.replaced);
    }
  }

  lemma TreeApart(t: Tree, q: Request)
    requires DistinctPaths(t) && EntriesApart(q)
    ensures AllApart(t.files, q.entries)
  {
    forall f, g | f in t.files && g in t.files && f.id.Some? && g.id.Some? && f.path == g.path
      ensures f.id == g.id
    {
      var i :| 0 <= i < |t.files| && t.files[i] == f;
      var j :| 0 <= j < |t.files| && t.files[j] == g;
      assert !(i < j) && !(j < i);
    }
  }

  /** Nothing has to be moved out of the way, and nothing stands or is wanted twice at one path. */
  ghost predicate InOrder(t: Tree, q: Request) {
    Undisplaced(t, q) && DistinctPaths(t) && EntriesApart(q)
  }

  function NoStages(t: Tree): Stages {
    var w := Work([], t.files, t.folders, map[], 0);
    Stages(w, [], [], {}, {}, {}, w, w, {})
  }

  lemma SettledFacts(t: Tree, q: Request, w: Work, next: nat)
    requires FoldersSettled(t, q, w) && next >= w.next
    ensures FoldersSettled(t, q, w.(next := next)) && Consistent(t, w.(next := next)) && DistinctFolderIds(w.folders)
    ensures w.next >= q.start && Serials(w.ops, q.start, next)
  {
    LaterConsistent(t, w, next);
  }

  lemma RewrittenFacts(t: Tree, q: Request, rewritten: seq<Entry>, replaced: set<Path>, start: nat, next: nat)
    requires Rewritten(q.entries, rewritten, replaced, q.creations, start) && q.start <= start <= next && Unused(t, q)
    ensures Rewritten(q.entries, rewritten, replaced, q.creations, q.start)
    ensures forall i :: 0 <= i < |rewritten| ==> OldPath(rewritten[i].path, next) && rewritten[i].path == q.entries[i].path
  {
    forall i | 0 <= i < |rewritten|
      ensures OldPath(rewritten[i].path, next) && rewritten[i].path == q.entries[i].path
    {
      assert OldPath(q.entries[i].path, q.start);
    }
  }

  lemma FilingFacts(t: Tree, q: Request, w: Work, rewritten: seq<Entry>, m: Matching, r: Work)
    requires FilesSettled(t, w, rewritten, q.creations, m, r) && w.next >= q.start
    ensures |m.fates| == |rewritten| && SoundFates(w.files, m.fates) && m.creates == CreationsOf(rewritten, m.fates)
    ensures AuthorizedFates(w.files, rewritten, m.fates, q.creations, q.start)
    ensures Proper(t, r.ops, r.deletedAt) && r.folders == w.folders && Run(t, r.ops).folders == w.folders && r.next >= w.next
    ensures |w.ops| <= |r.ops| && r.ops[..|w.ops|] == w.ops
    ensures KeptAsWanted(w.files, Run(t, r.ops).files, rewritten, m.fates)
  {
    hide Run, KeptAsWanted, SoundFates, CreationsOf, Proper;
  }

  lemma ApartAlike(files: seq<File>, q: Request, rewritten: seq<Entry>, replaced: set<Path>)
    requires Rewritten(q.entries, rewritten, replaced, q.creations, q.start) && AllApart(files, q.entries)
    ensures AllApart(files, rewritten)
  {
  }

  lemma StagedNext(t: Tree, q: Request, n: Naming, creates: seq<Creation>, s: Stages, furnished: Work, done: Work)
    requires Staged(t, q, n, creates, s, furnished, done)
    ensures s.cleared.next >= s.revised.next
  {
    hide Proper, NothingMade, OnlyMakes, Building, FilesMade, FoldersMade, AlwaysFrom, Clearable, AllHoused, Doomed, Run;
  }

  /**
   The whole planner. Running a returned batch leaves exactly the desired
   files; `s` tells how the batch came about. Where the folders can be moved and
   no path occurs twice, a batch is returned exactly when the entries, as
   renewed under replaced folders, can claim their files and every identified
   file has a revision.
   */
  method BuildOperationBatch(t: Tree, q: Request) returns (r: Result<Batch>, ghost s: Stages)
    requires DistinctIds(t) && Unused(t, q)
    ensures r.Ok? ==> Fulfilled(t.files, Run(t, r.value.ops).files, q.entries, r.value.ids)
    ensures r.Ok? ==> Always(t, r.value.ops, Lawful) && Traced(t, r.value.ops)
    ensures r.Ok? ==> FoldersSettled(t, q, s.settled)
    ensures r.Ok? ==> Planned(t, q, r.value, s)
    ensures r.Ok? ==> AsAsked(t, q, r.value, s)
    ensures r.Ok? ==> OwnNames(q, r.value, s)
    ensures r.Ok? ==> SafeExactlyWhen(t, q, r.value, s)
    ensures r.Ok? ==> AsClaimed(s.settled.files, s.rewritten, q.creations, s.fates) && AllRevised(s.settled.files)
    ensures Unretired(t, q) && Relocated(Unplanned(t, q), Destinations(q.wishes, q.renames, t.folders)).Thrown? ==> r.Thrown?
    ensures Movable(t, q) ==> Prepared(t, q, s)
    ensures Movable(t, q) && AllApart(s.settled.files, q.entries) ==>
              (r.Ok? <==> Claimable(s.settled.files, s.rewritten, q.creations) && AllRevised(s.settled.files))
    ensures InOrder(t, q) && NoneReplaced(t, q) ==> (r.Ok? <==> Claimable(t.files, q.entries, q.creations) && AllRevised(t.files))
  {
    hide AsAsked, Fulfilled, Lawful, Traced, OwnNames, Drawn, Serials, RenewedApart, OwnIds, Planned, SafeExactlyWhen, FoldersSettled, Consistent, Staged, FilesSettled, IsWanted, Rewritten, Proper, AllApart, OnlyRmdirs, OnlyMakes, DistinctPaths, DistinctIds, Unused, Always, Run, KeptAsWanted, SoundFates, AuthorizedFates, CreationsOf, Undisplaced, EntriesApart, NoneReplaced, Claimable, AllRevised, AsClaimed, Movable, Unretired, Relocated;
    s := NoStages(t);
    if Undisplaced(t, q) {
      UndisplacedMovable(t, q);
    }
    var settling := SettleFolders(t, q);
    if settling.Thrown? {
      return Thrown(settling.reason), s;
    }
    var settled := settling.value;
    SettledFacts(t, q, settled, settled.next);
    var kept := PreservedPaths(settled.folders, PreservedIds(t.folders, q.preserve));
    var wanted, parents := CollectWanted(q, kept);
    var replaced := ReplacedPaths(settled.folders, wanted, WishedIds(q.wishes), q.creations);
    var rewritten, next := RewriteEntries(q.entries, replaced, q.creations, settled.next);
    RewrittenFacts(t, q, rewritten, replaced, settled.next, next);
    var renewed := settled.(next := next);
    SettledFacts(t, q, settled, next);
    s := Stages(renewed, rewritten, [], parents, wanted, replaced, renewed, renewed, {});
    if AllApart(renewed.files, q.entries) {
      ApartAlike(renewed.files, q, rewritten, replaced);
    }
    if InOrder(t, q) {
      TreeApart(t, q);
      if NoneReplaced(t, q) {
        NothingRenewed(t, q, s);
      }
    }
    var filing, m := SettleFiles(t, renewed, rewritten, q.creations);
    if filing.Thrown? {
      return Thrown(filing.reason), s;
    }
    var revised := filing.value;
    FilingFacts(t, q, renewed, rewritten, m, revised);
    CreationsFromEntries(q, rewritten, replaced, q.start, m.fates);
    ghost var n := Naming(replaced, WishedIds(q.wishes), q.creations, q.tombstones);
    var done, stages, furnished := SettleNamespace(t, q, kept, parents, m.creates, renewed, rewritten, m.fates, wanted, replaced, revised);
    s := stages;
    StagedNext(t, q, n, m.creates, s, furnished, done);
    PlanHolds(t, q, n, s, furnished, done, m);
    PlannedFacts(t, q, Batch(done.ops, Assigned(m.fates)), s);
    AsAskedHolds(t, q, Batch(done.ops, Assigned(m.fates)), s);
    OwnNamesHold(q, s, done, settled.next);
    SafetyHolds(t, q, n, m.creates, s, furnished, done, Assigned(m.fates));
    return Ok(Batch(done.ops, Assigned(m.fates))), s;
  }
}
