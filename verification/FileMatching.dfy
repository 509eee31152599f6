/**
 Matching the desired entries with the files of the tree
 (plugin/src/operation-plan.ts:29-35): who is kept, moved, edited, made, and
 who is deleted.
 */
module FileMatching {
  import opened Wrappers
  import opened Paths
  import opened OperationModel
  import opened PlanWork

  /** A desired file; its identity is known, or still to be assigned. */
  datatype Entry = Entry(path: Path, content: Content, id: Option<Id>)

  datatype EntityKind = FileEntity | FolderEntity

  /**
   The latest intent per entity and path where that intent is a creation
   (`latestCreate`), with the identity it carries, if any.
   */
  type Creations = map<(EntityKind, Path), Option<Id>>

  function CreationId(creations: Creations, kind: EntityKind, path: Path): Option<Id> {
    if (kind, path) in creations then creations[(kind, path)] else None
  }

  /** What is decided for one entry: it keeps a file of the tree, or a file is made for it. */
  datatype Fate = Reuse(id: Id, revision: Id) | Make(target: Id)

  datatype Relocation = Relocation(id: Id, revision: Id, to: Path)

  datatype Creation = Creation(entry: Entry, target: Id)

  function ById(files: seq<File>, id: Id): (r: Option<File>)
    ensures r.Some? ==> r.value in files && r.value.id == Some(id)
    ensures r.None? ==> forall f :: f in files ==> f.id != Some(id)
  {
    if files == [] then None
    else
      var last := files[|files| - 1];
      assert forall f :: f in files <==> f in files[..|files| - 1] || f == last;
      if last.id == Some(id) then Some(last) else ById(files[..|files| - 1], id)
  }

  function ByPath(files: seq<File>, path: Path): (r: Option<File>)
    ensures r.Some? ==> r.value in files && r.value.path == path
    ensures r.None? ==> forall f :: f in files ==> f.path != path
  {
    if files == [] then None
    else
      var last := files[|files| - 1];
      assert forall f :: f in files <==> f in files[..|files| - 1] || f == last;
      if last.path == path then Some(last) else ByPath(files[..|files| - 1], path)
  }

  lemma ByIdUnique(files: seq<File>, f: File)
    requires DistinctFileIds(files) && f in files && f.id.Some?
    ensures ById(files, f.id.value) == Some(f)
  {
    SameFile(files, f, ById(files, f.id.value).value);
  }

  // ------------------------------------------------------------------ results

  /** The moves, edits and creations that a list of fates calls for, in entry order. */
  function MovesOf(files: seq<File>, entries: seq<Entry>, fates: seq<Fate>): seq<Relocation>
    requires |entries| == |fates|
  {
    if fates == [] then []
    else
      var n := |fates| - 1;
      MovesOf(files, entries[..n], fates[..n]) +
      if fates[n].Reuse? && ById(files, fates[n].id).Some? && ById(files, fates[n].id).value.path != entries[n].path
      then [Relocation(fates[n].id, fates[n].revision, entries[n].path)] else []
  }

  datatype Revision = Revision(id: Id, revision: Id, content: Content)

  function EditsOf(files: seq<File>, entries: seq<Entry>, fates: seq<Fate>): seq<Revision>
    requires |entries| == |fates|
  {
    if fates == [] then []
    else
      var n := |fates| - 1;
      EditsOf(files, entries[..n], fates[..n]) +
      if fates[n].Reuse? && ById(files, fates[n].id).Some? && ById(files, fates[n].id).value.content != entries[n].content
      then [Revision(fates[n].id, fates[n].revision, entries[n].content)] else []
  }

  function CreationsOf(entries: seq<Entry>, fates: seq<Fate>): seq<Creation>
    requires |entries| == |fates|
  {
    if fates == [] then []
    else
      var n := |fates| - 1;
      CreationsOf(entries[..n], fates[..n]) + if fates[n].Make? then [Creation(entries[n], fates[n].target)] else []
  }

  function UsedIds(fates: seq<Fate>): (used: set<Id>)
    ensures forall id :: id in used <==> exists i :: 0 <= i < |fates| && fates[i].Reuse? && fates[i].id == id
  {
    set i | 0 <= i < |fates| && fates[i].Reuse? :: fates[i].id
  }

  lemma UsedStep(fates: seq<Fate>, fate: Fate)
    ensures UsedIds(fates + [fate]) == UsedIds(fates) + if fate.Reuse? then {fate.id} else {}
  {
    var all := fates + [fate];
    forall id
      ensures id in UsedIds(all) <==> id in UsedIds(fates) || (fate.Reuse? && id == fate.id)
    {
      if id in UsedIds(fates) {
        var i :| 0 <= i < |fates| && fates[i].Reuse? && fates[i].id == id;
        assert all[i] == fates[i];
      }
      if fate.Reuse? && id == fate.id {
        assert all[|fates|] == fate;
      }
    }
  }

  ghost predicate AreEdits(ops: seq<Op>, revisions: seq<Revision>) {
    && |ops| == |revisions|
    && forall k :: 0 <= k < |ops| ==>
      ops[k].Edit? && ops[k].target == revisions[k].id && ops[k].revision == revisions[k].revision && ops[k].content == revisions[k].content
  }

  /** The kept file is in the tree at the pinned revision. */
  ghost predicate SoundFate(files: seq<File>, fate: Fate) {
    fate.Reuse? ==> exists f :: f in files && f.id == Some(fate.id) && f.revision == Some(fate.revision)
  }

  /** Each kept file is in the tree at the pinned revision, and no two entries keep the same one. */
  ghost predicate SoundFates(files: seq<File>, fates: seq<Fate>) {
    && (forall i :: 0 <= i < |fates| ==> SoundFate(files, fates[i]))
    && (forall i, j :: 0 <= i < j < |fates| && fates[i].Reuse? && fates[j].Reuse? ==> fates[i].id != fates[j].id)
  }

  /** An entry whose identity is in the tree keeps it; a made file takes the creation's, its own, or a fresh identity. */
  ghost predicate AuthorizedFate(files: seq<File>, entry: Entry, fate: Fate, creations: Creations, next: nat) {
    && (entry.id.Some? && ById(files, entry.id.value).Some? ==> fate.Reuse? && fate.id == entry.id.value)
    && (fate.Reuse? ==>
          entry.id == Some(fate.id) ||
          (entry.id.None? && (FileEntity, entry.path) !in creations
           && ByPath(files, entry.path).Some? && ByPath(files, entry.path).value.id == Some(fate.id)))
    && (fate.Make? ==>
          var asked := CreationId(creations, FileEntity, entry.path);
          if asked.Some? then fate.target == asked.value
          else if entry.id.Some? then fate.target == entry.id.value
          else fate.target.Minted? && fate.target.serial >= next)
  }

  ghost predicate AuthorizedFates(files: seq<File>, entries: seq<Entry>, fates: seq<Fate>, creations: Creations, next: nat)
    requires |entries| == |fates|
  {
    forall i :: 0 <= i < |fates| ==> AuthorizedFate(files, entries[i], fates[i], creations, next)
  }

  /** The file of the tree that an entry claims: by its identity or, where nothing was created, by its path. */
  function Found(files: seq<File>, entry: Entry, creations: Creations): Option<File> {
    if entry.id.Some? then ById(files, entry.id.value)
    else if (FileEntity, entry.path) in creations then None
    else ByPath(files, entry.path)
  }

  ghost predicate Pinned(f: File) {
    f.id.Some? && f.revision.Some?
  }

  /** Every claimed file has an identity and a revision, and no two entries claim the same one. */
  ghost predicate Claimable(files: seq<File>, entries: seq<Entry>, creations: Creations) {
    && (forall i :: 0 <= i < |entries| && Found(files, entries[i], creations).Some? ==> Pinned(Found(files, entries[i], creations).value))
    && (forall i, j :: 0 <= i < j < |entries| && Found(files, entries[i], creations).Some? && Found(files, entries[j], creations).Some?
                       ==> Found(files, entries[i], creations).value.id != Found(files, entries[j], creations).value.id)
  }

  /** Exactly the entries that claim a file keep one, and it is the one they claim. */
  ghost predicate AsClaimed(files: seq<File>, entries: seq<Entry>, creations: Creations, fates: seq<Fate>) {
    && |fates| == |entries|
    && forall i :: 0 <= i < |entries| ==>
      var found := Found(files, entries[i], creations);
      if found.Some? then Pinned(found.value) && fates[i] == Reuse(found.value.id.value, found.value.revision.value) else fates[i].Make?
  }

  lemma ClaimablePrefix(files: seq<File>, entries: seq<Entry>, creations: Creations, n: nat)
    requires n <= |entries| && Claimable(files, entries, creations)
    ensures Claimable(files, entries[..n], creations)
  {
  }

  lemma NothingClaimed(files: seq<File>, creations: Creations)
    ensures Claimable(files, [], creations) && AsClaimed(files, [], creations, [])
  {
  }

  datatype Decision = Decision(fate: Fate, next: nat)

  /** What one turn of the matching loop decides; a fresh identity costs one uuid. */
  function Decide(files: seq<File>, entry: Entry, creations: Creations, used: set<Id>, next: nat): Result<Decision> {
    var found := Found(files, entry, creations);
    if found.Some? then
      var f := found.value;
      if f.id.None? || f.revision.None? || f.id.value in used then
        Thrown("Server file identity is unavailable or claimed by two paths")
      else Ok(Decision(Reuse(f.id.value, f.revision.value), next))
    else
      var asked := CreationId(creations, FileEntity, entry.path);
      if asked.Some? then Ok(Decision(Make(asked.value), next))
      else if entry.id.Some? then Ok(Decision(Make(entry.id.value), next))
      else Ok(Decision(Make(Minted(next)), next + 1))
  }

  lemma DecideAuthorized(files: seq<File>, entry: Entry, creations: Creations, used: set<Id>, next: nat, start: nat)
    requires DistinctFileIds(files) && start <= next
    ensures var d := Decide(files, entry, creations, used, next);
      d.Ok? ==>
        && SoundFate(files, d.value.fate)
        && AuthorizedFate(files, entry, d.value.fate, creations, start)
        && (d.value.fate.Reuse? ==> d.value.fate.id !in used && ById(files, d.value.fate.id).Some?)
        && d.value.next >= next
  {
  }

  /** One more entry can be decided exactly when the claims remain possible. */
  lemma ClaimStep(files: seq<File>, entries: seq<Entry>, creations: Creations, fates: seq<Fate>, entry: Entry, next: nat)
    requires Claimable(files, entries, creations) && AsClaimed(files, entries, creations, fates)
    ensures var d := Decide(files, entry, creations, UsedIds(fates), next);
      && (d.Ok? <==> Claimable(files, entries + [entry], creations))
      && (d.Ok? ==> AsClaimed(files, entries + [entry], creations, fates + [d.value.fate]))
  {
    hide Found;
    var all, found := entries + [entry], Found(files, entry, creations);
    assert all[|entries|] == entry;
    if found.Some? && Pinned(found.value) {
      UsedIffClaimed(files, entries, creations, fates, found.value.id.value);
      assert forall i :: 0 <= i < |entries| ==> all[i] == entries[i];
    }
  }

  lemma UsedIffClaimed(files: seq<File>, entries: seq<Entry>, creations: Creations, fates: seq<Fate>, id: Id)
    requires AsClaimed(files, entries, creations, fates)
    ensures id in UsedIds(fates) <==>
              exists i :: 0 <= i < |entries| && Found(files, entries[i], creations).Some? && Found(files, entries[i], creations).value.id == Some(id)
  {
    hide Found;
    if id in UsedIds(fates) {
      var i :| 0 <= i < |fates| && fates[i].Reuse? && fates[i].id == id;
      assert Found(files, entries[i], creations).Some?;
    }
  }

  lemma SoundStep(files: seq<File>, fates: seq<Fate>, fate: Fate)
    requires SoundFates(files, fates) && SoundFate(files, fate) && (fate.Reuse? ==> fate.id !in UsedIds(fates))
    ensures SoundFates(files, fates + [fate])
  {
    var all := fates + [fate];
    forall i, j | 0 <= i < j < |all| && all[i].Reuse? && all[j].Reuse?
      ensures all[i].id != all[j].id
    {
      assert all[i] == fates[i];
    }
  }

  /** The accumulators of the matching loop; `next` is the state of the uuid source. */
  datatype Matching = Matching(fates: seq<Fate>, moves: seq<Relocation>, edits: seq<Op>, creates: seq<Creation>, next: nat)

  /** What the loop has made of `entries` so far. */
  ghost predicate Matched(files: seq<File>, entries: seq<Entry>, creations: Creations, start: nat, m: Matching) {
    && |m.fates| == |entries|
    && SoundFates(files, m.fates)
    && AuthorizedFates(files, entries, m.fates, creations, start)
    && m.moves == MovesOf(files, entries, m.fates)
    && AreEdits(m.edits, EditsOf(files, entries, m.fates))
    && m.creates == CreationsOf(entries, m.fates)
    && m.next >= start
  }

  /** The pushes one decided entry causes. */
  function Push(files: seq<File>, m: Matching, entry: Entry, d: Decision): Matching {
    var fate := d.fate;
    if fate.Reuse? && ById(files, fate.id).Some? then
      var kept := ById(files, fate.id).value;
      var edited := kept.content != entry.content;
      Matching(m.fates + [fate],
               m.moves + (if kept.path != entry.path then [Relocation(fate.id, fate.revision, entry.path)] else []),
               m.edits + (if edited then [Edit(Minted(d.next), fate.id, fate.revision, entry.content)] else []),
               m.creates,
               if edited then d.next + 1 else d.next)
    else if fate.Make? then
      Matching(m.fates + [fate], m.moves, m.edits, m.creates + [Creation(entry, fate.target)], d.next)
    else m
  }

  /** The lists grow by what the decided entry calls for. */
  lemma PushLists(files: seq<File>, entries: seq<Entry>, m: Matching, entry: Entry, d: Decision)
    requires |m.fates| == |entries| && (d.fate.Reuse? ==> ById(files, d.fate.id).Some?)
    requires m.moves == MovesOf(files, entries, m.fates) && m.creates == CreationsOf(entries, m.fates)
    ensures var r := Push(files, m, entry, d);
      && r.fates == m.fates + [d.fate] && r.next >= d.next
      && r.moves == MovesOf(files, entries + [entry], r.fates)
      && r.creates == CreationsOf(entries + [entry], r.fates)
  {
    assert (entries + [entry])[..|entries|] == entries && (m.fates + [d.fate])[..|entries|] == m.fates;
  }

  lemma PushEdits(files: seq<File>, entries: seq<Entry>, m: Matching, entry: Entry, d: Decision)
    requires |m.fates| == |entries| && (d.fate.Reuse? ==> ById(files, d.fate.id).Some?)
    requires AreEdits(m.edits, EditsOf(files, entries, m.fates))
    ensures var r := Push(files, m, entry, d);
      r.fates == m.fates + [d.fate] && AreEdits(r.edits, EditsOf(files, entries + [entry], r.fates))
  {
    assert (entries + [entry])[..|entries|] == entries && (m.fates + [d.fate])[..|entries|] == m.fates;
  }

  lemma AuthorizedStep(files: seq<File>, entries: seq<Entry>, fates: seq<Fate>, creations: Creations, start: nat, entry: Entry, fate: Fate)
    requires |entries| == |fates| && AuthorizedFates(files, entries, fates, creations, start)
    requires AuthorizedFate(files, entry, fate, creations, start)
    ensures AuthorizedFates(files, entries + [entry], fates + [fate], creations, start)
  {
    hide AuthorizedFate;
  }

  lemma PushMatched(files: seq<File>, entries: seq<Entry>, creations: Creations, start: nat, m: Matching, entry: Entry)
    requires DistinctFileIds(files) && Matched(files, entries, creations, start, m)
    ensures var d := Decide(files, entry, creations, UsedIds(m.fates), m.next);
      d.Ok? ==>
        && Matched(files, entries + [entry], creations, start, Push(files, m, entry, d.value))
        && Push(files, m, entry, d.value).fates == m.fates + [d.value.fate]
  {
    hide Decide, Push, SoundFates, SoundFate, AuthorizedFate, AuthorizedFates, MovesOf, EditsOf, CreationsOf, AreEdits, UsedIds, DistinctFileIds;
    DecideAuthorized(files, entry, creations, UsedIds(m.fates), m.next, start);
    var d := Decide(files, entry, creations, UsedIds(m.fates), m.next);
    if d.Ok? {
      SoundStep(files, m.fates, d.value.fate);
      AuthorizedStep(files, entries, m.fates, creations, start, entry, d.value.fate);
      PushLists(files, entries, m, entry, d.value);
      PushEdits(files, entries, m, entry, d.value);
    }
  }

  lemma NothingMatched(files: seq<File>, creations: Creations, next: nat)
    ensures Matched(files, [], creations, next, Matching([], [], [], [], next)) && UsedIds([]) == {}
  {
  }

  /** The entry has neither an identity nor a recorded creation. */
  predicate DrawsId(e: Entry, creations: Creations) {
    e.id.None? && CreationId(creations, FileEntity, e.path).None?
  }

  /** New files without an identity get one minted for them alone, from serial `lo` up to `hi`. */
  ghost predicate OwnIds(entries: seq<Entry>, fates: seq<Fate>, creations: Creations, lo: nat, hi: nat)
    requires |entries| == |fates|
  {
    && (forall i :: 0 <= i < |fates| && fates[i].Make? && DrawsId(entries[i], creations)
                    ==> fates[i].target.Minted? && lo <= fates[i].target.serial < hi)
    && (forall i, j :: 0 <= i < j < |fates| && fates[i].Make? && fates[j].Make?
                       && DrawsId(entries[i], creations) && DrawsId(entries[j], creations)
                       ==> fates[i].target != fates[j].target)
  }

  lemma PushNames(files: seq<File>, entries: seq<Entry>, creations: Creations, start: nat, m: Matching, entry: Entry)
    requires DistinctFileIds(files) && Matched(files, entries, creations, start, m)
    requires Serials(m.edits, start, m.next) && OwnIds(entries, m.fates, creations, start, m.next)
    ensures var d := Decide(files, entry, creations, UsedIds(m.fates), m.next);
      d.Ok? ==>
        && var r := Push(files, m, entry, d.value);
        && Serials(r.edits, start, r.next)
        && r.fates == m.fates + [d.value.fate]
        && OwnIds(entries + [entry], r.fates, creations, start, r.next)
  {
    hide Matched;
    var d := Decide(files, entry, creations, UsedIds(m.fates), m.next);
    if d.Ok? {
      PushMatched(files, entries, creations, start, m, entry);
      MatchedLength(files, entries, creations, start, m);
      DecideAuthorized(files, entry, creations, UsedIds(m.fates), m.next, start);
    }
  }

  lemma MatchedLength(files: seq<File>, entries: seq<Entry>, creations: Creations, start: nat, m: Matching)
    requires Matched(files, entries, creations, start, m)
    ensures |m.fates| == |entries| && m.next >= start
  {
  }

  lemma NothingNamed(creations: Creations, next: nat)
    ensures Serials([], next, next) && OwnIds([], [], creations, next, next)
  {
  }

  /** The matching loop (plugin/src/operation-plan.ts:34). */
  method Match(files: seq<File>, entries: seq<Entry>, creations: Creations, next: nat) returns (r: Result<Matching>)
    requires DistinctFileIds(files)
    ensures r.Ok? <==> Claimable(files, entries, creations)
    ensures r.Ok? ==> Matched(files, entries, creations, next, r.value) && AsClaimed(files, entries, creations, r.value.fates)
    ensures r.Ok? ==> Serials(r.value.edits, next, r.value.next)
    ensures r.Ok? ==> |r.value.fates| == |entries| && OwnIds(entries, r.value.fates, creations, next, r.value.next)
  {
    hide Matched, Decide, Push, UsedIds, DistinctFileIds, Serials, OwnIds, Claimable, AsClaimed;
    var m := Matching([], [], [], [], next);
    var used: set<Id> := {};
    NothingMatched(files, creations, next);
    NothingNamed(creations, next);
    NothingClaimed(files, creations);
    assert entries[..0] == [];
    for i := 0 to |entries|
      invariant Matched(files, entries[..i], creations, next, m)
      invariant Claimable(files, entries[..i], creations) && AsClaimed(files, entries[..i], creations, m.fates)
      invariant used == UsedIds(m.fates) && |m.fates| == i
      invariant Serials(m.edits, next, m.next) && OwnIds(entries[..i], m.fates, creations, next, m.next)
    {
      PushMatched(files, entries[..i], creations, next, m, entries[i]);
      PushNames(files, entries[..i], creations, next, m, entries[i]);
      ClaimStep(files, entries[..i], creations, m.fates, entries[i], m.next);
      assert entries[..i] + [entries[i]] == entries[..i + 1];
      if Claimable(files, entries, creations) {
        ClaimablePrefix(files, entries, creations, i + 1);
      }
      var d :- Decide(files, entries[i], creations, used, m.next);
      UsedStep(m.fates, d.fate);
      if d.fate.Reuse? {
        used := used + {d.fate.id};
      }
      m := Push(files, m, entries[i], d);
    }
    assert entries[..|entries|] == entries;
    return Ok(m);
  }
}
