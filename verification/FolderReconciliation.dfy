/**
 Aligning the files of three manifests with one folder plan
 (plugin/src/folder-reconciliation.ts:16-32). The plan is an arbitrary choice
 of a path per folder identity.
 */
module FolderReconciliation {
  import opened Wrappers
  import opened Paths
  import opened FolderPlan

  datatype Side = Base | Local | Remote

  datatype FolderEntry = FolderEntry(id: Id, path: Path)

  datatype Entry = Entry(path: Path, fileId: Option<Id>, hash: string, source: Option<Path>)

  datatype Alias = Alias(from: Path, to: Path)

  datatype Version = Version(side: Side, entry: Entry, original: Path)

  datatype Collision = Collision(path: Path, versions: seq<Version>)

  // ------------------------------------------------------------------ aliases

  /** The folders whose chosen path differs from their own. */
  function AliasesOf(folders: seq<FolderEntry>, selected: map<Id, Path>): seq<Alias> {
    if folders == [] then []
    else
      var d := folders[0];
      (if d.id in selected && selected[d.id] != d.path then [Alias(d.path, selected[d.id])] else []) + AliasesOf(folders[1..], selected)
  }

  /** Stable order by descending length of the original path. */
  function InsertAlias(a: Alias, sorted: seq<Alias>): seq<Alias> {
    if sorted == [] then [a]
    else if TextLength(a.from) >= TextLength(sorted[0].from) then [a] + sorted
    else [sorted[0]] + InsertAlias(a, sorted[1..])
  }

  function SortAliases(aliases: seq<Alias>): seq<Alias> {
    if aliases == [] then [] else InsertAlias(aliases[0], SortAliases(aliases[1..]))
  }

  ghost predicate LongestFirstOrder(aliases: seq<Alias>) {
    forall i, j :: 0 <= i < j < |aliases| ==> TextLength(aliases[i].from) >= TextLength(aliases[j].from)
  }

  lemma {:induction false} InsertAliasFacts(a: Alias, sorted: seq<Alias>)
    requires LongestFirstOrder(sorted)
    ensures LongestFirstOrder(InsertAlias(a, sorted)) && forall b :: b in InsertAlias(a, sorted) <==> b == a || b in sorted
  {
    if sorted != [] && TextLength(a.from) < TextLength(sorted[0].from) {
      InsertAliasFacts(a, sorted[1..]);
      assert forall b :: b in sorted <==> b == sorted[0] || b in sorted[1..];
      forall b | b in InsertAlias(a, sorted[1..])
        ensures TextLength(sorted[0].from) >= TextLength(b.from)
      {
      }
    }
  }

  lemma {:induction false} SortAliasFacts(aliases: seq<Alias>)
    ensures LongestFirstOrder(SortAliases(aliases)) && forall b :: b in SortAliases(aliases) <==> b in aliases
  {
    if aliases != [] {
      SortAliasFacts(aliases[1..]);
      InsertAliasFacts(aliases[0], SortAliases(aliases[1..]));
      assert forall b :: b in aliases <==> b == aliases[0] || b in aliases[1..];
    }
  }

  /** `aliases.find(item => original.startsWith(item.from + "/"))` */
  function FirstAlias(aliases: seq<Alias>, original: Path): (r: Option<Alias>)
    ensures r.Some? ==> r.value in aliases && Under(original, r.value.from)
    ensures r.None? ==> forall a :: a in aliases ==> !Under(original, a.from)
  {
    if aliases == [] then None
    else if Under(original, aliases[0].from) then Some(aliases[0])
    else FirstAlias(aliases[1..], original)
  }

  lemma {:induction false} FirstIsLongest(aliases: seq<Alias>, original: Path, a: Alias)
    requires LongestFirstOrder(aliases) && a in aliases && Under(original, a.from)
    ensures FirstAlias(aliases, original).Some? && |FirstAlias(aliases, original).value.from| >= |a.from|
  {
    if !Under(original, aliases[0].from) {
      assert a in aliases[1..];
      FirstIsLongest(aliases[1..], original, a);
    } else {
      LongerText(original, aliases[0].from, a.from);
    }
  }

  /** Of two folders that hold the same path, the one with the longer name is the deeper one. */
  lemma LongerText(original: Path, p: Path, q: Path)
    requires Under(original, p) && Under(original, q) && TextLength(p) >= TextLength(q)
    ensures |p| >= |q|
  {
    if |p| < |q| {
      assert q[..|p|] == original[..|q|][..|p|] == p || p == [];
      if p == original[..|p|] && |p| > 0 {
        UnderIsLonger(q, p);
      }
    }
  }

  /** The aligned path of a file. */
  function Place(folders: seq<FolderEntry>, selected: map<Id, Path>, original: Path): Path {
    var alias := FirstAlias(SortAliases(AliasesOf(folders, selected)), original);
    if alias.Some? then Rebase(original, alias.value.from, alias.value.to) else original
  }

  // ---------------------------------------------------- which prefix decides

  predicate Moved(d: FolderEntry, selected: map<Id, Path>) {
    d.id in selected && selected[d.id] != d.path
  }

  lemma {:induction false} AliasMembers(folders: seq<FolderEntry>, selected: map<Id, Path>)
    ensures forall a :: a in AliasesOf(folders, selected) <==>
              exists d :: d in folders && Moved(d, selected) && a == Alias(d.path, selected[d.id])
  {
    if folders != [] {
      AliasMembers(folders[1..], selected);
      assert forall d :: d in folders <==> d == folders[0] || d in folders[1..];
    }
  }

  /** `d` is a deepest folder of the side that holds `original`. */
  ghost predicate Deepest(folders: seq<FolderEntry>, original: Path, d: FolderEntry) {
    d in folders && Under(original, d.path) && forall e :: e in folders && Under(original, e.path) ==> |e.path| <= |d.path|
  }

  ghost predicate UniquePaths(folders: seq<FolderEntry>) {
    forall d, e :: d in folders && e in folders && d.path == e.path ==> d == e
  }

  lemma SameDepth(original: Path, p: Path, q: Path)
    requires Under(original, p) && Under(original, q) && |p| == |q|
    ensures p == q
  {
  }

  /**
   A file follows its deepest folder exactly when that folder moved, or no
   folder that holds the file moved: an unmoved folder inside a moved one does
   not shield its files.
   */
  lemma DeepestDecidesIff(folders: seq<FolderEntry>, selected: map<Id, Path>, original: Path, d: FolderEntry)
    requires UniquePaths(folders) && Deepest(folders, original, d)
    ensures Place(folders, selected, original) == (if Moved(d, selected) then Rebase(original, d.path, selected[d.id]) else original)
            <==> Moved(d, selected) || forall e :: e in folders && Under(original, e.path) ==> !Moved(e, selected)
  {
    AliasMembers(folders, selected);
    SortAliasFacts(AliasesOf(folders, selected));
    var aliases := SortAliases(AliasesOf(folders, selected));
    var found := FirstAlias(aliases, original);
    if Moved(d, selected) {
      var mine := Alias(d.path, selected[d.id]);
      FirstIsLongest(aliases, original, mine);
      var e :| e in folders && Moved(e, selected) && found.value == Alias(e.path, selected[e.id]);
      SameDepth(original, e.path, d.path);
    } else if found.Some? {
      var e :| e in folders && Moved(e, selected) && found.value == Alias(e.path, selected[e.id]);
      RebaseMoves(original, e.path, selected[e.id]);
    } else {
      forall e | e in folders && Moved(e, selected)
        ensures !Under(original, e.path)
      {
        assert Alias(e.path, selected[e.id]) in aliases;
      }
    }
  }

  lemma RebaseMoves(original: Path, from: Path, to: Path)
    requires Under(original, from) && from != to
    ensures Rebase(original, from, to) != original
  {
    var r := Rebase(original, from, to);
    assert r[..|to|] == to && |r| == |to| + |original| - |from|;
  }

  /** Among the moved folders that hold the file the deepest one decides. */
  lemma LongestMovedDecides(folders: seq<FolderEntry>, selected: map<Id, Path>, original: Path, d: FolderEntry)
    requires UniquePaths(folders) && d in folders && Moved(d, selected) && Under(original, d.path)
    requires forall e :: e in folders && Moved(e, selected) && Under(original, e.path) ==> |e.path| <= |d.path|
    ensures Place(folders, selected, original) == Rebase(original, d.path, selected[d.id])
  {
    AliasMembers(folders, selected);
    SortAliasFacts(AliasesOf(folders, selected));
    var aliases := SortAliases(AliasesOf(folders, selected));
    FirstIsLongest(aliases, original, Alias(d.path, selected[d.id]));
    var found := FirstAlias(aliases, original).value;
    var e :| e in folders && Moved(e, selected) && found == Alias(e.path, selected[e.id]);
    SameDepth(original, e.path, d.path);
  }

  // ---------------------------------------------------------------- alignment

  /** One map of files in its iteration order. */
  type Files = seq<(Path, Entry)>

  function Mapped(folders: seq<FolderEntry>, selected: map<Id, Path>, side: Side, original: Path, entry: Entry): Version {
    var path := Place(folders, selected, original);
    var source := if side.Local? && path != original then Some(if entry.source.Some? then entry.source.value else original) else entry.source;
    Version(side, entry.(path := path, source := source), original)
  }

  function VersionsOf(folders: seq<FolderEntry>, selected: map<Id, Path>, side: Side, files: Files): (r: seq<Version>)
    ensures |r| == |files| && forall i :: 0 <= i < |r| ==> r[i] == Mapped(folders, selected, side, files[i].0, files[i].1)
  {
    seq(|files|, i requires 0 <= i < |files| => Mapped(folders, selected, side, files[i].0, files[i].1))
  }

  /** The versions that share an aligned path, in order. */
  function At(versions: seq<Version>, p: Path): (r: seq<Version>)
    ensures forall v :: v in r <==> v in versions && v.entry.path == p
  {
    if versions == [] then []
    else
      var last := versions[|versions| - 1];
      assert forall v :: v in versions <==> v in versions[..|versions| - 1] || v == last;
      At(versions[..|versions| - 1], p) + if last.entry.path == p then [last] else []
  }

  type Groups = map<Path, seq<Version>>

  /** The groups hold exactly the versions, by aligned path. */
  ghost predicate Grouped(groups: Groups, versions: seq<Version>) {
    && (forall p :: p in groups ==> groups[p] == At(versions, p) && groups[p] != [])
    && (forall v :: v in versions ==> v.entry.path in groups)
  }

  lemma GroupedStep(groups: Groups, versions: seq<Version>, v: Version)
    requires Grouped(groups, versions)
    ensures var p := v.entry.path;
      Grouped(groups[p := (if p in groups then groups[p] else []) + [v]], versions + [v])
  {
    var p := v.entry.path;
    var all := versions + [v];
    assert all[..|versions|] == versions;
    if p !in groups {
      NoneAt(versions, p);
    }
  }

  /** The aligned map of a side: of the files that land on one path the last one stays. */
  ghost predicate Holds(next: map<Path, Entry>, versions: seq<Version>) {
    forall p :: LastStays(next, versions, p)
  }

  ghost predicate LastStays(next: map<Path, Entry>, versions: seq<Version>, p: Path) {
    var here := At(versions, p);
    if here == [] then p !in next else p in next && next[p] == here[|here| - 1].entry
  }

  /** `align` for one side. */
  method Align(folders: seq<FolderEntry>, selected: map<Id, Path>, side: Side, files: Files, before: Groups, ghost seen: seq<Version>)
    returns (next: map<Path, Entry>, groups: Groups)
    requires Grouped(before, seen)
    ensures Grouped(groups, seen + VersionsOf(folders, selected, side, files))
    ensures Holds(next, VersionsOf(folders, selected, side, files))
  {
    hide At;
    ghost var versions := VersionsOf(folders, selected, side, files);
    next, groups := map[], before;
    HoldsNothing();
    assert seen + versions[..0] == seen;
    for i := 0 to |files|
      invariant Grouped(groups, seen + versions[..i]) && Holds(next, versions[..i])
    {
      var v := Mapped(folders, selected, side, files[i].0, files[i].1);
      var p := v.entry.path;
      GroupedStep(groups, seen + versions[..i], v);
      assert seen + versions[..i] + [v] == seen + versions[..i + 1];
      groups := groups[p := (if p in groups then groups[p] else []) + [v]];
      HoldsStep(next, versions, i);
      next := next[p := v.entry];
    }
    assert versions[..|files|] == versions;
  }

  lemma HoldsNothing()
    ensures Holds(map[], [])
  {
  }

  lemma HoldsStep(next: map<Path, Entry>, versions: seq<Version>, i: nat)
    requires i < |versions| && Holds(next, versions[..i])
    ensures Holds(next[versions[i].entry.path := versions[i].entry], versions[..i + 1])
  {
    var v, init, upTo := versions[i], versions[..i], versions[..i + 1];
    var after := next[v.entry.path := v.entry];
    assert upTo[..i] == init && upTo[i] == v;
    forall p: Path
      ensures LastStays(after, upTo, p)
    {
      assert LastStays(next, init, p);
      assert At(upTo, p) == At(init, p) + if v.entry.path == p then [v] else [];
    }
  }

  // --------------------------------------------------------------- collisions

  /** What tells two files apart: the identity, or where they came from. */
  datatype Identity = ById(id: Id) | ByContent(original: Path, hash: string) | ByPath(original: Path)

  function ContentIdentity(v: Version): Identity {
    if v.entry.fileId.Some? then ById(v.entry.fileId.value) else ByContent(v.original, v.entry.hash)
  }

  function PlaceIdentity(v: Version): Identity {
    if v.entry.fileId.Some? then ById(v.entry.fileId.value) else ByPath(v.original)
  }

  function CurrentIdentities(versions: seq<Version>): set<Identity> {
    set v | v in versions && !v.side.Base? :: ContentIdentity(v)
  }

  function SideIdentities(versions: seq<Version>, side: Side): set<Identity> {
    set v | v in versions && v.side == side :: PlaceIdentity(v)
  }

  /** Distinct current files, and two files of one side, share the path. */
  predicate Reported(versions: seq<Version>) {
    && |CurrentIdentities(versions)| >= 2
    && (|SideIdentities(versions, Base)| > 1 || |SideIdentities(versions, Local)| > 1 || |SideIdentities(versions, Remote)| > 1)
  }

  lemma TwoMembers(s: set<Identity>, a: Identity, b: Identity)
    requires a in s && b in s && a != b
    ensures |s| >= 2
  {
    assert {a, b} <= s;
    assert |s| == |{a, b}| + |s - {a, b}|;
  }

  /** Two files of one current side that can be told apart are reported. */
  lemma TwoOfOneSide(versions: seq<Version>, u: Version, v: Version)
    requires u in versions && v in versions && u.side == v.side && !u.side.Base?
    requires ContentIdentity(u) != ContentIdentity(v) && PlaceIdentity(u) != PlaceIdentity(v)
    ensures Reported(versions)
  {
    TwoMembers(CurrentIdentities(versions), ContentIdentity(u), ContentIdentity(v));
    TwoMembers(SideIdentities(versions, u.side), PlaceIdentity(u), PlaceIdentity(v));
  }

  function FindVersion(versions: seq<Version>, accept: Version -> bool): (r: Option<Version>)
    ensures r.Some? ==> exists i :: 0 <= i < |versions| && versions[i] == r.value && accept(r.value) && forall j :: 0 <= j < i ==> !accept(versions[j])
    ensures r.None? ==> forall v :: v in versions ==> !accept(v)
  {
    if versions == [] then None
    else if accept(versions[0]) then Some(versions[0])
    else FindVersion(versions[1..], accept)
  }

  function Stayed(p: Path): Version -> bool {
    (v: Version) => v.side.Remote? && v.original == p
  }

  predicate IsRemote(v: Version) {
    v.side.Remote?
  }

  predicate IsCurrent(v: Version) {
    !v.side.Base?
  }

  /** The version whose generation keeps the path: remote and unmoved, else remote, else the first current one. */
  function Canonical(versions: seq<Version>, p: Path): (r: Option<Version>)
    ensures r.Some? ==> r.value in versions && !r.value.side.Base?
    ensures r.None? ==> forall v :: v in versions ==> v.side.Base?
  {
    var stayed := FindVersion(versions, Stayed(p));
    var remote := FindVersion(versions, IsRemote);
    if stayed.Some? then stayed
    else if remote.Some? then remote
    else FindVersion(versions, IsCurrent)
  }

  function SameGeneration(versions: seq<Version>, p: Path, side: Side): Option<Version> {
    var canonical := Canonical(versions, p);
    if canonical.None? then None
    else FindVersion(versions, (v: Version) => v.side == side && v.entry.fileId == canonical.value.entry.fileId)
  }

  /** `map.set` or `map.delete` for one reported path. */
  function Settle(next: map<Path, Entry>, versions: seq<Version>, p: Path, side: Side): map<Path, Entry> {
    var same := SameGeneration(versions, p, side);
    if same.Some? then next[p := same.value.entry] else next - {p}
  }

  /** Reported paths among `done` hold the canonical generation or nothing; all others are as they were. */
  ghost predicate SettledSide(before: map<Path, Entry>, after: map<Path, Entry>, groups: Groups, done: set<Path>, side: Side) {
    forall p ::
      if p in done && p in groups && Reported(groups[p]) then
        var same := SameGeneration(groups[p], p, side);
        if same.Some? then p in after && after[p] == same.value.entry else p !in after
      else (p in after <==> p in before) && (p in before ==> after[p] == before[p])
  }

  lemma SettledStep(before: map<Path, Entry>, after: map<Path, Entry>, groups: Groups, done: set<Path>, side: Side, p: Path)
    requires SettledSide(before, after, groups, done, side) && p in groups && p !in done
    ensures SettledSide(before, if Reported(groups[p]) then Settle(after, groups[p], p, side) else after, groups, done + {p}, side)
  {
    hide Reported, SameGeneration;
  }

  ghost predicate AllReported(collisions: seq<Collision>, groups: Groups, done: set<Path>) {
    && (forall p :: p in done && p in groups && Reported(groups[p]) ==> Collision(p, groups[p]) in collisions)
    && (forall c :: c in collisions ==> c.path in groups && c.versions == groups[c.path] && Reported(c.versions))
  }

  /** The loop over the groups. */
  method Collide(groups: Groups, base0: map<Path, Entry>, local0: map<Path, Entry>, remote0: map<Path, Entry>)
    returns (base: map<Path, Entry>, local: map<Path, Entry>, remote: map<Path, Entry>, collisions: seq<Collision>)
    ensures SettledSide(base0, base, groups, groups.Keys, Base)
    ensures SettledSide(local0, local, groups, groups.Keys, Local)
    ensures SettledSide(remote0, remote, groups, groups.Keys, Remote)
    ensures AllReported(collisions, groups, groups.Keys)
  {
    hide Reported, SettledSide, Settle;
    base, local, remote, collisions := base0, local0, remote0, [];
    var todo := groups.Keys;
    SettledStart(base0, groups, Base);
    SettledStart(local0, groups, Local);
    SettledStart(remote0, groups, Remote);
    assert groups.Keys - todo == {};
    while todo != {}
      invariant todo <= groups.Keys
      invariant SettledSide(base0, base, groups, groups.Keys - todo, Base)
      invariant SettledSide(local0, local, groups, groups.Keys - todo, Local)
      invariant SettledSide(remote0, remote, groups, groups.Keys - todo, Remote)
      invariant AllReported(collisions, groups, groups.Keys - todo)
    {
      var p: Path :| p in todo;
      ghost var done := groups.Keys - todo;
      assert groups.Keys - (todo - {p}) == done + {p};
      SettledStep(base0, base, groups, done, Base, p);
      SettledStep(local0, local, groups, done, Local, p);
      SettledStep(remote0, remote, groups, done, Remote, p);
      if Reported(groups[p]) {
        collisions := collisions + [Collision(p, groups[p])];
        base := Settle(base, groups[p], p, Base);
        local := Settle(local, groups[p], p, Local);
        remote := Settle(remote, groups[p], p, Remote);
      }
      todo := todo - {p};
    }
    assert groups.Keys - todo == groups.Keys;
  }

  lemma SettledStart(before: map<Path, Entry>, groups: Groups, side: Side)
    ensures SettledSide(before, before, groups, {}, side)
  {
  }

  /** Paths are the keys of a map, and no identity occurs twice. */
  ghost predicate DistinctFiles(files: Files) {
    forall i, j :: 0 <= i < j < |files| ==>
      files[i].0 != files[j].0 && (files[i].1.fileId.Some? ==> files[i].1.fileId != files[j].1.fileId)
  }

  /** The file is in the aligned map of its side, or among the versions of a reported collision. */
  ghost predicate Accounted(v: Version, next: map<Path, Entry>, collisions: seq<Collision>) {
    || (v.entry.path in next && next[v.entry.path] == v.entry)
    || exists c :: c in collisions && c.path == v.entry.path && v in c.versions
  }

  lemma SameSideVersions(folders: seq<FolderEntry>, selected: map<Id, Path>, side: Side, files: Files, u: Version, v: Version)
    requires DistinctFiles(files)
    requires u in VersionsOf(folders, selected, side, files) && v in VersionsOf(folders, selected, side, files)
    ensures u == v || (ContentIdentity(u) != ContentIdentity(v) && PlaceIdentity(u) != PlaceIdentity(v))
    ensures u.side == side && v.side == side
  {
    var versions := VersionsOf(folders, selected, side, files);
    var i :| 0 <= i < |versions| && versions[i] == u;
    var j :| 0 <= j < |versions| && versions[j] == v;
    assert i < j || j < i || u == v;
  }

  lemma NothingDropped(folders: seq<FolderEntry>, selected: map<Id, Path>, side: Side, files: Files, all: seq<Version>, groups: Groups,
                       aligned: map<Path, Entry>, next: map<Path, Entry>, collisions: seq<Collision>, v: Version)
    requires !side.Base? && DistinctFiles(files) && v in VersionsOf(folders, selected, side, files)
    requires Grouped(groups, all) && forall u :: u in VersionsOf(folders, selected, side, files) ==> u in all
    requires Holds(aligned, VersionsOf(folders, selected, side, files))
    requires SettledSide(aligned, next, groups, groups.Keys, side) && AllReported(collisions, groups, groups.Keys)
    ensures Accounted(v, next, collisions)
  {
    hide Reported, VersionsOf, SameGeneration, At, ContentIdentity, PlaceIdentity, DistinctFiles;
    var p := v.entry.path;
    assert p in groups && v in groups[p];
    if Reported(groups[p]) {
      assert Collision(p, groups[p]) in collisions;
    } else {
      var own := At(VersionsOf(folders, selected, side, files), p);
      assert LastStays(aligned, VersionsOf(folders, selected, side, files), p);
      assert v in own;
      var u := own[|own| - 1];
      assert u in own;
      SameSideVersions(folders, selected, side, files, u, v);
      assert u in groups[p];
      Unreported(groups[p], u, v);
    }
  }

  lemma Unreported(versions: seq<Version>, u: Version, v: Version)
    requires u in versions && v in versions && u.side == v.side && !u.side.Base? && !Reported(versions)
    ensures ContentIdentity(u) == ContentIdentity(v) || PlaceIdentity(u) == PlaceIdentity(v)
  {
    if ContentIdentity(u) != ContentIdentity(v) && PlaceIdentity(u) != PlaceIdentity(v) {
      TwoOfOneSide(versions, u, v);
    }
  }

  /** A reported path holds the canonical generation or nothing, any other one the last file of the side that lands there. */
  ghost predicate Resolved(next: map<Path, Entry>, own: seq<Version>, all: seq<Version>, side: Side) {
    forall p :: ResolvedAt(next, own, all, side, p)
  }

  ghost predicate ResolvedAt(next: map<Path, Entry>, own: seq<Version>, all: seq<Version>, side: Side, p: Path) {
    var versions := At(all, p);
    if !Reported(versions) then LastStays(next, own, p)
    else
      var same := SameGeneration(versions, p, side);
      if same.Some? then p in next && next[p] == same.value.entry else p !in next
  }

  lemma SideResolved(aligned: map<Path, Entry>, next: map<Path, Entry>, own: seq<Version>, all: seq<Version>, groups: Groups, side: Side)
    requires Holds(aligned, own) && Grouped(groups, all) && SettledSide(aligned, next, groups, groups.Keys, side)
    ensures Resolved(next, own, all, side)
  {
    hide Reported, SameGeneration, At;
    NeverReported();
    forall p: Path
      ensures ResolvedAt(next, own, all, side, p)
    {
      assert LastStays(aligned, own, p);
      if p !in groups {
        AbsentGroup(groups, all, p);
      }
    }
  }

  // ------------------------------------------------- who keeps a reported path

  /** Told apart by their identities, or without any by where they came from and what they hold. */
  predicate ContentDiffers(u: Version, v: Version) {
    if u.entry.fileId.Some? || v.entry.fileId.Some? then u.entry.fileId != v.entry.fileId
    else u.original != v.original || u.entry.hash != v.entry.hash
  }

  /** Told apart by their identities, or without any by where they came from. */
  predicate PlaceDiffers(u: Version, v: Version) {
    if u.entry.fileId.Some? || v.entry.fileId.Some? then u.entry.fileId != v.entry.fileId else u.original != v.original
  }

  /** Two current versions are not one file, and two of one side, the base counted as one, came together here. */
  ghost predicate Clash(versions: seq<Version>) {
    && (exists u, v :: u in versions && v in versions && !u.side.Base? && !v.side.Base? && ContentDiffers(u, v))
    && (exists u, v :: u in versions && v in versions && u.side == v.side && PlaceDiffers(u, v))
  }

  lemma TwoApart(s: set<Identity>) returns (a: Identity, b: Identity)
    requires |s| >= 2
    ensures a in s && b in s && a != b
  {
    a :| a in s;
    assert |s - {a}| == |s| - 1;
    b :| b in s - {a};
  }

  /** A path is reported exactly on a clash. */
  lemma ReportedIff(versions: seq<Version>)
    ensures Reported(versions) <==> Clash(versions)
  {
    if Reported(versions) {
      var a, b := TwoApart(CurrentIdentities(versions));
      var u :| u in versions && !u.side.Base? && ContentIdentity(u) == a;
      var v :| v in versions && !v.side.Base? && ContentIdentity(v) == b;
      assert ContentDiffers(u, v);
      var side :| |SideIdentities(versions, side)| > 1;
      var c, d := TwoApart(SideIdentities(versions, side));
      var x :| x in versions && x.side == side && PlaceIdentity(x) == c;
      var y :| y in versions && y.side == side && PlaceIdentity(y) == d;
      assert PlaceDiffers(x, y);
    }
    if Clash(versions) {
      var u, v :| u in versions && v in versions && !u.side.Base? && !v.side.Base? && ContentDiffers(u, v);
      var x, y :| x in versions && y in versions && x.side == y.side && PlaceDiffers(x, y);
      TwoMembers(CurrentIdentities(versions), ContentIdentity(u), ContentIdentity(v));
      TwoMembers(SideIdentities(versions, x.side), PlaceIdentity(x), PlaceIdentity(y));
    }
  }

  /** Remote versions come before local ones, and of the remote ones those that have not moved. */
  function Rank(v: Version, p: Path): nat {
    match v.side
    case Remote => if v.original == p then 0 else 1
    case Local => 2
    case Base => 3
  }

  /** The first version of the best rank, if it is a current one. */
  ghost predicate Preferred(versions: seq<Version>, p: Path, i: nat) {
    && i < |versions| && Rank(versions[i], p) < 3
    && forall j :: 0 <= j < |versions| ==>
         if j < i then Rank(versions[j], p) > Rank(versions[i], p) else Rank(versions[j], p) >= Rank(versions[i], p)
  }

  predicate OfGeneration(v: Version, side: Side, id: Option<Id>) {
    v.side == side && v.entry.fileId == id
  }

  /** The side has at the path its first version with this identity, or nothing if it has none. */
  ghost predicate KeepsFirst(next: map<Path, Entry>, versions: seq<Version>, p: Path, side: Side, id: Option<Id>) {
    if p in next then
      exists k :: 0 <= k < |versions| && OfGeneration(versions[k], side, id) && next[p] == versions[k].entry
                  && forall j :: 0 <= j < k ==> !OfGeneration(versions[j], side, id)
    else forall v :: v in versions ==> !OfGeneration(v, side, id)
  }

  /** All three sides keep the generation of the preferred version, and nothing else. */
  ghost predicate SettledOn(c: Collision, base: map<Path, Entry>, local: map<Path, Entry>, remote: map<Path, Entry>) {
    exists i: nat :: Preferred(c.versions, c.path, i) && SidesKeep(c, c.versions[i].entry.fileId, base, local, remote)
  }

  ghost predicate SidesKeep(c: Collision, id: Option<Id>, base: map<Path, Entry>, local: map<Path, Entry>, remote: map<Path, Entry>) {
    && KeepsFirst(base, c.versions, c.path, Base, id) && KeepsFirst(local, c.versions, c.path, Local, id)
    && KeepsFirst(remote, c.versions, c.path, Remote, id)
  }

  /** The first version that is accepted, where any is. */
  lemma FoundAt(versions: seq<Version>, accept: Version -> bool) returns (i: nat)
    requires FindVersion(versions, accept).Some?
    ensures i < |versions| && FindVersion(versions, accept) == Some(versions[i]) && accept(versions[i]) && forall j :: 0 <= j < i ==> !accept(versions[j])
  {
    i :| 0 <= i < |versions| && versions[i] == FindVersion(versions, accept).value && accept(versions[i]) && forall j :: 0 <= j < i ==> !accept(versions[j]);
  }

  lemma NoneFound(versions: seq<Version>, accept: Version -> bool)
    requires FindVersion(versions, accept).None?
    ensures forall j :: 0 <= j < |versions| ==> !accept(versions[j])
  {
    assert forall j :: 0 <= j < |versions| ==> versions[j] in versions;
  }

  /** The first of its rank where none is better. */
  lemma FirstOfRank(versions: seq<Version>, p: Path, i: nat, rank: nat)
    requires i < |versions| && Rank(versions[i], p) == rank < 3
    requires forall j :: 0 <= j < |versions| ==> Rank(versions[j], p) >= rank
    requires forall j :: 0 <= j < i ==> Rank(versions[j], p) != rank
    ensures Preferred(versions, p, i)
  {
  }

  lemma CanonicalPreferred(versions: seq<Version>, p: Path) returns (i: nat)
    requires Clash(versions)
    ensures i < |versions| && Preferred(versions, p, i) && Canonical(versions, p) == Some(versions[i])
  {
    assert FindVersion(versions, IsCurrent).Some?;
    hide Clash, FindVersion, Preferred;
    if FindVersion(versions, Stayed(p)).Some? {
      i := FoundAt(versions, Stayed(p));
      FirstOfRank(versions, p, i, 0);
    } else {
      NoneFound(versions, Stayed(p));
      if FindVersion(versions, IsRemote).Some? {
        i := FoundAt(versions, IsRemote);
        FirstOfRank(versions, p, i, 1);
      } else {
        NoneFound(versions, IsRemote);
        i := FoundAt(versions, IsCurrent);
        FirstOfRank(versions, p, i, 2);
      }
    }
  }

  lemma SideKeepsFirst(before: map<Path, Entry>, after: map<Path, Entry>, groups: Groups, p: Path, side: Side, i: nat)
    requires SettledSide(before, after, groups, groups.Keys, side) && p in groups && Reported(groups[p])
    requires i < |groups[p]| && Canonical(groups[p], p) == Some(groups[p][i])
    ensures KeepsFirst(after, groups[p], p, side, groups[p][i].entry.fileId)
  {
    hide Reported, Canonical;
    var versions := groups[p];
    var id := versions[i].entry.fileId;
    var same := FindVersion(versions, (v: Version) => v.side == side && v.entry.fileId == id);
    assert SameGeneration(versions, p, side) == same;
    if same.Some? {
      var k :| 0 <= k < |versions| && versions[k] == same.value && OfGeneration(versions[k], side, id) && forall j :: 0 <= j < k ==> !OfGeneration(versions[j], side, id);
    }
  }

  lemma ReportedSettled(c: Collision, collisions: seq<Collision>, groups: Groups,
                        base1: map<Path, Entry>, base: map<Path, Entry>, local1: map<Path, Entry>, local: map<Path, Entry>,
                        remote1: map<Path, Entry>, remote: map<Path, Entry>)
    requires c in collisions && AllReported(collisions, groups, groups.Keys)
    requires SettledSide(base1, base, groups, groups.Keys, Base) && SettledSide(local1, local, groups, groups.Keys, Local)
    requires SettledSide(remote1, remote, groups, groups.Keys, Remote)
    ensures SettledOn(c, base, local, remote)
  {
    hide Reported, SettledSide, KeepsFirst, Preferred, Clash;
    ReportedIff(c.versions);
    var i := CanonicalPreferred(c.versions, c.path);
    SideKeepsFirst(base1, base, groups, c.path, Base, i);
    SideKeepsFirst(local1, local, groups, c.path, Local, i);
    SideKeepsFirst(remote1, remote, groups, c.path, Remote, i);
  }

  /** What the side has at a path is one of its files, moved there; a moved local file remembers where it is now. */
  ghost predicate Descends(next: map<Path, Entry>, folders: seq<FolderEntry>, selected: map<Id, Path>, side: Side, files: Files) {
    forall p :: p in next ==> exists i :: 0 <= i < |files| && IsMoved(next[p], p, folders, selected, side, files[i].0, files[i].1)
  }

  ghost predicate IsMoved(now: Entry, p: Path, folders: seq<FolderEntry>, selected: map<Id, Path>, side: Side, original: Path, file: Entry) {
    && p == now.path == Place(folders, selected, original) && now.fileId == file.fileId && now.hash == file.hash
    && now.source == if side.Local? && p != original && file.source.None? then Some(original) else file.source
  }

  /** What a resolved side has at a path is one of its own versions. */
  lemma OwnVersion(next: map<Path, Entry>, own: seq<Version>, all: seq<Version>, side: Side, p: Path) returns (v: Version)
    requires ResolvedAt(next, own, all, side, p) && p in next && forall u :: u in all && u.side == side ==> u in own
    ensures v in own && v.entry == next[p] && v.entry.path == p
  {
    hide Reported, Canonical;
    var versions, here := At(all, p), At(own, p);
    if Reported(versions) {
      v := SameGeneration(versions, p, side).value;
    } else {
      assert LastStays(next, own, p);
      v := here[|here| - 1];
      assert v in here;
    }
  }

  lemma SideDescends(next: map<Path, Entry>, folders: seq<FolderEntry>, selected: map<Id, Path>, side: Side, files: Files, all: seq<Version>)
    requires Resolved(next, VersionsOf(folders, selected, side, files), all, side)
    requires forall v :: v in all && v.side == side ==> v in VersionsOf(folders, selected, side, files)
    ensures Descends(next, folders, selected, side, files)
  {
    hide Place, ResolvedAt;
    var own := VersionsOf(folders, selected, side, files);
    forall p | p in next
      ensures exists i :: 0 <= i < |files| && IsMoved(next[p], p, folders, selected, side, files[i].0, files[i].1)
    {
      assert ResolvedAt(next, own, all, side, p);
      var v := OwnVersion(next, own, all, side, p);
      var i :| 0 <= i < |own| && own[i] == v;
      assert IsMoved(next[p], p, folders, selected, side, files[i].0, files[i].1);
    }
  }

  lemma {:induction false} NoneAt(versions: seq<Version>, p: Path)
    requires forall v :: v in versions ==> v.entry.path != p
    ensures At(versions, p) == []
  {
    if versions != [] {
      var last := |versions| - 1;
      assert versions[last] in versions;
      NoneAt(versions[..last], p);
    }
  }

  lemma AbsentGroup(groups: Groups, all: seq<Version>, p: Path)
    requires Grouped(groups, all) && p !in groups
    ensures At(all, p) == []
  {
    NoneAt(all, p);
  }

  lemma NeverReported()
    ensures !Reported([])
  {
    assert CurrentIdentities([]) == {};
  }

  /** The collisions are the paths with a clash, with all their versions. */
  ghost predicate ExactlyReported(collisions: seq<Collision>, all: seq<Version>) {
    forall c :: c in collisions <==> c.versions == At(all, c.path) && Clash(c.versions)
  }

  lemma ReportsExact(collisions: seq<Collision>, groups: Groups, all: seq<Version>)
    requires AllReported(collisions, groups, groups.Keys) && Grouped(groups, all)
    ensures ExactlyReported(collisions, all)
  {
    hide Reported, Clash;
    NeverReported();
    forall c
      ensures c in collisions <==> c.versions == At(all, c.path) && Clash(c.versions)
    {
      ReportedIff(c.versions);
      if c.path !in groups {
        AbsentGroup(groups, all, c.path);
      }
    }
  }

  /**
   `reconcileAndAlignFolders`: for any folder plan, no local or remote file is
   dropped unreported; and on every reported path the sides hold one and the
   same generation, or nothing.
   */
  method ReconcileAndAlign(baseFolders: seq<FolderEntry>, localFolders: seq<FolderEntry>, remoteFolders: seq<FolderEntry>,
                           base0: Files, local0: Files, remote0: Files, selected: map<Id, Path>)
    returns (base: map<Path, Entry>, local: map<Path, Entry>, remote: map<Path, Entry>, collisions: seq<Collision>)
    ensures DistinctFiles(local0) ==>
      forall v :: v in VersionsOf(localFolders, selected, Local, local0) ==> Accounted(v, local, collisions)
    ensures DistinctFiles(remote0) ==>
      forall v :: v in VersionsOf(remoteFolders, selected, Remote, remote0) ==> Accounted(v, remote, collisions)
    ensures forall c :: c in collisions ==> OneGeneration(c.path, base, local, remote) && SettledOn(c, base, local, remote)
    ensures Descends(base, baseFolders, selected, Base, base0) && Descends(local, localFolders, selected, Local, local0)
    ensures Descends(remote, remoteFolders, selected, Remote, remote0)
    ensures var b := VersionsOf(baseFolders, selected, Base, base0);
      var l := VersionsOf(localFolders, selected, Local, local0);
      var r := VersionsOf(remoteFolders, selected, Remote, remote0);
      var all := b + l + r;
      && Resolved(base, b, all, Base) && Resolved(local, l, all, Local) && Resolved(remote, r, all, Remote)
      && ExactlyReported(collisions, all)
  {
    hide Resolved, ExactlyReported, OneGeneration, SettledOn, Descends;
    hide Reported, VersionsOf, SettledSide, Grouped, Holds, AllReported, Accounted;
    ghost var b := VersionsOf(baseFolders, selected, Base, base0);
    ghost var l := VersionsOf(localFolders, selected, Local, local0);
    ghost var r := VersionsOf(remoteFolders, selected, Remote, remote0);
    NoGroups();
    var base1, groups1 := Align(baseFolders, selected, Base, base0, map[], []);
    var local1, groups2 := Align(localFolders, selected, Local, local0, groups1, [] + b);
    var remote1, groups := Align(remoteFolders, selected, Remote, remote0, groups2, [] + b + l);
    base, local, remote, collisions := Collide(groups, base1, local1, remote1);
    assert [] + b == b;
    ghost var all := b + l + r;
    SideResolved(base1, base, b, all, groups, Base);
    SideResolved(local1, local, l, all, groups, Local);
    SideResolved(remote1, remote, r, all, groups, Remote);
    ReportsExact(collisions, groups, all);
    if DistinctFiles(local0) {
      forall v | v in l
        ensures Accounted(v, local, collisions)
      {
        NothingDropped(localFolders, selected, Local, local0, all, groups, local1, local, collisions, v);
      }
    }
    if DistinctFiles(remote0) {
      forall v | v in r
        ensures Accounted(v, remote, collisions)
      {
        NothingDropped(remoteFolders, selected, Remote, remote0, all, groups, remote1, remote, collisions, v);
      }
    }
    AllSettled(collisions, groups, base1, base, local1, local, remote1, remote);
    SideDescends(base, baseFolders, selected, Base, base0, all);
    SideDescends(local, localFolders, selected, Local, local0, all);
    SideDescends(remote, remoteFolders, selected, Remote, remote0, all);
  }

  lemma AllSettled(collisions: seq<Collision>, groups: Groups,
                   base1: map<Path, Entry>, base: map<Path, Entry>, local1: map<Path, Entry>, local: map<Path, Entry>,
                   remote1: map<Path, Entry>, remote: map<Path, Entry>)
    requires AllReported(collisions, groups, groups.Keys)
    requires SettledSide(base1, base, groups, groups.Keys, Base) && SettledSide(local1, local, groups, groups.Keys, Local)
    requires SettledSide(remote1, remote, groups, groups.Keys, Remote)
    ensures forall c :: c in collisions ==> OneGeneration(c.path, base, local, remote) && SettledOn(c, base, local, remote)
  {
    hide OneGeneration, SettledOn, SettledSide, AllReported;
    forall c | c in collisions
      ensures OneGeneration(c.path, base, local, remote) && SettledOn(c, base, local, remote)
    {
      ReportedAgree(c, collisions, groups, base1, base, local1, local, remote1, remote);
      ReportedSettled(c, collisions, groups, base1, base, local1, local, remote1, remote);
    }
  }

  lemma NoGroups()
    ensures Grouped(map[], [])
  {
  }

  /** Whatever the sides hold at the path belongs to one generation. */
  ghost predicate OneGeneration(p: Path, base: map<Path, Entry>, local: map<Path, Entry>, remote: map<Path, Entry>) {
    && (p in base && p in local ==> base[p].fileId == local[p].fileId)
    && (p in base && p in remote ==> base[p].fileId == remote[p].fileId)
    && (p in local && p in remote ==> local[p].fileId == remote[p].fileId)
  }

  lemma SideAgrees(before: map<Path, Entry>, after: map<Path, Entry>, groups: Groups, p: Path, side: Side)
    requires SettledSide(before, after, groups, groups.Keys, side) && p in groups && Reported(groups[p])
    ensures p in after ==> Canonical(groups[p], p).Some? && after[p].fileId == Canonical(groups[p], p).value.entry.fileId
  {
    hide Reported;
  }

  lemma ReportedAgree(c: Collision, collisions: seq<Collision>, groups: Groups,
                      base1: map<Path, Entry>, base: map<Path, Entry>, local1: map<Path, Entry>, local: map<Path, Entry>,
                      remote1: map<Path, Entry>, remote: map<Path, Entry>)
    requires c in collisions && AllReported(collisions, groups, groups.Keys)
    requires SettledSide(base1, base, groups, groups.Keys, Base) && SettledSide(local1, local, groups, groups.Keys, Local)
    requires SettledSide(remote1, remote, groups, groups.Keys, Remote)
    ensures OneGeneration(c.path, base, local, remote)
  {
    hide Reported, SettledSide;
    SideAgrees(base1, base, groups, c.path, Base);
    SideAgrees(local1, local, groups, c.path, Local);
    SideAgrees(remote1, remote, groups, c.path, Remote);
  }

  /**
   Two files of one side alone on a path are reported exactly when they can be
   told apart; of two files with one identity the earlier vanishes silently.
   */
  lemma TwoFilesReportedIff(u: Version, v: Version)
    requires u.side == v.side && !u.side.Base?
    ensures Reported([u, v]) <==> ContentIdentity(u) != ContentIdentity(v) && PlaceIdentity(u) != PlaceIdentity(v)
  {
    var versions := [u, v];
    assert u in versions && v in versions;
    if ContentIdentity(u) != ContentIdentity(v) && PlaceIdentity(u) != PlaceIdentity(v) {
      TwoOfOneSide(versions, u, v);
    } else {
      assert CurrentIdentities(versions) == {ContentIdentity(u), ContentIdentity(v)};
      assert SideIdentities(versions, u.side) == {PlaceIdentity(u), PlaceIdentity(v)};
      assert forall side: Side :: side != u.side ==> SideIdentities(versions, side) == {};
    }
  }
}
