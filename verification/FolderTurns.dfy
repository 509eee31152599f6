/**
 How many turns the relocation loop needs (plugin/src/operation-plan.ts:25).
 Folders that neither stand nor land in each other's way settle in two turns
 each at the most.
 */
module FolderTurns {
  import opened Wrappers
  import opened Paths
  import opened OperationModel
  import opened PlanWork
  import opened FolderPlan

  // ----------------------------------------------------------- the condition

  /** Nothing stands where `d` goes, nobody else goes there, and no other displaced folder stands below it. */
  ghost predicate FreeGoal(folders: seq<Folder>, d: Folder, goals: map<Id, Path>)
    requires d.id in goals
  {
    && goals[d.id] != []
    && forall e :: e in folders && e.id != d.id ==>
      if Displaced(e, goals) then goals[e.id] != goals[d.id] && (Under(e.path, goals[d.id]) ==> Under(e.path, d.path))
      else e.path != goals[d.id]
  }

  /** What stands below `d` is to go along, and nothing is to go there. */
  ghost predicate OwnSubtree(folders: seq<Folder>, d: Folder, goals: map<Id, Path>)
    requires d.id in goals
  {
    && (forall e :: e in folders && Under(e.path, d.path) ==> e.id in goals && goals[e.id] == Rebase(e.path, d.path, goals[d.id]))
    && (forall e :: e in folders && Displaced(e, goals) ==> !Under(goals[e.id], d.path))
  }

  /** The files below `d` can be moved, and no file comes to stand where a folder goes. */
  ghost predicate FilesAside(files: seq<File>, folders: seq<Folder>, d: Folder, goals: map<Id, Path>)
    requires d.id in goals
  {
    forall f :: f in files ==>
      && f.path != goals[d.id]
      && (Under(f.path, d.path) ==>
            f.id.Some? && f.revision.Some? &&
            forall e :: e in folders && Displaced(e, goals) ==> goals[e.id] != Rebase(f.path, d.path, goals[d.id]))
  }

  ghost predicate Separate(files: seq<File>, folders: seq<Folder>, goals: map<Id, Path>) {
    forall d :: d in folders && Displaced(d, goals) ==>
      FreeGoal(folders, d, goals) && OwnSubtree(folders, d, goals) && FilesAside(files, folders, d, goals)
  }

  // ------------------------------------------------------------- the measure

  /** Two turns for a displaced folder, one for a folder that has been set aside since `start`. */
  ghost function Due(d: Folder, goals: map<Id, Path>, start: nat): nat {
    if !Displaced(d, goals) then 0 else if OldPath(d.path, start) then 2 else 1
  }

  ghost function TotalDue(folders: seq<Folder>, goals: map<Id, Path>, start: nat): (r: nat)
    ensures r <= 2 * |folders|
  {
    if folders == [] then 0
    else Due(folders[0], goals, start) + TotalDue(folders[1..], goals, start)
  }

  lemma {:induction false} DueLess(before: seq<Folder>, after: seq<Folder>, goals: map<Id, Path>, start: nat, i: nat)
    requires |before| == |after|
    requires forall k :: 0 <= k < |before| ==> Due(after[k], goals, start) <= Due(before[k], goals, start)
    ensures TotalDue(after, goals, start) <= TotalDue(before, goals, start)
    ensures i < |before| && Due(after[i], goals, start) < Due(before[i], goals, start)
            ==> TotalDue(after, goals, start) < TotalDue(before, goals, start)
  {
    if before != [] {
      DueLess(before[1..], after[1..], goals, start, if i == 0 then |before| else i - 1);
    }
  }

  lemma {:induction false} SomeDue(folders: seq<Folder>, goals: map<Id, Path>, start: nat, d: Folder)
    requires d in folders && Displaced(d, goals)
    ensures TotalDue(folders, goals, start) > 0
  {
    if d != folders[0] {
      SomeDue(folders[1..], goals, start, d);
    }
  }

  // --------------------------------------------------------------- pigeonhole

  ghost function Goers(folders: seq<Folder>, goals: map<Id, Path>): set<Folder> {
    set d | d in folders && Displaced(d, goals)
  }

  ghost function Stands(goers: set<Folder>): set<Path> {
    set d | d in goers :: d.path
  }

  ghost function Ends(goers: set<Folder>, goals: map<Id, Path>): set<Path>
    requires forall d :: d in goers ==> d.id in goals
  {
    set d | d in goers :: goals[d.id]
  }

  lemma {:induction false} StandsCount(goers: set<Folder>)
    ensures |Stands(goers)| <= |goers|
    decreases |goers|
  {
    if goers == {} {
      assert Stands(goers) == {};
    } else {
      var d :| d in goers;
      StandsCount(goers - {d});
      assert Stands(goers) == Stands(goers - {d}) + {d.path};
    }
  }

  lemma {:induction false} EndsCount(goers: set<Folder>, goals: map<Id, Path>)
    requires forall d :: d in goers ==> d.id in goals
    requires forall d, e :: d in goers && e in goers && d != e ==> goals[d.id] != goals[e.id]
    ensures |Ends(goers, goals)| == |goers|
    decreases |goers|
  {
    if goers == {} {
      assert Ends(goers, goals) == {};
    } else {
      var d :| d in goers;
      EndsCount(goers - {d}, goals);
      assert Ends(goers, goals) == Ends(goers - {d}, goals) + {goals[d.id]};
    }
  }

  lemma SubsetOfSameSize(a: set<Path>, b: set<Path>)
    requires a <= b && |a| >= |b|
    ensures a == b
  {
    var rest := b - a;
    assert b == a + rest;
    assert |rest| == 0;
  }

  /** If every goer is waiting for another, they all stand where one of them goes. */
  lemma StandsAreEnds(goers: set<Folder>, goals: map<Id, Path>)
    requires forall d :: d in goers ==> d.id in goals && goals[d.id] in Stands(goers)
    requires forall d, e :: d in goers && e in goers && d != e ==> goals[d.id] != goals[e.id]
    ensures Stands(goers) == Ends(goers, goals)
  {
    hide Stands;
    StandsCount(goers);
    EndsCount(goers, goals);
    forall p | p in Ends(goers, goals)
      ensures p in Stands(goers)
    {
    }
    hide Ends;
    SubsetOfSameSize(Ends(goers, goals), Stands(goers));
  }

  // ---------------------------------------------------------------- one turn

  /** A goer that cannot go waits for another one. */
  lemma WaitsForGoer(files: seq<File>, folders: seq<Folder>, goals: map<Id, Path>, d: Folder)
    requires Separate(files, folders, goals) && d in folders && Displaced(d, goals) && !Available(d, files, folders, goals)
    ensures Blocked(d, folders, goals) && goals[d.id] in Stands(Goers(folders, goals))
  {
    hide OwnSubtree;
    assert FreeGoal(folders, d, goals) && FilesAside(files, folders, d, goals);
    var e :| e in folders && e.id != d.id && e.path == goals[d.id];
    assert e in Goers(folders, goals);
  }

  lemma GoalsApart(files: seq<File>, folders: seq<Folder>, goals: map<Id, Path>, d: Folder, e: Folder)
    requires DistinctFolderIds(folders) && Separate(files, folders, goals)
    requires d in folders && e in folders && Displaced(d, goals) && Displaced(e, goals) && d != e
    ensures goals[d.id] != goals[e.id]
  {
    hide OwnSubtree, FilesAside;
    DifferentIds(folders, d, e);
    assert FreeGoal(folders, d, goals);
  }

  /** When no goer can go, all of them stand on paths that are as old as the goals. */
  lemma AllWaiting(files: seq<File>, folders: seq<Folder>, goals: map<Id, Path>, start: nat)
    requires DistinctFolderIds(folders) && Separate(files, folders, goals)
    requires forall id :: id in goals ==> OldPath(goals[id], start)
    requires forall d :: d in folders && Displaced(d, goals) ==> !Available(d, files, folders, goals)
    ensures forall d :: d in folders && Displaced(d, goals) ==> Blocked(d, folders, goals) && OldPath(d.path, start)
  {
    hide Separate, Available, Blocked, DistinctFolderIds, OldPath;
    var goers := Goers(folders, goals);
    forall d | d in goers
      ensures goals[d.id] in Stands(goers) && Blocked(d, folders, goals)
    {
      WaitsForGoer(files, folders, goals, d);
    }
    forall d, e | d in goers && e in goers && d != e
      ensures goals[d.id] != goals[e.id]
    {
      GoalsApart(files, folders, goals, d, e);
    }
    StandsAreEnds(goers, goals);
    forall d | d in goers
      ensures OldPath(d.path, start)
    {
      assert d.path in Ends(goers, goals);
    }
  }

  lemma DifferentIds(folders: seq<Folder>, d: Folder, e: Folder)
    requires DistinctFolderIds(folders) && d in folders && e in folders && d != e
    ensures d.id != e.id
  {
    var i :| 0 <= i < |folders| && folders[i] == d;
    var j :| 0 <= j < |folders| && folders[j] == e;
    assert i < j || j < i;
  }

  /** `d` itself, or a folder below it. */
  predicate Carried(e: Folder, d: Folder) {
    e.id == d.id || Under(e.path, d.path)
  }

  /** A folder below a goer is a goer. */
  lemma SubtreeGoes(folders: seq<Folder>, d: Folder, goals: map<Id, Path>, e: Folder)
    requires d in folders && e in folders && Displaced(d, goals) && OwnSubtree(folders, d, goals) && Under(e.path, d.path)
    ensures Displaced(e, goals)
  {
    var tail := e.path[|d.path|..];
    assert e.path == d.path + tail && goals[e.id] == goals[d.id] + tail;
    SameHead(goals[d.id], d.path, tail);
  }

  lemma SameHead(p: Path, q: Path, tail: Path)
    ensures p + tail == q + tail ==> p == q
  {
    assert (p + tail)[..|p|] == p && (q + tail)[..|q|] == q;
  }

  lemma CarriedGo(files: seq<File>, folders: seq<Folder>, d: Folder, goals: map<Id, Path>, e: Folder)
    requires DistinctFolderIds(folders) && Separate(files, folders, goals)
    requires d in folders && e in folders && Displaced(d, goals) && Carried(e, d)
    ensures Displaced(e, goals) && (e.id == d.id ==> e == d)
    ensures e.id in goals && RebaseFolder(e, d.id, d.path, goals[d.id]).path == goals[e.id]
  {
    hide FreeGoal, FilesAside;
    assert OwnSubtree(folders, d, goals);
    if e.id == d.id {
      if e != d {
        DifferentIds(folders, d, e);
      }
    } else {
      SubtreeGoes(folders, d, goals, e);
    }
  }

  // ------------------------------------------------------------- a direct move

  /** Everything that moves arrives; everything else stands as it stood. */
  lemma DirectArrives(files: seq<File>, folders: seq<Folder>, d: Folder, goals: map<Id, Path>, k: nat)
    requires DistinctFolderIds(folders) && Separate(files, folders, goals) && d in folders && Displaced(d, goals) && k < |folders|
    ensures var a := RebaseFolders(folders, d.id, d.path, goals[d.id])[k];
      && a.id == folders[k].id
      && if Carried(folders[k], d) then Displaced(folders[k], goals) && a.path == goals[a.id] else a == folders[k]
  {
    hide Separate;
    if Carried(folders[k], d) {
      CarriedGo(files, folders, d, goals, folders[k]);
    }
  }

  lemma DirectFree(files: seq<File>, folders: seq<Folder>, d: Folder, goals: map<Id, Path>, e: Folder)
    requires DistinctFolderIds(folders) && Separate(files, folders, goals) && d in folders && Displaced(d, goals)
    requires e in folders && Displaced(e, goals) && !Carried(e, d)
    ensures FreeGoal(RebaseFolders(folders, d.id, d.path, goals[d.id]), e, goals)
  {
    hide OwnSubtree, FilesAside, Carried;
    var after := RebaseFolders(folders, d.id, d.path, goals[d.id]);
    assert FreeGoal(folders, e, goals);
    hide Separate;
    forall b | b in after && b.id != e.id
      ensures if Displaced(b, goals) then goals[b.id] != goals[e.id] && (Under(b.path, goals[e.id]) ==> Under(b.path, e.path))
              else b.path != goals[e.id]
    {
      var k :| 0 <= k < |after| && after[k] == b;
      DirectArrives(files, folders, d, goals, k);
    }
  }

  lemma DirectOwn(files: seq<File>, folders: seq<Folder>, d: Folder, goals: map<Id, Path>, e: Folder)
    requires DistinctFolderIds(folders) && Separate(files, folders, goals) && d in folders && Displaced(d, goals)
    requires e in folders && Displaced(e, goals) && !Carried(e, d)
    ensures OwnSubtree(RebaseFolders(folders, d.id, d.path, goals[d.id]), e, goals)
  {
    hide FreeGoal, FilesAside, Carried, Under;
    var after := RebaseFolders(folders, d.id, d.path, goals[d.id]);
    assert OwnSubtree(folders, e, goals);
    hide Separate;
    forall b | b in after
      ensures Under(b.path, e.path) ==> b.id in goals && goals[b.id] == Rebase(b.path, e.path, goals[e.id])
      ensures Displaced(b, goals) ==> !Under(goals[b.id], e.path)
    {
      var k :| 0 <= k < |after| && after[k] == b;
      DirectArrives(files, folders, d, goals, k);
    }
  }

  lemma PrefixesNest(p: Path, q: Path, r: Path)
    requires Under(r, p) && q != [] && |q| <= |r| && r[..|q|] == q
    ensures p == q || Under(q, p) || Under(p, q)
  {
    assert |p| <= |q| ==> q[..|p|] == p;
    assert |q| <= |p| ==> p[..|q|] == q;
  }

  /** A file that has gone along with `d` stands below no other goer. */
  lemma ArrivedFileStays(files: seq<File>, folders: seq<Folder>, d: Folder, goals: map<Id, Path>, e: Folder, p: Path)
    requires d in folders && Displaced(d, goals) && FreeGoal(folders, d, goals) && Available(d, files, folders, goals)
    requires e in folders && Displaced(e, goals) && !Carried(e, d) && OwnSubtree(folders, e, goals)
    requires Under(p, d.path)
    ensures !Under(Rebase(p, d.path, goals[d.id]), e.path)
  {
    var to, r := goals[d.id], Rebase(p, d.path, goals[d.id]);
    assert r[..|to|] == to;
    if Under(r, e.path) {
      PrefixesNest(e.path, to, r);
    }
  }

  lemma DirectFiles(files: seq<File>, folders: seq<Folder>, d: Folder, goals: map<Id, Path>, e: Folder)
    requires DistinctFolderIds(folders) && Separate(files, folders, goals) && d in folders && Displaced(d, goals)
    requires Available(d, files, folders, goals)
    requires e in folders && Displaced(e, goals) && !Carried(e, d)
    ensures FilesAside(RebaseFiles(files, d.path, goals[d.id]), RebaseFolders(folders, d.id, d.path, goals[d.id]), e, goals)
  {
    hide Available, Under;
    var arrived, after := RebaseFiles(files, d.path, goals[d.id]), RebaseFolders(folders, d.id, d.path, goals[d.id]);
    assert FreeGoal(folders, d, goals) && OwnSubtree(folders, e, goals) && FilesAside(files, folders, d, goals) && FilesAside(files, folders, e, goals);
    hide FreeGoal, OwnSubtree;
    GoersStay(files, folders, d, goals);
    hide Separate, Carried;
    forall f | f in arrived
      ensures f.path != goals[e.id]
      ensures Under(f.path, e.path) ==>
                (f.id.Some? && f.revision.Some? && forall g :: g in after && Displaced(g, goals) ==> goals[g.id] != Rebase(f.path, e.path, goals[e.id]))
    {
      var k :| 0 <= k < |arrived| && arrived[k] == f;
      if Under(files[k].path, d.path) {
        ArrivedFileStays(files, folders, d, goals, e, files[k].path);
      }
    }
  }

  /** After the move every goer is one that has not been carried. */
  lemma GoersStay(files: seq<File>, folders: seq<Folder>, d: Folder, goals: map<Id, Path>)
    requires DistinctFolderIds(folders) && Separate(files, folders, goals) && d in folders && Displaced(d, goals)
    ensures forall a :: a in RebaseFolders(folders, d.id, d.path, goals[d.id]) && Displaced(a, goals) ==> a in folders && !Carried(a, d)
  {
    hide Separate;
    var after := RebaseFolders(folders, d.id, d.path, goals[d.id]);
    forall a | a in after && Displaced(a, goals)
      ensures a in folders && !Carried(a, d)
    {
      var k :| 0 <= k < |after| && after[k] == a;
      DirectArrives(files, folders, d, goals, k);
    }
  }

  lemma DirectSeparate(files: seq<File>, folders: seq<Folder>, d: Folder, goals: map<Id, Path>)
    requires DistinctFolderIds(folders) && Separate(files, folders, goals) && d in folders && Displaced(d, goals)
    requires Available(d, files, folders, goals)
    ensures Separate(RebaseFiles(files, d.path, goals[d.id]), RebaseFolders(folders, d.id, d.path, goals[d.id]), goals)
  {
    hide FreeGoal, OwnSubtree, FilesAside, Available, Carried, DistinctFolderIds;
    GoersStay(files, folders, d, goals);
    forall e | e in RebaseFolders(folders, d.id, d.path, goals[d.id]) && Displaced(e, goals)
      ensures FreeGoal(RebaseFolders(folders, d.id, d.path, goals[d.id]), e, goals)
      ensures OwnSubtree(RebaseFolders(folders, d.id, d.path, goals[d.id]), e, goals)
      ensures FilesAside(RebaseFiles(files, d.path, goals[d.id]), RebaseFolders(folders, d.id, d.path, goals[d.id]), e, goals)
    {
      DirectFree(files, folders, d, goals, e);
      DirectOwn(files, folders, d, goals, e);
      DirectFiles(files, folders, d, goals, e);
    }
  }

  // --------------------------------------------------------------- a step aside

  /** The path starts with the scratch name of serial `serial`. */
  predicate Away(p: Path, serial: nat) {
    p != [] && p[0] == Scratch(Minted(serial))
  }

  lemma AwayIsNew(p: Path, serial: nat)
    ensures OldPath(p, serial) ==> !Away(p, serial)
  {
  }

  /** Where a path below `from` is taken when `from` goes to `to`. */
  function Taken(p: Path, from: Path, to: Path): Path
    requires p == from || Under(p, from)
  {
    to + p[|from|..]
  }

  lemma TakenUnder(p: Path, q: Path, from: Path, to: Path, goal: Path)
    requires to != []
    requires (p == from || Under(p, from)) && (q == from || Under(q, from))
    ensures Under(Taken(p, from, to), Taken(q, from, to)) ==>
              Under(p, q) && Rebase(Taken(p, from, to), Taken(q, from, to), goal) == Rebase(p, q, goal)
  {
    var tp, tq := p[|from|..], q[|from|..];
    assert p == from + tp && q == from + tq;
    if Under(Taken(p, from, to), Taken(q, from, to)) {
      assert tp[..|tq|] == (to + tp)[..|to| + |tq|][|to|..] == tq;
      assert p[..|q|] == from + tp[..|tq|] == q;
      assert (to + tp)[|to| + |tq|..] == tp[|tq|..] == p[|q|..];
    }
  }

  /** All that the step aside concerns, and nothing minted at `serial` or later in any path. */
  ghost predicate Steps(files: seq<File>, folders: seq<Folder>, d: Folder, goals: map<Id, Path>, serial: nat) {
    && DistinctFolderIds(folders) && Separate(files, folders, goals) && d in folders && Displaced(d, goals)
    && (forall e :: e in folders ==> OldPath(e.path, serial))
    && (forall f :: f in files ==> OldPath(f.path, serial))
    && (forall id :: id in goals ==> OldPath(goals[id], serial))
  }

  function AsideFolders(folders: seq<Folder>, d: Folder, serial: nat): (r: seq<Folder>)
    ensures |r| == |folders|
  {
    RebaseFolders(folders, d.id, d.path, [Scratch(Minted(serial))])
  }

  function AsideFiles(files: seq<File>, d: Folder, serial: nat): seq<File> {
    RebaseFiles(files, d.path, [Scratch(Minted(serial))])
  }

  /** The subtree of `d` is away and still displaced; everything else stands as it stood. */
  lemma AsideStands(files: seq<File>, folders: seq<Folder>, d: Folder, goals: map<Id, Path>, serial: nat, k: nat)
    requires Steps(files, folders, d, goals, serial) && k < |folders|
    ensures var e, a := folders[k], AsideFolders(folders, d, serial)[k];
      && a.id == e.id && (Displaced(a, goals) <==> Displaced(e, goals)) && !Away(e.path, serial)
      && if Carried(e, d) then Displaced(e, goals) && (e.path == d.path || Under(e.path, d.path)) && a.path == Taken(e.path, d.path, [Scratch(Minted(serial))])
         else a == e
  {
    hide Separate;
    var e, a := folders[k], AsideFolders(folders, d, serial)[k];
    AwayIsNew(e.path, serial);
    if Carried(e, d) {
      CarriedGo(files, folders, d, goals, e);
      AwayIsNew(goals[e.id], serial);
    }
  }

  lemma AsideFree(files: seq<File>, folders: seq<Folder>, d: Folder, goals: map<Id, Path>, serial: nat, i: nat)
    requires Steps(files, folders, d, goals, serial) && i < |folders| && Displaced(folders[i], goals)
    ensures FreeGoal(AsideFolders(folders, d, serial), AsideFolders(folders, d, serial)[i], goals)
  {
    hide OwnSubtree, FilesAside, AsideFolders;
    var after, e := AsideFolders(folders, d, serial), folders[i];
    var a := after[i];
    assert FreeGoal(folders, e, goals);
    AsideStands(files, folders, d, goals, serial, i);
    AwayIsNew(goals[e.id], serial);
    hide Separate;
    forall b | b in after && b.id != a.id
      ensures if Displaced(b, goals) then goals[b.id] != goals[a.id] && (Under(b.path, goals[a.id]) ==> Under(b.path, a.path))
              else b.path != goals[a.id]
    {
      var k :| 0 <= k < |after| && after[k] == b;
      AsideStands(files, folders, d, goals, serial, k);
      if Carried(e, d) && e.id != d.id && Under(folders[k].path, e.path) {
        UnderTransitive(folders[k].path, e.path, d.path);
      }
    }
  }

  lemma AsideOwn(files: seq<File>, folders: seq<Folder>, d: Folder, goals: map<Id, Path>, serial: nat, i: nat)
    requires Steps(files, folders, d, goals, serial) && i < |folders| && Displaced(folders[i], goals)
    ensures OwnSubtree(AsideFolders(folders, d, serial), AsideFolders(folders, d, serial)[i], goals)
  {
    hide Steps, AsideFolders, Under;
    var after := AsideFolders(folders, d, serial);
    AsideStands(files, folders, d, goals, serial, i);
    forall b | b in after
      ensures Under(b.path, after[i].path) ==> b.id in goals && goals[b.id] == Rebase(b.path, after[i].path, goals[after[i].id])
      ensures Displaced(b, goals) ==> !Under(goals[b.id], after[i].path)
    {
      var k :| 0 <= k < |after| && after[k] == b;
      AsideOwnAt(files, folders, d, goals, serial, i, k);
    }
  }

  lemma AsideOwnAt(files: seq<File>, folders: seq<Folder>, d: Folder, goals: map<Id, Path>, serial: nat, i: nat, k: nat)
    requires Steps(files, folders, d, goals, serial) && i < |folders| && Displaced(folders[i], goals) && k < |folders|
    ensures var a, b := AsideFolders(folders, d, serial)[i], AsideFolders(folders, d, serial)[k];
      && a.id in goals
      && (Under(b.path, a.path) ==> b.id in goals && goals[b.id] == Rebase(b.path, a.path, goals[a.id]))
      && (Displaced(b, goals) ==> !Under(goals[b.id], a.path))
  {
    hide FreeGoal, FilesAside, AsideFolders;
    var e, b := folders[i], AsideFolders(folders, d, serial)[k];
    assert OwnSubtree(folders, e, goals) && folders[k] in folders;
    AsideStands(files, folders, d, goals, serial, i);
    AsideStands(files, folders, d, goals, serial, k);
    hide Separate;
    if Displaced(b, goals) {
      AwayIsNew(goals[b.id], serial);
    }
    if Carried(e, d) && Carried(folders[k], d) {
      TakenUnder(folders[k].path, e.path, d.path, [Scratch(Minted(serial))], goals[e.id]);
    }
  }

  lemma AsideFile(files: seq<File>, folders: seq<Folder>, d: Folder, goals: map<Id, Path>, serial: nat, i: nat, f: File)
    requires Steps(files, folders, d, goals, serial) && i < |folders| && Displaced(folders[i], goals) && f in files
    ensures var e, a, g := folders[i], AsideFolders(folders, d, serial)[i], RebaseFile(f, d.path, [Scratch(Minted(serial))]);
      && g.path != goals[e.id]
      && (Under(g.path, a.path) ==> Under(f.path, e.path) && Rebase(g.path, a.path, goals[e.id]) == Rebase(f.path, e.path, goals[e.id]))
  {
    hide FreeGoal, OwnSubtree, AsideFolders;
    var e := folders[i];
    assert FilesAside(files, folders, e, goals);
    AsideStands(files, folders, d, goals, serial, i);
    hide Separate;
    AwayIsNew(goals[e.id], serial);
    AwayIsNew(f.path, serial);
    if Carried(e, d) && Under(f.path, d.path) {
      TakenUnder(f.path, e.path, d.path, [Scratch(Minted(serial))], goals[e.id]);
    }
  }

  lemma AsideFilesAside(files: seq<File>, folders: seq<Folder>, d: Folder, goals: map<Id, Path>, serial: nat, i: nat)
    requires Steps(files, folders, d, goals, serial) && i < |folders| && Displaced(folders[i], goals)
    ensures FilesAside(AsideFiles(files, d, serial), AsideFolders(folders, d, serial), AsideFolders(folders, d, serial)[i], goals)
  {
    hide FreeGoal, OwnSubtree, AsideFolders, Under, Carried;
    var moved, after, e := AsideFiles(files, d, serial), AsideFolders(folders, d, serial), folders[i];
    var a := after[i];
    AsideStands(files, folders, d, goals, serial, i);
    assert FilesAside(files, folders, e, goals);
    forall g | g in after && Displaced(g, goals)
      ensures exists b :: b in folders && Displaced(b, goals) && b.id == g.id
    {
      var k :| 0 <= k < |after| && after[k] == g;
      AsideStands(files, folders, d, goals, serial, k);
      assert folders[k] in folders;
    }
    forall f | f in moved
      ensures f.path != goals[a.id]
      ensures Under(f.path, a.path) ==>
                (f.id.Some? && f.revision.Some? && forall g :: g in after && Displaced(g, goals) ==> goals[g.id] != Rebase(f.path, a.path, goals[a.id]))
    {
      var k :| 0 <= k < |moved| && moved[k] == f;
      AsideFile(files, folders, d, goals, serial, i, files[k]);
    }
  }

  lemma AsideSeparate(files: seq<File>, folders: seq<Folder>, d: Folder, goals: map<Id, Path>, serial: nat)
    requires Steps(files, folders, d, goals, serial)
    ensures Separate(AsideFiles(files, d, serial), AsideFolders(folders, d, serial), goals)
  {
    hide FreeGoal, OwnSubtree, FilesAside, AsideFolders, AsideFiles, Steps;
    var after := AsideFolders(folders, d, serial);
    forall a | a in after && Displaced(a, goals)
      ensures FreeGoal(after, a, goals) && OwnSubtree(after, a, goals) && FilesAside(AsideFiles(files, d, serial), after, a, goals)
    {
      var i :| 0 <= i < |after| && after[i] == a;
      AsideStands(files, folders, d, goals, serial, i);
      AsideFree(files, folders, d, goals, serial, i);
      AsideOwn(files, folders, d, goals, serial, i);
      AsideFilesAside(files, folders, d, goals, serial, i);
    }
  }

  // -------------------------------------------------------------- all the turns

  /** What holds before every turn. */
  ghost predicate Orderly(w: Work, goals: map<Id, Path>, start: nat) {
    && DistinctFolderIds(w.folders) && Separate(w.files, w.folders, goals) && OldPaths(w) && start <= w.next
    && forall id :: id in goals ==> OldPath(goals[id], start)
  }

  lemma FilesBelowMove(w: Work, d: Folder, goals: map<Id, Path>, to: Path)
    requires d in w.folders && Displaced(d, goals) && Separate(w.files, w.folders, goals)
    ensures var r := Relocate(w, d, to);
      r.Ok? && r.value.files == RebaseFiles(w.files, d.path, to) && r.value.folders == RebaseFolders(w.folders, d.id, d.path, to)
      && r.value.next == w.next + 1
  {
    FilesUnderFacts(w.files, d.path);
    assert FilesAside(w.files, w.folders, d, goals);
  }

  lemma DirectDue(w: Work, d: Folder, goals: map<Id, Path>, start: nat)
    requires Orderly(w, goals, start) && d in w.folders && Displaced(d, goals)
    ensures TotalDue(RebaseFolders(w.folders, d.id, d.path, goals[d.id]), goals, start) < TotalDue(w.folders, goals, start)
  {
    hide Separate, Carried;
    var after := RebaseFolders(w.folders, d.id, d.path, goals[d.id]);
    var i :| 0 <= i < |w.folders| && w.folders[i] == d;
    assert Carried(d, d) by {
      CarriedSelf(d);
    }
    forall k | 0 <= k < |after|
      ensures Due(after[k], goals, start) <= Due(w.folders[k], goals, start)
      ensures Carried(w.folders[k], d) ==> Due(after[k], goals, start) < Due(w.folders[k], goals, start)
    {
      DirectArrives(w.files, w.folders, d, goals, k);
    }
    DueLess(w.folders, after, goals, start, i);
  }

  lemma CarriedSelf(d: Folder)
    ensures Carried(d, d)
  {
  }

  lemma AsideDue(w: Work, d: Folder, goals: map<Id, Path>, start: nat)
    requires Orderly(w, goals, start) && Steps(w.files, w.folders, d, goals, w.next) && OldPath(d.path, start)
    ensures TotalDue(AsideFolders(w.folders, d, w.next), goals, start) < TotalDue(w.folders, goals, start)
  {
    hide Separate, Carried, Steps, AsideFolders;
    var after := AsideFolders(w.folders, d, w.next);
    assert d in w.folders by {
      StepsOf(w.files, w.folders, d, goals, w.next);
    }
    var i :| 0 <= i < |w.folders| && w.folders[i] == d;
    CarriedSelf(d);
    forall k | 0 <= k < |after|
      ensures Due(after[k], goals, start) <= Due(w.folders[k], goals, start)
      ensures k == i ==> Due(after[k], goals, start) < Due(w.folders[k], goals, start)
    {
      AsideStands(w.files, w.folders, d, goals, w.next, k);
      AwayIsLater(after[k].path, w.next, start);
    }
    DueLess(w.folders, after, goals, start, i);
  }

  lemma StepsOf(files: seq<File>, folders: seq<Folder>, d: Folder, goals: map<Id, Path>, serial: nat)
    requires Steps(files, folders, d, goals, serial)
    ensures d in folders && Displaced(d, goals)
  {
  }

  lemma AwayIsLater(p: Path, serial: nat, start: nat)
    requires start <= serial
    ensures Away(p, serial) ==> !OldPath(p, start)
  {
  }

  lemma SameIds(folders: seq<Folder>, id: Id, from: Path, to: Path)
    requires DistinctFolderIds(folders)
    ensures DistinctFolderIds(RebaseFolders(folders, id, from, to))
  {
  }

  lemma DirectTurn(w: Work, d: Folder, goals: map<Id, Path>, start: nat)
    requires Orderly(w, goals, start) && d in w.folders && Displaced(d, goals) && Available(d, w.files, w.folders, goals)
    ensures var r := Relocate(w, d, goals[d.id]);
      && r.Ok? && Orderly(r.value, goals, start) && |r.value.ops| == |w.ops| + 1 && |r.value.folders| == |w.folders|
      && TotalDue(r.value.folders, goals, start) < TotalDue(w.folders, goals, start)
  {
    FilesBelowMove(w, d, goals, goals[d.id]);
    DirectSeparate(w.files, w.folders, d, goals);
    DirectDue(w, d, goals, start);
    SameIds(w.folders, d.id, d.path, goals[d.id]);
    LaterOld(goals[d.id], start, w.next);
    RelocateOldPaths(w, d, goals[d.id]);
    hide Separate, DistinctFolderIds, OldPaths, Available, OldPath;
  }

  lemma LaterOld(p: Path, start: nat, next: nat)
    requires OldPath(p, start) && start <= next
    ensures OldPath(p, next)
  {
  }

  lemma AsideTurn(w: Work, d: Folder, goals: map<Id, Path>, start: nat)
    requires Orderly(w, goals, start) && d in w.folders && Displaced(d, goals) && OldPath(d.path, start)
    ensures var r := Relocate(w.(next := w.next + 1), d, [Scratch(Minted(w.next))]);
      && r.Ok? && Orderly(r.value, goals, start) && |r.value.ops| == |w.ops| + 1 && |r.value.folders| == |w.folders|
      && TotalDue(r.value.folders, goals, start) < TotalDue(w.folders, goals, start)
  {
    var drawn, to := w.(next := w.next + 1), [Scratch(Minted(w.next))];
    forall id | id in goals
      ensures OldPath(goals[id], w.next)
    {
      LaterOld(goals[id], start, w.next);
    }
    assert Steps(w.files, w.folders, d, goals, w.next);
    FilesBelowMove(drawn, d, goals, to);
    AsideSeparate(w.files, w.folders, d, goals, w.next);
    AsideDue(w, d, goals, start);
    SameIds(w.folders, d.id, d.path, to);
    RelocateOldPaths(drawn, d, to);
    hide Separate, DistinctFolderIds, OldPaths, OldPath, Steps;
  }

  /** Where every displaced folder waits for another one somebody steps aside. */
  lemma NotStuck(w: Work, goals: map<Id, Path>)
    requires forall d :: d in w.folders && Displaced(d, goals) ==> Blocked(d, w.folders, goals)
    ensures !Choose(w.files, w.folders, goals).Stuck?
  {
    var choice := Choose(w.files, w.folders, goals);
    if choice.Stuck? {
      var d :| d in w.folders && Displaced(d, goals);
      var e :| e in w.folders && e.id != d.id && e.path == goals[d.id] && Displaced(e, goals);
      assert WaitsFor(d, e, goals);
    }
  }

  lemma OneTurn(w: Work, goals: map<Id, Path>, start: nat)
    requires Orderly(w, goals, start) && !Choose(w.files, w.folders, goals).Settled?
    ensures var r := Turn(w, goals);
      && r.Ok? && Orderly(r.value, goals, start) && |r.value.ops| == |w.ops| + 1 && |r.value.folders| == |w.folders|
      && TotalDue(r.value.folders, goals, start) < TotalDue(w.folders, goals, start)
  {
    hide Relocate, Separate, Available, Blocked, OldPath, Choose, OldPaths;
    var choice := Choose(w.files, w.folders, goals);
    if choice.Direct? {
      DirectTurn(w, choice.folder, goals, start);
    } else {
      AllWaiting(w.files, w.folders, goals, start);
      NotStuck(w, goals);
      AsideTurn(w, choice.folder, goals, start);
    }
  }

  lemma {:induction false} EnoughTurns(w: Work, goals: map<Id, Path>, start: nat, remaining: nat)
    requires Orderly(w, goals, start) && remaining >= TotalDue(w.folders, goals, start)
    ensures var r := Turns(w, goals, remaining);
      && r.Ok? && NoneDisplaced(r.value.folders, goals) && |r.value.ops| <= |w.ops| + TotalDue(w.folders, goals, start)
    decreases remaining
  {
    hide Turn, Choose, Orderly;
    if Choose(w.files, w.folders, goals).Settled? {
      SettledTurns(w, goals, remaining);
    } else {
      OneTurn(w, goals, start);
      EnoughTurns(Turn(w, goals).value, goals, start, remaining - 1);
    }
  }

  /**
   Folders that keep out of each other's way are relocated without a throw, at
   two moves each at the most, whatever cycles they form.
   */
  lemma SeparateSettles(w: Work, goals: map<Id, Path>)
    requires DistinctFolderIds(w.folders) && OldPaths(w) && forall id :: id in goals ==> OldPath(goals[id], w.next)
    requires Separate(w.files, w.folders, goals)
    ensures var r := Relocated(w, goals);
      r.Ok? && |r.value.ops| <= |w.ops| + 2 * |Goers(w.folders, goals)|
  {
    hide Turns, Separate;
    EnoughTurns(w, goals, w.next, |w.folders| * 3 + 1);
    DueGoers(w.folders, goals, w.next);
  }

  lemma {:induction false} DueGoers(folders: seq<Folder>, goals: map<Id, Path>, start: nat)
    requires DistinctFolderIds(folders)
    ensures TotalDue(folders, goals, start) <= 2 * |Goers(folders, goals)|
  {
    if folders == [] {
      assert Goers(folders, goals) == {};
    } else {
      DueGoers(folders[1..], goals, start);
      assert folders[0] !in folders[1..] by {
        FirstOnce(folders);
      }
      assert Goers(folders, goals) == Goers(folders[1..], goals) + if Displaced(folders[0], goals) then {folders[0]} else {};
    }
  }

  lemma FirstOnce(folders: seq<Folder>)
    requires DistinctFolderIds(folders) && folders != []
    ensures folders[0] !in folders[1..]
  {
  }

  // ------------------------------------------------------------- who goes first

  /** The first of the sorted folders with property `p`. */
  ghost function FirstWith(folders: seq<Folder>, p: Folder -> bool): Option<Folder> {
    if folders == [] then None else if p(folders[0]) then Some(folders[0]) else FirstWith(folders[1..], p)
  }

  lemma {:induction false} InsertFirst(d: Folder, sorted: seq<Folder>, p: Folder -> bool)
    requires Sorted(sorted, ShallowFirst)
    ensures var first := FirstWith(sorted, p);
      FirstWith(Insert(d, sorted, ShallowFirst), p) ==
      if p(d) && (first.None? || |d.path| <= |first.value.path|) then Some(d) else first
  {
    if sorted != [] {
      FirstIn(sorted, p);
      if ShallowFirst(d) <= ShallowFirst(sorted[0]) {
        assert ([d] + sorted)[1..] == sorted;
      } else {
        InsertFirst(d, sorted[1..], p);
        var r := Insert(d, sorted[1..], ShallowFirst);
        assert ([sorted[0]] + r)[1..] == r;
      }
    }
  }

  lemma {:induction false} FirstIn(folders: seq<Folder>, p: Folder -> bool)
    ensures FirstWith(folders, p).Some? ==> FirstWith(folders, p).value in folders && p(FirstWith(folders, p).value)
    ensures FirstWith(folders, p).None? ==> forall d :: d in folders ==> !p(d)
  {
    if folders != [] {
      FirstIn(folders[1..], p);
    }
  }

  /** The one at `i` comes first of all that have the property: shallowest, then first in the list. */
  ghost predicate Leads(folders: seq<Folder>, p: Folder -> bool, i: nat)
    requires i < |folders|
  {
    && p(folders[i])
    && forall j :: 0 <= j < |folders| && p(folders[j]) && j != i ==>
         |folders[i].path| < |folders[j].path| || (|folders[i].path| == |folders[j].path| && i < j)
  }

  lemma {:induction false} SortFirst(folders: seq<Folder>, p: Folder -> bool, i: nat)
    requires i < |folders| && Leads(folders, p, i)
    ensures FirstWith(SortBy(folders, ShallowFirst), p) == Some(folders[i])
  {
    SortFacts(folders[1..], ShallowFirst);
    InsertFirst(folders[0], SortBy(folders[1..], ShallowFirst), p);
    FirstIn(SortBy(folders[1..], ShallowFirst), p);
    if i > 0 {
      assert Leads(folders[1..], p, i - 1) by {
        forall j | 0 <= j < |folders[1..]|
          ensures folders[1..][j] == folders[j + 1]
        {
        }
      }
      SortFirst(folders[1..], p, i - 1);
    } else {
      forall e | e in folders[1..] && p(e)
        ensures |folders[0].path| <= |e.path|
      {
        var j :| 0 <= j < |folders[1..]| && folders[1..][j] == e;
        assert folders[j + 1] == e;
      }
    }
  }

  lemma {:induction false} SortDisplaced(folders: seq<Folder>, goals: map<Id, Path>, p: Folder -> bool)
    requires forall d :: p(d) ==> Displaced(d, goals)
    ensures FirstWith(SortBy(DisplacedFolders(folders, goals), ShallowFirst), p) == FirstWith(SortBy(folders, ShallowFirst), p)
  {
    if folders != [] {
      var d, rest := folders[0], DisplacedFolders(folders[1..], goals);
      SortDisplaced(folders[1..], goals, p);
      SortStep(d, rest, p);
      SortStep(d, folders[1..], p);
      hide Displaced, SortBy, FirstWith;
      assert [d] + folders[1..] == folders;
      if Displaced(d, goals) {
        assert DisplacedFolders(folders, goals) == [d] + rest;
      } else {
        assert DisplacedFolders(folders, goals) == rest;
      }
    }
  }

  lemma SortStep(d: Folder, rest: seq<Folder>, p: Folder -> bool)
    ensures var first := FirstWith(SortBy(rest, ShallowFirst), p);
      FirstWith(SortBy([d] + rest, ShallowFirst), p) ==
      if p(d) && (first.None? || |d.path| <= |first.value.path|) then Some(d) else first
  {
    SortFacts(rest, ShallowFirst);
    InsertFirst(d, SortBy(rest, ShallowFirst), p);
    assert ([d] + rest)[1..] == rest;
  }

  ghost function CanGo(files: seq<File>, folders: seq<Folder>, goals: map<Id, Path>): Folder -> bool {
    d => Displaced(d, goals) && Available(d, files, folders, goals)
  }

  ghost function Waits(folders: seq<Folder>, goals: map<Id, Path>): Folder -> bool {
    d => Displaced(d, goals) && Blocked(d, folders, goals)
  }

  lemma {:induction false} FirstsAgree(moving: seq<Folder>, files: seq<File>, folders: seq<Folder>, goals: map<Id, Path>)
    requires forall d :: d in moving ==> d.id in goals && Displaced(d, goals)
    ensures FirstAvailable(moving, files, folders, goals) == FirstWith(moving, CanGo(files, folders, goals))
    ensures FirstBlocked(moving, folders, goals) == FirstWith(moving, Waits(folders, goals))
  {
    if moving != [] {
      assert moving[0] in moving;
      FirstsAgree(moving[1..], files, folders, goals);
    }
  }

  lemma MovingFirsts(files: seq<File>, folders: seq<Folder>, goals: map<Id, Path>)
    ensures FirstAvailable(Moving(folders, goals), files, folders, goals) == FirstWith(SortBy(folders, ShallowFirst), CanGo(files, folders, goals))
    ensures FirstBlocked(Moving(folders, goals), folders, goals) == FirstWith(SortBy(folders, ShallowFirst), Waits(folders, goals))
  {
    FirstsAgree(Moving(folders, goals), files, folders, goals);
    SortDisplaced(folders, goals, CanGo(files, folders, goals));
    SortDisplaced(folders, goals, Waits(folders, goals));
  }

  /** The shallowest folder that can go, the first of those in the list, goes. */
  lemma GoesFirst(files: seq<File>, folders: seq<Folder>, goals: map<Id, Path>, i: nat)
    requires i < |folders| && Leads(folders, CanGo(files, folders, goals), i)
    ensures Choose(files, folders, goals) == Direct(folders[i])
  {
    MovingFirsts(files, folders, goals);
    SortFirst(folders, CanGo(files, folders, goals), i);
    assert folders[i] in Moving(folders, goals);
  }

  /** If none can go, the shallowest that waits for another steps aside. */
  lemma StepsAside(files: seq<File>, folders: seq<Folder>, goals: map<Id, Path>, i: nat)
    requires i < |folders| && Leads(folders, Waits(folders, goals), i)
    requires forall d :: d in folders ==> !CanGo(files, folders, goals)(d)
    ensures Choose(files, folders, goals) == Aside(folders[i])
  {
    MovingFirsts(files, folders, goals);
    SortFirst(folders, Waits(folders, goals), i);
    assert folders[i] in Moving(folders, goals);
  }
}
