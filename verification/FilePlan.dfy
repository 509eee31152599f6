/**
 The file part of a batch as a whole (plugin/src/operation-plan.ts:33-37):
 match the entries, delete what no entry keeps, move, edit.
 */
module FilePlan {
  import opened Wrappers
  import opened Paths
  import opened OperationModel
  import opened PlanWork
  import opened FileMatching
  import opened FileRuns
  import opened FileMoves
  import opened FileCycles
  import opened FileMoveLoop
  import opened FileEdits
  import opened BatchFacts

  ghost predicate IsEntry(f: File, e: Entry, id: Id) {
    f.id == Some(id) && f.path == e.path && f.content == e.content
  }

  /** One of the files is what the entry wants, under the identity `id`. */
  ghost predicate Met(files: seq<File>, e: Entry, id: Id) {
    exists f :: f in files && IsEntry(f, e, id)
  }

  /** `live` holds the untouchable files of `files`, each kept file as its entry wants it, and nothing else. */
  ghost predicate KeptAsWanted(files: seq<File>, live: seq<File>, entries: seq<Entry>, fates: seq<Fate>)
    requires |entries| == |fates|
  {
    && |live| == |Unidentified(files)| + |UsedIds(fates)|
    && (forall f :: f in files && f.id.None? ==> f in live)
    && (forall f :: f in live && f.id.None? ==> f in files)
    && (forall f :: f in live && f.id.Some? ==> KeptBySome(f, entries, fates))
    && (forall i :: 0 <= i < |fates| && fates[i].Reuse? ==> Met(live, entries[i], fates[i].id))
  }

  ghost predicate KeptBySome(f: File, entries: seq<Entry>, fates: seq<Fate>)
    requires |entries| == |fates|
  {
    exists i :: 0 <= i < |fates| && fates[i].Reuse? && IsEntry(f, entries[i], fates[i].id)
  }

  /** `moved` are the records `files` with every kept one at the path of its entry. */
  ghost predicate MovedHome(files: seq<File>, moved: seq<File>, entries: seq<Entry>, fates: seq<Fate>)
    requires |entries| == |fates|
  {
    && DistinctFileIds(files) && DistinctFileIds(moved) && SoundFates(files, fates)
    && |moved| == |files|
    && (forall i :: 0 <= i < |files| ==> moved[i] == files[i].(path := moved[i].path))
    && (forall i :: 0 <= i < |files| && files[i].id.None? ==> moved[i] == files[i])
    && (forall i :: 0 <= i < |fates| && fates[i].Reuse? ==>
         ById(moved, fates[i].id).Some? && ById(moved, fates[i].id).value.path == entries[i].path)
  }

  lemma RecordEnds(files: seq<File>, moved: seq<File>, entries: seq<Entry>, fates: seq<Fate>, j: nat)
    requires |entries| == |fates| && MovedHome(files, moved, entries, fates) && j < |moved|
    ensures moved[j].id.None? ==> EditedBy(moved[j], EditsOf(files, entries, fates)) == files[j]
    ensures forall i :: 0 <= i < |fates| && fates[i].Reuse? && moved[j].id == Some(fates[i].id) ==>
              IsEntry(EditedBy(moved[j], EditsOf(files, entries, fates)), entries[i], fates[i].id)
  {
    EditedContent(files, entries, fates, moved[j]);
    forall i | 0 <= i < |fates| && fates[i].Reuse? && moved[j].id == Some(fates[i].id)
      ensures IsEntry(EditedBy(moved[j], EditsOf(files, entries, fates)), entries[i], fates[i].id)
    {
      ByIdUnique(moved, moved[j]);
      ByIdUnique(files, files[j]);
      assert KeptAs(files, fates[i], moved[j]);
    }
  }

  lemma KeptAsWantedHolds(files: seq<File>, moved: seq<File>, entries: seq<Entry>, fates: seq<Fate>)
    requires |entries| == |fates| && MovedHome(files, moved, entries, fates)
    ensures KeptAsWanted(files, EditAll(KeepFiles(moved, UsedIds(fates)), EditsOf(files, entries, fates)), entries, fates)
  {
    hide EditedBy, EditsOf, MovedHome, IsEntry, UsedIds;
    var used, revisions := UsedIds(fates), EditsOf(files, entries, fates);
    var kept := KeepFiles(moved, used);
    var live := EditAll(kept, revisions);
    KeepMembers(moved, used);
    KeptCount(files, moved, entries, fates);
    MovedLength(files, moved, entries, fates);
    forall f | f in live
      ensures f.id.None? ==> f in files
      ensures f.id.Some? ==> KeptBySome(f, entries, fates)
    {
      var k :| 0 <= k < |live| && live[k] == f;
      assert kept[k] in kept;
      var j :| 0 <= j < |moved| && moved[j] == kept[k];
      RecordEnds(files, moved, entries, fates, j);
      if f.id.Some? {
        UsedBySome(fates, kept[k]);
      }
    }
    forall f | f in files && f.id.None?
      ensures f in live
    {
      UntouchedLive(files, moved, entries, fates, f);
    }
    forall i | 0 <= i < |fates| && fates[i].Reuse?
      ensures Met(live, entries[i], fates[i].id)
    {
      EntryLive(files, moved, entries, fates, i);
    }
  }

  lemma MovedLength(files: seq<File>, moved: seq<File>, entries: seq<Entry>, fates: seq<Fate>)
    requires |entries| == |fates| && MovedHome(files, moved, entries, fates)
    ensures |files| == |moved|
  {
  }

  lemma UsedBySome(fates: seq<Fate>, f: File)
    requires f.id.Some? && f.id.value in UsedIds(fates)
    ensures exists i :: 0 <= i < |fates| && fates[i].Reuse? && f.id == Some(fates[i].id)
  {
  }

  lemma KeptCount(files: seq<File>, moved: seq<File>, entries: seq<Entry>, fates: seq<Fate>)
    requires |entries| == |fates| && MovedHome(files, moved, entries, fates)
    ensures |KeepFiles(moved, UsedIds(fates))| == |Unidentified(files)| + |UsedIds(fates)|
  {
    KeepCount(moved, UsedIds(fates));
    UnidentifiedSame(moved, files);
    forall id | id in UsedIds(fates)
      ensures id in IdsOf(moved)
    {
      var i :| 0 <= i < |fates| && fates[i].Reuse? && fates[i].id == id;
      assert ById(moved, id).value in moved;
    }
    assert UsedIds(fates) * IdsOf(moved) == UsedIds(fates);
  }

  lemma UntouchedLive(files: seq<File>, moved: seq<File>, entries: seq<Entry>, fates: seq<Fate>, f: File)
    requires |entries| == |fates| && MovedHome(files, moved, entries, fates) && f in files && f.id.None?
    ensures f in EditAll(KeepFiles(moved, UsedIds(fates)), EditsOf(files, entries, fates))
  {
    var j :| 0 <= j < |files| && files[j] == f;
    RecordEnds(files, moved, entries, fates, j);
    assert moved[j] in moved;
    EditedLive(moved, UsedIds(fates), EditsOf(files, entries, fates), moved[j]);
  }

  lemma EntryLive(files: seq<File>, moved: seq<File>, entries: seq<Entry>, fates: seq<Fate>, i: nat)
    requires |entries| == |fates| && MovedHome(files, moved, entries, fates) && i < |fates| && fates[i].Reuse?
    ensures Met(EditAll(KeepFiles(moved, UsedIds(fates)), EditsOf(files, entries, fates)), entries[i], fates[i].id)
  {
    var f := ById(moved, fates[i].id).value;
    var j :| 0 <= j < |moved| && moved[j] == f;
    RecordEnds(files, moved, entries, fates, j);
    EditedLive(moved, UsedIds(fates), EditsOf(files, entries, fates), f);
  }

  lemma EditedLive(moved: seq<File>, used: set<Id>, revisions: seq<Revision>, f: File)
    requires f in moved && (f.id.None? || f.id.value in used)
    ensures EditedBy(f, revisions) in EditAll(KeepFiles(moved, used), revisions)
  {
    var kept := KeepFiles(moved, used);
    KeepMembers(moved, used);
    var k :| 0 <= k < |kept| && kept[k] == f;
    assert EditAll(kept, revisions)[k] == EditedBy(f, revisions);
  }

  // ------------------------------------------------------------ the four stages

  lemma MatchedStarts(w: Work, entries: seq<Entry>, creations: map<(EntityKind, Path), Option<Id>>, m: Matching, deleted: Work)
    requires DistinctFileIds(w.files) && Matched(w.files, entries, creations, w.next, m)
    requires deleted.files == w.files && deleted.next >= m.next
    requires forall i :: 0 <= i < |entries| ==> OldPath(entries[i].path, w.next)
    ensures var used := UsedIds(m.fates);
      && Backed(deleted, used, m.moves) && DistinctItems(m.moves)
      && Destined(Positions(w.files, used), Landed(Positions(w.files, used), m.moves), m.moves)
      && Positions(w.files, used).Keys == used
      && forall i :: 0 <= i < |m.fates| && m.fates[i].Reuse? ==>
           m.fates[i].id in used
           && m.fates[i].id in Landed(Positions(w.files, used), m.moves)
           && Landed(Positions(w.files, used), m.moves)[m.fates[i].id] == entries[i].path
  {
    hide AuthorizedFates, AreEdits, EditsOf, CreationsOf, SoundFates, MovesOf;
    var used := UsedIds(m.fates);
    var at := Positions(w.files, used);
    MatchedGoals(w.files, entries, m.fates, deleted.next);
    GoalFacts(at, m.moves);
  }

  lemma MatchedEdits(w: Work, entries: seq<Entry>, creations: map<(EntityKind, Path), Option<Id>>, m: Matching, moved: seq<File>)
    requires Matched(w.files, entries, creations, w.next, m)
    requires |moved| == |w.files| && forall i :: 0 <= i < |moved| ==> moved[i] == w.files[i].(path := moved[i].path)
    ensures EditsBacked(moved, UsedIds(m.fates), EditsOf(w.files, entries, m.fates))
  {
    EditsAreSound(w.files, entries, m.fates);
    var revisions := EditsOf(w.files, entries, m.fates);
    forall i | 0 <= i < |revisions|
      ensures revisions[i].id in UsedIds(m.fates)
      ensures HasFile(Tree(moved, []), revisions[i].id, revisions[i].revision)
    {
      assert RevisesSome(m.fates, revisions[i]);
      var k :| 0 <= k < |m.fates| && m.fates[k] == Reuse(revisions[i].id, revisions[i].revision);
      assert SoundFate(w.files, m.fates[k]);
      var f :| f in w.files && f.id == Some(revisions[i].id) && f.revision == Some(revisions[i].revision);
      var j :| 0 <= j < |w.files| && w.files[j] == f;
      assert moved[j] in Tree(moved, []).files;
    }
  }

  ghost predicate RevisesSome(fates: seq<Fate>, e: Revision) {
    exists k :: 0 <= k < |fates| && fates[k] == Reuse(e.id, e.revision)
  }

  lemma {:induction false} EditsAreSound(files: seq<File>, entries: seq<Entry>, fates: seq<Fate>)
    requires |entries| == |fates|
    ensures forall e :: e in EditsOf(files, entries, fates) ==> RevisesSome(fates, e)
  {
    if fates != [] {
      var n := |fates| - 1;
      EditsAreSound(files, entries[..n], fates[..n]);
      forall e | e in EditsOf(files, entries, fates)
        ensures RevisesSome(fates, e)
      {
        if e in EditsOf(files, entries[..n], fates[..n]) {
          var k :| 0 <= k < n && fates[..n][k] == Reuse(e.id, e.revision);
          assert fates[k] == Reuse(e.id, e.revision);
        } else {
          assert fates[n] == Reuse(e.id, e.revision);
        }
      }
    }
  }

  lemma MovedHomeHolds(t: Tree, w: Work, entries: seq<Entry>, m: Matching, deleted: Work, moved: Work)
    requires |entries| == |m.fates| && DistinctFileIds(w.files) && SoundFates(w.files, m.fates)
    requires deleted.files == w.files && SameRecords(deleted, moved) && Settling(t, moved, UsedIds(m.fates))
    requires Positions(moved.files, UsedIds(m.fates)) == Landed(Positions(w.files, UsedIds(m.fates)), m.moves)
    requires forall i :: 0 <= i < |m.fates| && m.fates[i].Reuse? ==>
               m.fates[i].id in UsedIds(m.fates)
               && m.fates[i].id in Landed(Positions(w.files, UsedIds(m.fates)), m.moves)
               && Landed(Positions(w.files, UsedIds(m.fates)), m.moves)[m.fates[i].id] == entries[i].path
    ensures MovedHome(w.files, moved.files, entries, m.fates)
  {
    hide Proper, OldPaths, Landed, SoundFates;
    forall i | 0 <= i < |m.fates| && m.fates[i].Reuse?
      ensures ById(moved.files, m.fates[i].id).Some? && ById(moved.files, m.fates[i].id).value.path == entries[i].path
    {
      assert m.fates[i].id in Positions(moved.files, UsedIds(m.fates));
    }
  }

  /** The files are as the entries want them, up to those still to be made. */
  ghost predicate FilesSettled(t: Tree, w: Work, entries: seq<Entry>, creations: map<(EntityKind, Path), Option<Id>>, m: Matching, r: Work) {
    && |m.fates| == |entries|
    && SoundFates(w.files, m.fates)
    && AuthorizedFates(w.files, entries, m.fates, creations, w.next)
    && m.creates == CreationsOf(entries, m.fates)
    && Proper(t, r.ops, r.deletedAt)
    && r.folders == w.folders && r.next >= w.next
    && |w.ops| <= |r.ops| && r.ops[..|w.ops|] == w.ops
    && Run(t, r.ops).folders == w.folders
    && KeptAsWanted(w.files, Run(t, r.ops).files, entries, m.fates)
  }

  /** No two claimed files stand on the same path, and no two entries want the same one. */
  ghost predicate AllApart(files: seq<File>, entries: seq<Entry>) {
    && (forall f, g :: f in files && g in files && f.id.Some? && g.id.Some? && f.path == g.path ==> f.id == g.id)
    && (forall i, j :: 0 <= i < j < |entries| ==> entries[i].path != entries[j].path)
  }

  lemma ApartDistinguished(w: Work, entries: seq<Entry>, fates: seq<Fate>, moves: seq<Relocation>)
    requires |entries| == |fates| && AllApart(w.files, entries)
    requires Positions(w.files, UsedIds(fates)).Keys == UsedIds(fates)
    requires Destined(Positions(w.files, UsedIds(fates)), Landed(Positions(w.files, UsedIds(fates)), moves), moves)
    requires forall i :: 0 <= i < |fates| && fates[i].Reuse? ==>
               fates[i].id in UsedIds(fates)
               && fates[i].id in Landed(Positions(w.files, UsedIds(fates)), moves)
               && Landed(Positions(w.files, UsedIds(fates)), moves)[fates[i].id] == entries[i].path
    ensures var at := Positions(w.files, UsedIds(fates)); Distinguished(at, Landed(at, moves))
  {
    hide Landed;
    var at := Positions(w.files, UsedIds(fates));
    var goal := Landed(at, moves);
    assert Injective(at);
    forall a, b | a in goal && b in goal && goal[a] == goal[b]
      ensures a == b
    {
      var i :| 0 <= i < |fates| && fates[i].Reuse? && fates[i].id == a;
      var j :| 0 <= j < |fates| && fates[j].Reuse? && fates[j].id == b;
      assert !(i < j) && !(j < i);
    }
  }

  /** Every identified file has a revision. */
  ghost predicate AllRevised(files: seq<File>) {
    forall f :: f in files && f.id.Some? ==> f.revision.Some?
  }

  lemma RevisedMeans(files: seq<File>)
    ensures AllRevised(files) <==> forall f :: f in files && f.id.Some? ==> f.revision.Some?
  {
  }

  lemma ClaimedRevised(files: seq<File>, fates: seq<Fate>)
    requires DistinctFileIds(files) && SoundFates(files, fates)
    requires forall f :: f in files && f.id.Some? && f.id.value !in UsedIds(fates) ==> f.revision.Some?
    ensures AllRevised(files)
  {
    forall f | f in files && f.id.Some? && f.id.value in UsedIds(fates)
      ensures f.revision.Some?
    {
      var i :| 0 <= i < |fates| && fates[i].Reuse? && fates[i].id == f.id.value;
      assert SoundFate(files, fates[i]);
      var g :| g in files && g.id == Some(fates[i].id) && g.revision == Some(fates[i].revision);
      SameFile(files, f, g);
    }
  }

  /** From the batch of the folders to the batch of the folders and files. */
  method SettleFiles(ghost t: Tree, w: Work, entries: seq<Entry>, creations: map<(EntityKind, Path), Option<Id>>)
    returns (r: Result<Work>, m: Matching)
    requires Consistent(t, w)
    requires forall i :: 0 <= i < |entries| ==> OldPath(entries[i].path, w.next)
    ensures r.Ok? ==> FilesSettled(t, w, entries, creations, m, r.value)
    ensures r.Ok? && AllApart(w.files, entries) ==> Always(t, r.value.ops, Unoccupied)
    ensures r.Ok? ==> Claimable(w.files, entries, creations) && AllRevised(w.files) && AsClaimed(w.files, entries, creations, m.fates)
    ensures AllApart(w.files, entries) && Claimable(w.files, entries, creations) && AllRevised(w.files) ==> r.Ok?
    ensures r.Ok? ==> Drawn(w, r.value)
    ensures r.Ok? ==> |m.fates| == |entries| && OwnIds(entries, m.fates, creations, w.next, r.value.next)
  {
    hide Drawn, Serials, OwnIds, Matched, Settling, SameRecords, Proper, Consistent, Positions, Landed, Destined, Backed, DistinctItems, Distinguished, AlwaysFrom, AllApart, KeptAsWanted, FilesSettled, Unobstructed, NoMoves, OnlyEdits, MovedHome, Claimable, AsClaimed, UsedIds, AllRevised;
    m := Matching([], [], [], [], w.next);
    ConsistentDistinct(t, w);
    var matched := Match(w.files, entries, creations, w.next);
    if matched.Thrown? {
      return Thrown(matched.reason), m;
    }
    m := matched.value;
    MatchedFacts(w.files, entries, creations, w.next, m);
    var used := UsedIds(m.fates);
    LaterConsistent(t, w, m.next);
    var deletion := DeleteUnused(t, w.(next := m.next), used);
    if deletion.Thrown? {
      assert !AllRevised(w.files) by {
        RevisedMeans(w.files);
      }
      return Thrown(deletion.reason), m;
    }
    var deleted := deletion.value;
    ClaimedRevised(w.files, m.fates);
    MatchedStarts(w, entries, creations, m, deleted);
    ghost var apart := AllApart(w.files, entries);
    if apart {
      ApartDistinguished(w, entries, m.fates, m.moves);
    }
    var motion, temps := MoveAll(t, deleted, used, m.moves);
    if motion.Thrown? {
      return Thrown(motion.reason), m;
    }
    var moved := motion.value;
    MovedHomeHolds(t, w, entries, m, deleted, moved);
    KeptAsWantedHolds(w.files, moved.files, entries, m.fates);
    RecordsFacts(deleted, moved);
    MatchedEdits(w, entries, creations, m, moved.files);
    ghost var revisions := EditsOf(w.files, entries, m.fates);
    var edited := ReviseAll(t, moved, used, m.edits, revisions);
    SettledNow(t, w, entries, creations, m, deleted, moved, edited);
    if apart {
      UnobstructedMoves(t, deleted, moved, m.moves, Positions(w.files, used), Landed(Positions(w.files, used), m.moves), temps);
      UnoccupiedThroughout(t, deleted, moved, edited);
    }
    FilesDrawn(w, m, deleted, moved, edited);
    OwnIdsLater(entries, m.fates, creations, w.next, m.next, edited.next);
    return Ok(edited), m;
  }

  /** The edits were named while matching, before any delete or move. */
  lemma FilesDrawn(w: Work, m: Matching, deleted: Work, moved: Work, edited: Work)
    requires m.next >= w.next && Serials(m.edits, w.next, m.next) && Drawn(w.(next := m.next), deleted) && SameRecords(deleted, moved)
    requires edited.ops == moved.ops + m.edits && edited.next == moved.next
    ensures Drawn(w, edited) && edited.next >= m.next
  {
    DrawnTransitive(w.(next := m.next), deleted, moved);
    EditsDrawn(w, moved, edited, m.edits, m.next);
  }

  lemma OwnIdsLater(entries: seq<Entry>, fates: seq<Fate>, creations: map<(EntityKind, Path), Option<Id>>, lo: nat, hi: nat, later: nat)
    requires |entries| == |fates| && OwnIds(entries, fates, creations, lo, hi) && hi <= later
    ensures OwnIds(entries, fates, creations, lo, later)
  {
  }

  lemma UnobstructedMoves(t: Tree, w: Work, after: Work, moves: seq<Relocation>, at: map<Id, Path>, goal: map<Id, Path>, temps: set<Id>)
    requires Unobstructed(t, w, after, moves, at, goal, temps)
    ensures AlwaysFrom(t, after.ops, |w.ops|, Unoccupied)
  {
  }

  lemma ConsistentDistinct(t: Tree, w: Work)
    requires Consistent(t, w)
    ensures DistinctFileIds(w.files)
  {
  }

  lemma MatchedFacts(files: seq<File>, entries: seq<Entry>, creations: map<(EntityKind, Path), Option<Id>>, next: nat, m: Matching)
    requires Matched(files, entries, creations, next, m)
    ensures |m.fates| == |entries| && SoundFates(files, m.fates) && m.next >= next
    ensures AreEdits(m.edits, EditsOf(files, entries, m.fates))
    ensures AuthorizedFates(files, entries, m.fates, creations, next) && m.creates == CreationsOf(entries, m.fates)
  {
  }

  lemma LaterConsistent(t: Tree, w: Work, next: nat)
    requires Consistent(t, w) && next >= w.next
    ensures Consistent(t, w.(next := next))
  {
    OlderPaths(w, next);
  }

  lemma OlderPaths(w: Work, next: nat)
    requires OldPaths(w) && next >= w.next
    ensures OldPaths(w.(next := next))
  {
  }

  lemma RecordsFacts(before: Work, after: Work)
    requires SameRecords(before, after)
    ensures |after.files| == |before.files| && forall i :: 0 <= i < |after.files| ==> after.files[i] == before.files[i].(path := after.files[i].path)
    ensures after.folders == before.folders && after.next >= before.next
  {
  }

  lemma SettledNow(t: Tree, w: Work, entries: seq<Entry>, creations: map<(EntityKind, Path), Option<Id>>, m: Matching,
                   deleted: Work, moved: Work, edited: Work)
    requires |m.fates| == |entries| && SoundFates(w.files, m.fates)
    requires AuthorizedFates(w.files, entries, m.fates, creations, w.next) && m.creates == CreationsOf(entries, m.fates)
    requires deleted.folders == w.folders && deleted.next >= w.next && SameRecords(deleted, moved)
    requires |w.ops| <= |deleted.ops| && deleted.ops[..|w.ops|] == w.ops
    requires Proper(t, edited.ops, edited.deletedAt) && OnlyEdits(moved, edited)
    requires Run(t, edited.ops) == Tree(EditAll(KeepFiles(moved.files, UsedIds(m.fates)), EditsOf(w.files, entries, m.fates)), moved.folders)
    requires KeptAsWanted(w.files, EditAll(KeepFiles(moved.files, UsedIds(m.fates)), EditsOf(w.files, entries, m.fates)), entries, m.fates)
    ensures FilesSettled(t, w, entries, creations, m, edited)
  {
    hide Proper, KeptAsWanted, SoundFates, AuthorizedFates, EditAll, KeepFiles, EditsOf;
    assert edited.ops[..|w.ops|] == edited.ops[..|moved.ops|][..|deleted.ops|][..|w.ops|];
  }

  /** File moves are the only operations `Unoccupied` speaks of, and they all lie in the move loop. */
  lemma UnoccupiedThroughout(t: Tree, deleted: Work, moved: Work, edited: Work)
    requires NoMoves(deleted.ops) && SameRecords(deleted, moved) && OnlyEdits(moved, edited)
    requires AlwaysFrom(t, moved.ops, |deleted.ops|, Unoccupied)
    ensures Always(t, edited.ops, Unoccupied)
  {
    hide Run;
    assert edited.ops[..|moved.ops|] == moved.ops;
    forall k | 0 <= k < |edited.ops| && !(|deleted.ops| <= k < |moved.ops|)
      ensures !edited.ops[k].Move?
    {
      if k < |deleted.ops| {
        assert edited.ops[k] == moved.ops[k] == deleted.ops[k];
      }
    }
    StageIff(t, edited.ops, |deleted.ops|, |moved.ops|, Unoccupied);
  }
}
