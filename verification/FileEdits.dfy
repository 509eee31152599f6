/**
 The edits of a batch (plugin/src/operation-plan.ts:37), and what the kept
 files look like once they are moved and edited.
 */
module FileEdits {
  import opened Wrappers
  import opened Paths
  import opened OperationModel
  import opened PlanWork
  import opened FileMatching
  import opened FileRuns
  import opened FileMoves

  // -------------------------------------------------------------------- edits

  function EditedBy(f: File, revisions: seq<Revision>): (r: File)
    ensures r == f.(content := r.content)
  {
    if revisions == [] then f
    else
      var n := |revisions| - 1;
      EditFile(EditedBy(f, revisions[..n]), revisions[n].id, revisions[n].content)
  }

  function EditAll(files: seq<File>, revisions: seq<Revision>): (r: seq<File>)
    ensures |r| == |files| && forall i :: 0 <= i < |r| ==> r[i] == EditedBy(files[i], revisions)
  {
    seq(|files|, i requires 0 <= i < |files| => EditedBy(files[i], revisions))
  }

  lemma EditAllStep(files: seq<File>, revisions: seq<Revision>, i: nat)
    requires i < |revisions|
    ensures EditAll(files, revisions[..i + 1]) == EditFiles(EditAll(files, revisions[..i]), revisions[i].id, revisions[i].content)
  {
    assert revisions[..i + 1][..i] == revisions[..i];
  }

  /** `f` is the file that `fate` keeps, with the content it has among `files`. */
  ghost predicate KeptAs(files: seq<File>, fate: Fate, f: File) {
    fate.Reuse? && f.id == Some(fate.id) && ById(files, fate.id).Some? && ById(files, fate.id).value.content == f.content
  }

  /** A file no entry keeps is not edited; a kept file ends with the content of its entry. */
  lemma {:induction false} EditedContent(files: seq<File>, entries: seq<Entry>, fates: seq<Fate>, f: File)
    requires |entries| == |fates| && SoundFates(files, fates)
    ensures (forall i :: 0 <= i < |fates| && fates[i].Reuse? ==> f.id != Some(fates[i].id))
            ==> EditedBy(f, EditsOf(files, entries, fates)) == f
    ensures forall i :: 0 <= i < |fates| && KeptAs(files, fates[i], f)
                        ==> EditedBy(f, EditsOf(files, entries, fates)).content == entries[i].content
  {
    if fates != [] {
      var n := |fates| - 1;
      EditedContent(files, entries[..n], fates[..n], f);
      EditsLast(files, entries, fates, f);
    }
  }

  lemma EditsLast(files: seq<File>, entries: seq<Entry>, fates: seq<Fate>, f: File)
    requires |entries| == |fates| && fates != []
    ensures var n := |fates| - 1;
      var before := EditedBy(f, EditsOf(files, entries[..n], fates[..n]));
      EditedBy(f, EditsOf(files, entries, fates)) ==
        if fates[n].Reuse? && ById(files, fates[n].id).Some? && ById(files, fates[n].id).value.content != entries[n].content
        then EditFile(before, fates[n].id, entries[n].content) else before
  {
    var n := |fates| - 1;
    var all, init := EditsOf(files, entries, fates), EditsOf(files, entries[..n], fates[..n]);
    if fates[n].Reuse? && ById(files, fates[n].id).Some? && ById(files, fates[n].id).value.content != entries[n].content {
      assert all[..|all| - 1] == init;
    } else {
      assert all == init;
    }
  }

  /** Each revision edits a kept file at the revision it was matched with. */
  ghost predicate EditsBacked(files: seq<File>, used: set<Id>, revisions: seq<Revision>) {
    forall i :: 0 <= i < |revisions| ==>
      revisions[i].id in used && HasFile(Tree(files, []), revisions[i].id, revisions[i].revision)
  }

  lemma EditLawful(w: Work, used: set<Id>, revisions: seq<Revision>, i: nat, op: Op)
    requires i < |revisions| && EditsBacked(w.files, used, revisions)
    requires op.Edit? && op.target == revisions[i].id && op.revision == revisions[i].revision
    ensures var live := Tree(EditAll(KeepFiles(w.files, used), revisions[..i]), w.folders);
      Lawful(live, op) && Sheltered(live, op)
  {
    var kept := KeepFiles(w.files, used);
    KeepMembers(w.files, used);
    var f :| f in Tree(w.files, []).files && f.id == Some(op.target) && f.revision == Some(op.revision);
    assert f in kept;
    var k :| 0 <= k < |kept| && kept[k] == f;
    var live := Tree(EditAll(kept, revisions[..i]), w.folders);
    assert live.files[k] in live.files;
    assert HasFile(live, op.target, op.revision);
  }

  /** `later` only adds edits. */
  ghost predicate OnlyEdits(w: Work, later: Work) {
    && later == w.(ops := later.ops)
    && |w.ops| <= |later.ops| && later.ops[..|w.ops|] == w.ops
    && (forall k :: |w.ops| <= k < |later.ops| ==> later.ops[k].Edit?)
  }

  lemma OnlyEditsStep(w: Work, later: Work, op: Op)
    requires OnlyEdits(w, later) && op.Edit?
    ensures OnlyEdits(w, later.(ops := later.ops + [op]))
  {
    assert (later.ops + [op])[..|w.ops|] == later.ops[..|w.ops|];
  }

  /** The edit loop. */
  method ReviseAll(ghost t: Tree, w: Work, ghost used: set<Id>, edits: seq<Op>, ghost revisions: seq<Revision>) returns (r: Work)
    requires Settling(t, w, used) && AreEdits(edits, revisions) && EditsBacked(w.files, used, revisions)
    ensures Proper(t, r.ops, r.deletedAt) && OnlyEdits(w, r) && r == w.(ops := w.ops + edits)
    ensures Run(t, r.ops) == Tree(EditAll(KeepFiles(w.files, used), revisions), w.folders)
  {
    hide Proper, KeepFiles, OnlyEdits, Lawful, Sheltered, EditsBacked, EditAll, EditFiles, Run, DistinctIds, OldPaths;
    r := w;
    OnlyEditsStart(w);
    NothingEdited(KeepFiles(w.files, used), revisions[..0]);
    for i := 0 to |edits|
      invariant Proper(t, r.ops, r.deletedAt) && OnlyEdits(w, r) && r == w.(ops := w.ops + edits[..i])
      invariant Run(t, r.ops) == Tree(EditAll(KeepFiles(w.files, used), revisions[..i]), w.folders)
    {
      EditLawful(w, used, revisions, i, edits[i]);
      EmitProper(t, r.ops, r.deletedAt, edits[i]);
      RunStep(t, r.ops, edits[i]);
      EditAllStep(KeepFiles(w.files, used), revisions, i);
      OnlyEditsStep(w, r, edits[i]);
      assert edits[..i + 1] == edits[..i] + [edits[i]];
      r := r.(ops := r.ops + [edits[i]]);
    }
    assert edits[..|edits|] == edits;
    assert revisions[..|revisions|] == revisions;
  }

  lemma NothingEdited(files: seq<File>, revisions: seq<Revision>)
    requires revisions == []
    ensures EditAll(files, revisions) == files
  {
  }

  lemma OnlyEditsStart(w: Work)
    ensures OnlyEdits(w, w)
  {
    assert w.ops[..|w.ops|] == w.ops;
  }

  // ----------------------------------------------------------- moves and edits

  /** The moves of the fates are the kept files whose path differs from their entry's. */
  lemma {:induction false} MovesMembers(files: seq<File>, entries: seq<Entry>, fates: seq<Fate>)
    requires |entries| == |fates| && SoundFates(files, fates)
    ensures forall m :: m in MovesOf(files, entries, fates) ==> exists i :: 0 <= i < |fates| && MoveOf(files, entries[i], fates[i], m)
    ensures forall i :: 0 <= i < |fates| && Displaces(files, entries[i], fates[i]) ==>
              Relocation(fates[i].id, fates[i].revision, entries[i].path) in MovesOf(files, entries, fates)
  {
    hide SoundFates, Displaces;
    if fates != [] {
      var n := |fates| - 1;
      FatesInit(files, fates);
      MovesMembers(files, entries[..n], fates[..n]);
      MovesLast(files, entries, fates);
      MovesInit(files, entries, fates, MovesOf(files, entries[..n], fates[..n]));
      if Displaces(files, entries[n], fates[n]) {
        assert MoveOf(files, entries[n], fates[n], Relocation(fates[n].id, fates[n].revision, entries[n].path));
      }
    }
  }

  lemma {:induction false} MovesDistinct(files: seq<File>, entries: seq<Entry>, fates: seq<Fate>)
    requires |entries| == |fates| && SoundFates(files, fates)
    ensures DistinctItems(MovesOf(files, entries, fates))
  {
    hide SoundFates, DistinctItems, Displaces;
    if fates == [] {
      NoItems();
    } else {
      var n := |fates| - 1;
      FatesInit(files, fates);
      MovesDistinct(files, entries[..n], fates[..n]);
      var init := MovesOf(files, entries[..n], fates[..n]);
      MovesLast(files, entries, fates);
      MovesMembers(files, entries[..n], fates[..n]);
      MovesInit(files, entries, fates, init);
      if Displaces(files, entries[n], fates[n]) {
        AddItem(init, Relocation(fates[n].id, fates[n].revision, entries[n].path));
      } else {
        assert MovesOf(files, entries, fates) == init;
      }
    }
  }

  lemma NoItems()
    ensures DistinctItems([])
  {
  }

  lemma AddItem(items: seq<Relocation>, m: Relocation)
    requires DistinctItems(items) && forall o :: o in items ==> o.id != m.id
    ensures DistinctItems(items + [m])
  {
  }

  lemma MovesLast(files: seq<File>, entries: seq<Entry>, fates: seq<Fate>)
    requires |entries| == |fates| && fates != []
    ensures var n := |fates| - 1;
      MovesOf(files, entries, fates) == MovesOf(files, entries[..n], fates[..n]) +
        if Displaces(files, entries[n], fates[n]) then [Relocation(fates[n].id, fates[n].revision, entries[n].path)] else []
    ensures Displaces(files, entries[|fates| - 1], fates[|fates| - 1]) ==> fates[|fates| - 1].Reuse?
  {
  }

  lemma MovesInit(files: seq<File>, entries: seq<Entry>, fates: seq<Fate>, init: seq<Relocation>)
    requires |entries| == |fates| && fates != []
    requires var n := |fates| - 1;
      && (fates[n].Reuse? ==> fates[n].id !in UsedIds(fates[..n]))
      && forall m :: m in init ==> exists i :: 0 <= i < n && MoveOf(files, entries[..n][i], fates[..n][i], m)
    ensures forall m :: m in init ==> exists i :: 0 <= i < |fates| && MoveOf(files, entries[i], fates[i], m)
    ensures forall m :: m in init && fates[|fates| - 1].Reuse? ==> m.id != fates[|fates| - 1].id
  {
    var n := |fates| - 1;
    forall m | m in init
      ensures exists i :: 0 <= i < |fates| && MoveOf(files, entries[i], fates[i], m)
      ensures fates[n].Reuse? ==> m.id != fates[n].id
    {
      var i :| 0 <= i < n && MoveOf(files, entries[..n][i], fates[..n][i], m);
      assert MoveOf(files, entries[i], fates[i], m);
      assert m.id in UsedIds(fates[..n]);
    }
  }

  ghost predicate Displaces(files: seq<File>, entry: Entry, fate: Fate) {
    fate.Reuse? && ById(files, fate.id).Some? && ById(files, fate.id).value.path != entry.path
  }

  ghost predicate MoveOf(files: seq<File>, entry: Entry, fate: Fate, m: Relocation) {
    Displaces(files, entry, fate) && m == Relocation(fate.id, fate.revision, entry.path)
  }

  /** Where the loop has to bring each kept file. */
  lemma MatchedGoals(files: seq<File>, entries: seq<Entry>, fates: seq<Fate>, next: nat)
    requires |entries| == |fates| && SoundFates(files, fates) && DistinctFileIds(files)
    requires forall i :: 0 <= i < |entries| ==> OldPath(entries[i].path, next)
    ensures var used, moves := UsedIds(fates), MovesOf(files, entries, fates);
      var at := Positions(files, used);
      && DistinctItems(moves)
      && at.Keys == used
      && (forall i :: 0 <= i < |moves| ==>
           moves[i].id in at && at[moves[i].id] != moves[i].to && OldPath(moves[i].to, next)
           && ById(files, moves[i].id).Some? && ById(files, moves[i].id).value.revision == Some(moves[i].revision))
      && (forall i :: 0 <= i < |fates| && fates[i].Reuse? ==>
           fates[i].id in Landed(at, moves) && Landed(at, moves)[fates[i].id] == entries[i].path)
  {
    var used, moves := UsedIds(fates), MovesOf(files, entries, fates);
    var at := Positions(files, used);
    MovesMembers(files, entries, fates);
    MovesDistinct(files, entries, fates);
    SoundPositions(files, fates);
    forall i | 0 <= i < |moves|
      ensures moves[i].id in at && at[moves[i].id] != moves[i].to && OldPath(moves[i].to, next)
      ensures ById(files, moves[i].id).Some? && ById(files, moves[i].id).value.revision == Some(moves[i].revision)
    {
      assert moves[i] in moves;
      var k :| 0 <= k < |fates| && MoveOf(files, entries[k], fates[k], moves[i]);
      assert SoundFate(files, fates[k]);
    }
    forall i | 0 <= i < |fates| && fates[i].Reuse?
      ensures fates[i].id in Landed(at, moves) && Landed(at, moves)[fates[i].id] == entries[i].path
    {
      EntryGoal(files, entries, fates, i);
    }
  }

  lemma SoundPositions(files: seq<File>, fates: seq<Fate>)
    requires SoundFates(files, fates) && DistinctFileIds(files)
    ensures Positions(files, UsedIds(fates)).Keys == UsedIds(fates)
    ensures forall i :: 0 <= i < |fates| && fates[i].Reuse? ==>
              ById(files, fates[i].id).Some? && ById(files, fates[i].id).value.revision == Some(fates[i].revision)
  {
    forall i | 0 <= i < |fates| && fates[i].Reuse?
      ensures ById(files, fates[i].id).Some? && ById(files, fates[i].id).value.revision == Some(fates[i].revision)
    {
      assert SoundFate(files, fates[i]);
      var f :| f in files && f.id == Some(fates[i].id) && f.revision == Some(fates[i].revision);
      ByIdUnique(files, f);
    }
  }

  lemma EntryGoal(files: seq<File>, entries: seq<Entry>, fates: seq<Fate>, i: nat)
    requires |entries| == |fates| && SoundFates(files, fates) && DistinctFileIds(files)
    requires i < |fates| && fates[i].Reuse?
    ensures var at := Positions(files, UsedIds(fates)); var goal := Landed(at, MovesOf(files, entries, fates));
      fates[i].id in goal && goal[fates[i].id] == entries[i].path
  {
    var moves := MovesOf(files, entries, fates);
    var at := Positions(files, UsedIds(fates));
    MovesMembers(files, entries, fates);
    MovesDistinct(files, entries, fates);
    SoundPositions(files, fates);
    LandedAt(at, moves);
    if Displaces(files, entries[i], fates[i]) {
      var m := Relocation(fates[i].id, fates[i].revision, entries[i].path);
      assert m in moves;
    } else {
      forall j | 0 <= j < |moves|
        ensures moves[j].id != fates[i].id
      {
        assert moves[j] in moves;
        var k :| 0 <= k < |fates| && MoveOf(files, entries[k], fates[k], moves[j]);
      }
    }
  }

  // ------------------------------------------------------------------- counting

  function IdsOf(files: seq<File>): (ids: set<Id>)
    ensures forall id :: id in ids <==> exists f :: f in files && f.id == Some(id)
  {
    set f | f in files && f.id.Some? :: f.id.value
  }

  lemma IdsStep(files: seq<File>)
    requires DistinctFileIds(files) && files != []
    ensures DistinctFileIds(files[1..])
    ensures files[0].id.None? ==> IdsOf(files) == IdsOf(files[1..])
    ensures files[0].id.Some? ==> files[0].id.value !in IdsOf(files[1..]) && IdsOf(files) == IdsOf(files[1..]) + {files[0].id.value}
  {
    var rest := files[1..];
    assert forall f :: f in files <==> f == files[0] || f in rest;
    forall f | f in rest && files[0].id.Some?
      ensures f.id != files[0].id
    {
      var i :| 0 <= i < |rest| && rest[i] == f;
      assert files[i + 1] == f;
    }
  }

  lemma IntersectStep(used: set<Id>, ids: set<Id>, id: Id)
    requires id !in ids
    ensures |used * (ids + {id})| == |used * ids| + if id in used then 1 else 0
  {
    if id in used {
      assert used * (ids + {id}) == used * ids + {id};
    } else {
      assert used * (ids + {id}) == used * ids;
    }
  }

  lemma {:induction false} KeepCount(files: seq<File>, used: set<Id>)
    requires DistinctFileIds(files)
    ensures |KeepFiles(files, used)| == |Unidentified(files)| + |used * IdsOf(files)|
  {
    hide DistinctFileIds, IdsOf;
    if files == [] {
      assert used * IdsOf(files) == {} by {
        NoIds();
      }
    } else {
      IdsStep(files);
      KeepCount(files[1..], used);
      if files[0].id.Some? {
        IntersectStep(used, IdsOf(files[1..]), files[0].id.value);
      }
    }
  }

  lemma NoIds()
    ensures IdsOf([]) == {}
  {
  }

  lemma FatesInit(files: seq<File>, fates: seq<Fate>)
    requires SoundFates(files, fates) && fates != []
    ensures var n := |fates| - 1;
      SoundFates(files, fates[..n]) && (fates[n].Reuse? ==> fates[n].id !in UsedIds(fates[..n]))
  {
    var n := |fates| - 1;
    var init := fates[..n];
    assert forall i :: 0 <= i < n ==> init[i] == fates[i];
  }

  lemma {:induction false} FateCount(files: seq<File>, entries: seq<Entry>, fates: seq<Fate>)
    requires |entries| == |fates| && SoundFates(files, fates)
    ensures |UsedIds(fates)| + |CreationsOf(entries, fates)| == |entries|
  {
    hide SoundFates, UsedIds, CreationsOf;
    if fates == [] {
      NoneUsed(entries, fates);
    } else {
      var n := |fates| - 1;
      FatesInit(files, fates);
      FateCount(files, entries[..n], fates[..n]);
      assert fates[..n] + [fates[n]] == fates;
      UsedGrows(fates[..n], fates[n]);
      CreationsGrow(entries, fates);
    }
  }

  lemma UsedGrows(fates: seq<Fate>, fate: Fate)
    requires fate.Reuse? ==> fate.id !in UsedIds(fates)
    ensures |UsedIds(fates + [fate])| == |UsedIds(fates)| + if fate.Reuse? then 1 else 0
  {
    UsedStep(fates, fate);
  }

  lemma CreationsGrow(entries: seq<Entry>, fates: seq<Fate>)
    requires |entries| == |fates| && fates != []
    ensures var n := |fates| - 1;
      |CreationsOf(entries, fates)| == |CreationsOf(entries[..n], fates[..n])| + if fates[n].Reuse? then 0 else 1
  {
  }

  lemma NoneUsed(entries: seq<Entry>, fates: seq<Fate>)
    requires entries == [] && fates == []
    ensures UsedIds(fates) == {} && CreationsOf(entries, fates) == []
  {
  }
}
