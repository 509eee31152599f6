/**
 The files of the tree while the batch deletes, moves and edits them: the
 planner keeps every record in `files`, the run keeps those still live.
 */
module FileRuns {
  import opened Wrappers
  import opened Paths
  import opened OperationModel
  import opened PlanWork
  import opened FileMatching

  /** The files still live once unclaimed ones are deleted; a file without identity cannot be deleted. */
  function KeepFiles(files: seq<File>, used: set<Id>): seq<File> {
    if files == [] then []
    else (if files[0].id.Some? && files[0].id.value !in used then [] else [files[0]]) + KeepFiles(files[1..], used)
  }

  lemma {:induction false} KeepMembers(files: seq<File>, used: set<Id>)
    ensures forall f :: f in KeepFiles(files, used) <==> f in files && (f.id.None? || f.id.value in used)
  {
    if files != [] {
      KeepMembers(files[1..], used);
      assert forall f :: f in files <==> f == files[0] || f in files[1..];
    }
  }

  lemma {:induction false} KeepMoves(files: seq<File>, used: set<Id>, id: Id, to: Path)
    ensures KeepFiles(MoveFiles(files, id, to), used) == MoveFiles(KeepFiles(files, used), id, to)
  {
    if files == [] {
      assert MoveFiles(files, id, to) == [];
    } else {
      KeepMoves(files[1..], used, id, to);
      var moved := MoveFiles(files, id, to);
      assert moved[1..] == MoveFiles(files[1..], id, to);
    }
  }

  lemma {:induction false} KeepDistinct(files: seq<File>, used: set<Id>)
    requires DistinctFileIds(files)
    ensures DistinctFileIds(KeepFiles(files, used))
  {
    if files != [] {
      KeepDistinct(files[1..], used);
      KeepMembers(files[1..], used);
      forall f | f in KeepFiles(files[1..], used) && files[0].id.Some?
        ensures f.id != files[0].id
      {
        assert f in files[1..];
      }
    }
  }

  lemma {:induction false} KeepConcat(a: seq<File>, b: seq<File>, used: set<Id>)
    ensures KeepFiles(a + b, used) == KeepFiles(a, used) + KeepFiles(b, used)
  {
    if a == [] {
      assert a + b == b;
    } else {
      KeepConcat(a[1..], b, used);
      var whole := a + b;
      assert whole[0] == a[0] && whole[1..] == a[1..] + b;
      var head := if a[0].id.Some? && a[0].id.value !in used then [] else [a[0]];
      Regroup(head, KeepFiles(a[1..], used), KeepFiles(b, used));
    }
  }

  lemma {:induction false} DropAbsent(files: seq<File>, id: Id)
    requires forall f :: f in files ==> f.id != Some(id)
    ensures DropFile(files, id) == files
  {
    if files != [] {
      DropAbsent(files[1..], id);
    }
  }

  lemma Regroup(a: seq<File>, b: seq<File>, c: seq<File>)
    ensures a + (b + c) == (a + b) + c
  {
  }

  lemma {:induction false} DropConcat(a: seq<File>, b: seq<File>, id: Id)
    ensures DropFile(a + b, id) == DropFile(a, id) + DropFile(b, id)
  {
    if a == [] {
      assert a + b == b;
    } else {
      DropConcat(a[1..], b, id);
      var whole := a + b;
      assert whole[0] == a[0] && whole[1..] == a[1..] + b;
      Regroup([a[0]], DropFile(a[1..], id), DropFile(b, id));
    }
  }

  /** Deleting the one file `id` of `a + [f] + b`. */
  lemma DropOne(a: seq<File>, f: File, b: seq<File>)
    requires f.id.Some? && (forall g :: g in a || g in b ==> g.id != f.id)
    ensures DropFile(a + [f] + b, f.id.value) == a + b
  {
    DropConcat(a + [f], b, f.id.value);
    DropConcat(a, [f], f.id.value);
    DropAbsent(a, f.id.value);
    DropAbsent(b, f.id.value);
    assert DropFile([f], f.id.value) == [];
  }

  /** The working arrays from the deletions on: the run holds the kept files. */
  ghost predicate Settling(t: Tree, w: Work, used: set<Id>) {
    && Run(t, w.ops) == Tree(KeepFiles(w.files, used), w.folders)
    && DistinctIds(Tree(w.files, w.folders))
    && Proper(t, w.ops, w.deletedAt)
    && OldPaths(w)
  }

  ghost predicate Deletes(t: Tree, w: Work, used: set<Id>, i: nat)
    requires i <= |w.files|
  {
    && Run(t, w.ops) == Tree(KeepFiles(w.files[..i], used) + w.files[i..], w.folders)
    && DistinctIds(Tree(w.files, w.folders))
    && Proper(t, w.ops, w.deletedAt)
    && NoMoves(w.ops)
    && OldPaths(w)
  }

  /** Emit the delete, leave the record where it is (plugin/src/operation-plan.ts:35). */
  function DeleteInPlace(w: Work, f: File): Work
    requires f.id.Some? && f.revision.Some?
  {
    var op := Delete(Minted(w.next), f.id.value, f.revision.value);
    w.(ops := w.ops + [op], deletedAt := w.deletedAt[f.path := op], next := w.next + 1)
  }

  lemma KeepPrefixStep(files: seq<File>, used: set<Id>, i: nat)
    requires i < |files|
    ensures KeepFiles(files[..i + 1], used) ==
            KeepFiles(files[..i], used) + if files[i].id.Some? && files[i].id.value !in used then [] else [files[i]]
  {
    assert files[..i + 1] == files[..i] + [files[i]];
    KeepConcat(files[..i], [files[i]], used);
  }

  lemma DeleteInPlaceStep(t: Tree, w: Work, used: set<Id>, i: nat)
    requires i < |w.files| && Deletes(t, w, used, i)
    requires w.files[i].id.Some? && w.files[i].revision.Some? && w.files[i].id.value !in used
    ensures Deletes(t, DeleteInPlace(w, w.files[i]), used, i + 1)
  {
    var f := w.files[i];
    var op := Delete(Minted(w.next), f.id.value, f.revision.value);
    RunStep(t, w.ops, op);
    DropAtCursor(w.files, used, i);
    DeleteLawful(Run(t, w.ops), w, f, i, used, op);
    EmitRemoval(t, w.ops, w.deletedAt, f.path, op);
  }

  lemma DropAtCursor(files: seq<File>, used: set<Id>, i: nat)
    requires i < |files| && DistinctFileIds(files) && files[i].id.Some? && files[i].id.value !in used
    ensures DropFile(KeepFiles(files[..i], used) + files[i..], files[i].id.value)
            == KeepFiles(files[..i + 1], used) + files[i + 1..]
  {
    var f := files[i];
    var before, after := KeepFiles(files[..i], used), files[i + 1..];
    assert before + files[i..] == before + [f] + after;
    KeepMembers(files[..i], used);
    DropOne(before, f, after);
    KeepPrefixStep(files, used, i);
  }

  lemma DeleteLawful(live: Tree, w: Work, f: File, i: nat, used: set<Id>, op: Op)
    requires i < |w.files| && w.files[i] == f && live.files == KeepFiles(w.files[..i], used) + w.files[i..]
    requires f.id.Some? && f.revision.Some? && op.Delete? && op.target == f.id.value && op.revision == f.revision.value
    requires DistinctFileIds(w.files)
    ensures Lawful(live, op) && Sheltered(live, op) && RemovesOnly(live, op, f.path)
  {
    assert w.files[i..][0] == f;
    assert f in live.files;
    assert HasFile(live, op.target, op.revision);
    KeepMembers(w.files[..i], used);
    forall g | g in live.files && g.id == f.id
      ensures g == f
    {
      SameFile(w.files, g, f);
    }
    FileRemovedOnly(live, f, op);
  }

  lemma SkipStep(t: Tree, w: Work, used: set<Id>, i: nat)
    requires i < |w.files| && Deletes(t, w, used, i)
    requires w.files[i].id.None? || w.files[i].id.value in used
    ensures Deletes(t, w, used, i + 1)
  {
    SkipAtCursor(w.files, used, i);
  }

  lemma SkipAtCursor(files: seq<File>, used: set<Id>, i: nat)
    requires i < |files| && (files[i].id.None? || files[i].id.value in used)
    ensures KeepFiles(files[..i], used) + files[i..] == KeepFiles(files[..i + 1], used) + files[i + 1..]
  {
    KeepPrefixStep(files, used, i);
    assert files[i..] == [files[i]] + files[i + 1..];
  }

  lemma DeletesStart(t: Tree, w: Work, used: set<Id>)
    requires Consistent(t, w)
    ensures Deletes(t, w, used, 0)
  {
    assert KeepFiles(w.files[..0], used) + w.files[0..] == w.files;
  }

  lemma DeletesEnd(t: Tree, w: Work, used: set<Id>)
    requires Deletes(t, w, used, |w.files|)
    ensures Settling(t, w, used) && NoMoves(w.ops)
  {
    assert w.files[..|w.files|] == w.files;
    assert KeepFiles(w.files, used) + w.files[|w.files|..] == KeepFiles(w.files, used);
  }

  /** Delete every identified file that no entry claimed. */
  method DeleteUnused(ghost t: Tree, w: Work, used: set<Id>) returns (r: Result<Work>)
    requires Consistent(t, w)
    ensures r.Ok? ==> Settling(t, r.value, used) && NoMoves(r.value.ops)
    ensures r.Ok? ==> r.value.files == w.files && r.value.folders == w.folders && r.value.next >= w.next
    ensures r.Ok? ==> |w.ops| <= |r.value.ops| && r.value.ops[..|w.ops|] == w.ops && Drawn(w, r.value)
    ensures r.Ok? <==> forall f :: f in w.files && f.id.Some? && f.id.value !in used ==> f.revision.Some?
  {
    hide Deletes, Settling, Consistent, NoMoves, Drawn;
    var at := w;
    NoneDrawn(w, at);
    DeletesStart(t, w, used);
    for i := 0 to |w.files|
      invariant at.files == w.files && at.folders == w.folders && at.next >= w.next
      invariant |w.ops| <= |at.ops| && at.ops[..|w.ops|] == w.ops && Drawn(w, at)
      invariant Deletes(t, at, used, i)
      invariant forall k :: 0 <= k < i && w.files[k].id.Some? && w.files[k].id.value !in used ==> w.files[k].revision.Some?
    {
      var f := w.files[i];
      if f.id.Some? && f.id.value !in used {
        if f.revision.None? {
          return Thrown("Server revision is missing");
        }
        DeleteInPlaceStep(t, at, used, i);
        assert DeleteInPlace(at, f).ops[..|w.ops|] == at.ops[..|w.ops|];
        ghost var before := at;
        at := DeleteInPlace(at, f);
        OneDrawn(before, at, at.ops[|before.ops|]);
        DrawnTransitive(w, before, at);
      } else {
        SkipStep(t, at, used, i);
      }
    }
    DeletesEnd(t, at, used);
    return Ok(at);
  }

  // -------------------------------------------------------------------- moves

  /** `moveTo`: emit the move and rewrite the record. */
  function MoveRecord(w: Work, id: Id, revision: Id, to: Path): Work {
    var op := Move(Minted(w.next), id, revision, to);
    w.(ops := w.ops + [op], files := MoveFiles(w.files, id, to), next := w.next + 1)
  }

  lemma MoveRecordSettling(t: Tree, w: Work, used: set<Id>, id: Id, revision: Id, to: Path)
    requires Settling(t, w, used) && id in used && HasFile(Tree(w.files, w.folders), id, revision)
    requires OldPath(to, w.next + 1)
    ensures Settling(t, MoveRecord(w, id, revision, to), used)
  {
    var op := Move(Minted(w.next), id, revision, to);
    MoveRecordRun(t, w, used, id, revision, to);
    MoveRecordLawful(Run(t, w.ops), w, used, op);
    EmitProper(t, w.ops, w.deletedAt, op);
    MoveRecordOldPaths(w, id, revision, to);
    MovedIdsDistinct(w.files, id, to);
  }

  lemma MoveRecordRun(t: Tree, w: Work, used: set<Id>, id: Id, revision: Id, to: Path)
    requires Run(t, w.ops) == Tree(KeepFiles(w.files, used), w.folders)
    ensures Run(t, MoveRecord(w, id, revision, to).ops) == Tree(KeepFiles(MoveFiles(w.files, id, to), used), w.folders)
  {
    RunStep(t, w.ops, Move(Minted(w.next), id, revision, to));
    KeepMoves(w.files, used, id, to);
  }

  lemma MoveRecordLawful(live: Tree, w: Work, used: set<Id>, op: Op)
    requires live == Tree(KeepFiles(w.files, used), w.folders)
    requires op.Move? && op.target in used && HasFile(Tree(w.files, w.folders), op.target, op.revision)
    ensures Lawful(live, op) && Sheltered(live, op)
  {
    KeepMembers(w.files, used);
  }

  lemma MovedIdsDistinct(files: seq<File>, id: Id, to: Path)
    requires DistinctFileIds(files)
    ensures DistinctFileIds(MoveFiles(files, id, to))
  {
  }

  lemma MoveRecordOldPaths(w: Work, id: Id, revision: Id, to: Path)
    requires OldPaths(w) && OldPath(to, w.next + 1)
    ensures OldPaths(MoveRecord(w, id, revision, to))
  {
    var after := MoveRecord(w, id, revision, to);
    forall f | f in after.files
      ensures OldPath(f.path, after.next)
    {
      var i :| 0 <= i < |after.files| && after.files[i] == f;
      assert w.files[i] in w.files;
    }
  }
}
