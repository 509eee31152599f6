/**
 The entities and operations of a batch (packages/protocol/src/operations.ts),
 and an interpreter that replays a batch on a tree exactly as the planner
 simulates it on its own working arrays.
 */
module OperationModel {
  import opened Wrappers
  import opened Paths

  /** The bytes of a file up to hash and size; the modification time plays no part in planning. */
  datatype Content = Content(hash: string, size: nat)

  /** A manifest entry of the server tree. Legacy entries may lack an identity or a revision. */
  datatype File = File(id: Option<Id>, path: Path, content: Content, revision: Option<Id>)

  datatype Folder = Folder(id: Id, path: Path, revision: Id)

  datatype Op =
    | Create(opId: Id, target: Id, path: Path, content: Content)
    | Edit(opId: Id, target: Id, revision: Id, content: Content)
    | Move(opId: Id, target: Id, revision: Id, newPath: Path)
    | Delete(opId: Id, target: Id, revision: Id)
    | Recreate(opId: Id, target: Id, revision: Id, newTarget: Id, path: Path, content: Content, deletedBy: Option<Id>)
    | Mkdir(opId: Id, target: Id, retired: Option<Id>, path: Path, replacement: Option<Id>, deletedBy: Option<Id>)
    | Rmdir(opId: Id, target: Id, revision: Id)
    | MoveFolder(opId: Id, target: Id, revision: Id, newPath: Path, descendants: seq<(Id, Id)>)

  datatype Tree = Tree(files: seq<File>, folders: seq<Folder>)

  // ---------------------------------------------------------------- effects

  function RebaseFile(f: File, from: Path, to: Path): File {
    if Under(f.path, from) then f.(path := Rebase(f.path, from, to)) else f
  }

  function RebaseFiles(files: seq<File>, from: Path, to: Path): (r: seq<File>)
    ensures |r| == |files|
    ensures forall i :: 0 <= i < |r| ==> r[i] == RebaseFile(files[i], from, to)
  {
    seq(|files|, i requires 0 <= i < |files| => RebaseFile(files[i], from, to))
  }

  /** The folder `id` itself goes to `to`; what lies under `from` follows it. */
  function RebaseFolder(d: Folder, id: Id, from: Path, to: Path): Folder {
    if d.id == id then d.(path := to)
    else if Under(d.path, from) then d.(path := Rebase(d.path, from, to))
    else d
  }

  function RebaseFolders(folders: seq<Folder>, id: Id, from: Path, to: Path): (r: seq<Folder>)
    ensures |r| == |folders|
    ensures forall i :: 0 <= i < |r| ==> r[i] == RebaseFolder(folders[i], id, from, to)
  {
    seq(|folders|, i requires 0 <= i < |folders| => RebaseFolder(folders[i], id, from, to))
  }

  function MoveFile(f: File, id: Id, to: Path): File {
    if f.id == Some(id) then f.(path := to) else f
  }

  function MoveFiles(files: seq<File>, id: Id, to: Path): (r: seq<File>)
    ensures |r| == |files|
    ensures forall i :: 0 <= i < |r| ==> r[i] == MoveFile(files[i], id, to)
  {
    seq(|files|, i requires 0 <= i < |files| => MoveFile(files[i], id, to))
  }

  function EditFile(f: File, id: Id, content: Content): File {
    if f.id == Some(id) then f.(content := content) else f
  }

  function EditFiles(files: seq<File>, id: Id, content: Content): (r: seq<File>)
    ensures |r| == |files|
    ensures forall i :: 0 <= i < |r| ==> r[i] == EditFile(files[i], id, content)
  {
    seq(|files|, i requires 0 <= i < |files| => EditFile(files[i], id, content))
  }

  function DropFile(files: seq<File>, id: Id): (r: seq<File>) {
    if files == [] then []
    else if files[0].id == Some(id) then DropFile(files[1..], id)
    else [files[0]] + DropFile(files[1..], id)
  }

  function DropFolder(folders: seq<Folder>, id: Id): (r: seq<Folder>) {
    if folders == [] then []
    else if folders[0].id == id then DropFolder(folders[1..], id)
    else [folders[0]] + DropFolder(folders[1..], id)
  }

  function FolderAt(folders: seq<Folder>, id: Id): (r: Option<Folder>)
    ensures r.Some? ==> r.value in folders && r.value.id == id
    ensures r.None? ==> forall d :: d in folders ==> d.id != id
  {
    if folders == [] then None
    else if folders[0].id == id then Some(folders[0])
    else FolderAt(folders[1..], id)
  }

  /** What one accepted operation does to the tree. */
  function Apply(t: Tree, op: Op): Tree {
    match op
    case Create(_, target, path, content) =>
      t.(files := t.files + [File(Some(target), path, content, Some(op.opId))])
    case Recreate(_, _, _, newTarget, path, content, _) =>
      t.(files := t.files + [File(Some(newTarget), path, content, Some(op.opId))])
    case Edit(_, target, _, content) => t.(files := EditFiles(t.files, target, content))
    case Move(_, target, _, newPath) => t.(files := MoveFiles(t.files, target, newPath))
    case Delete(_, target, _) => t.(files := DropFile(t.files, target))
    case Rmdir(_, target, _) => t.(folders := DropFolder(t.folders, target))
    case Mkdir(_, target, _, path, replacement, _) =>
      t.(folders := t.folders + [Folder(if replacement.Some? then replacement.value else target, path, op.opId)])
    case MoveFolder(_, target, _, newPath, _) =>
      match FolderAt(t.folders, target)
      case None => t
      case Some(d) => MoveSubtree(t, d, newPath)
  }

  function MoveSubtree(t: Tree, d: Folder, to: Path): Tree {
    Tree(RebaseFiles(t.files, d.path, to), RebaseFolders(t.folders, d.id, d.path, to))
  }

  /** The operations of a batch, in order. */
  function Run(t: Tree, ops: seq<Op>): Tree {
    if ops == [] then t else Apply(Run(t, ops[..|ops| - 1]), ops[|ops| - 1])
  }

  lemma RunStep(t: Tree, ops: seq<Op>, op: Op)
    ensures Run(t, ops + [op]) == Apply(Run(t, ops), op)
  {
    assert (ops + [op])[..|ops|] == ops;
  }

  /** Where something stands after a folder move: carried along from below the folder, or where it was. */
  ghost predicate CarriedTo(before: Path, from: Path, to: Path, after: Path) {
    if from != [] && from < before then after == to + before[|from|..] else after == before
  }

  ghost predicate FolderCarried(t: Tree, u: Tree, d: Folder, to: Path) {
    && |u.files| == |t.files| && |u.folders| == |t.folders|
    && (forall i :: 0 <= i < |t.files| ==>
         u.files[i] == t.files[i].(path := u.files[i].path) && CarriedTo(t.files[i].path, d.path, to, u.files[i].path))
    && (forall i :: 0 <= i < |t.folders| ==>
         u.folders[i] == t.folders[i].(path := u.folders[i].path) && FolderTo(t.folders[i], d, to, u.folders[i].path))
  }

  ghost predicate FolderTo(e: Folder, d: Folder, to: Path, after: Path) {
    if e.id == d.id then after == to else CarriedTo(e.path, d.path, to, after)
  }

  /**
   What each operation does, place by place. A folder takes everything below it
   along and nothing else; a removal takes the one entity; a change changes the
   one file; and what is made is new at the end.
   */
  lemma AppliedIs(t: Tree, op: Op)
    ensures op.MoveFolder? ==> forall d :: FolderAt(t.folders, op.target) == Some(d) ==> FolderCarried(t, Apply(t, op), d, op.newPath)
    ensures op.Delete? ==> Apply(t, op).folders == t.folders && forall f :: f in Apply(t, op).files <==> f in t.files && f.id != Some(op.target)
    ensures op.Rmdir? ==> Apply(t, op).files == t.files && forall d :: d in Apply(t, op).folders <==> d in t.folders && d.id != op.target
    ensures op.Move? || op.Edit? ==>
      var u := Apply(t, op);
      && u.folders == t.folders && |u.files| == |t.files|
      && forall i :: 0 <= i < |t.files| ==>
           u.files[i] == if t.files[i].id != Some(op.target) then t.files[i]
                         else if op.Move? then t.files[i].(path := op.newPath) else t.files[i].(content := op.content)
    ensures op.Create? ==> Apply(t, op) == t.(files := t.files + [File(Some(op.target), op.path, op.content, Some(op.opId))])
    ensures op.Recreate? ==> Apply(t, op) == t.(files := t.files + [File(Some(op.newTarget), op.path, op.content, Some(op.opId))])
    ensures op.Mkdir? ==>
      Apply(t, op) == t.(folders := t.folders + [Folder(if op.replacement.Some? then op.replacement.value else op.target, op.path, op.opId)])
  {
    match op
    case Delete(_, target, _) => DropFileMembers(t.files, target);
    case Rmdir(_, target, _) => DropFolderMembers(t.folders, target);
    case _ =>
  }

  // ------------------------------------------------------ promises about runs

  /** `p` holds of every operation and of the tree it meets. */
  ghost predicate Always(t: Tree, ops: seq<Op>, p: (Tree, Op) -> bool) {
    forall k {:trigger Run(t, ops[..k])} :: 0 <= k < |ops| ==> p(Run(t, ops[..k]), ops[k])
  }

  lemma AlwaysStep(t: Tree, ops: seq<Op>, op: Op, p: (Tree, Op) -> bool)
    requires Always(t, ops, p) && p(Run(t, ops), op)
    ensures Always(t, ops + [op], p)
  {
    var all := ops + [op];
    forall k | 0 <= k < |all|
      ensures p(Run(t, all[..k]), all[k])
    {
      if k < |ops| {
        assert all[..k] == ops[..k];
      } else {
        assert all[..k] == ops;
      }
    }
  }

  /** The identities and revisions of the files and folders under a path, files first. */
  function FilesUnder(files: seq<File>, from: Path): seq<File> {
    if files == [] then []
    else (if Under(files[0].path, from) then [files[0]] else []) + FilesUnder(files[1..], from)
  }

  function FoldersUnder(folders: seq<Folder>, from: Path): seq<Folder> {
    if folders == [] then []
    else (if Under(folders[0].path, from) then [folders[0]] else []) + FoldersUnder(folders[1..], from)
  }

  function FilePins(files: seq<File>): seq<(Id, Id)>
    requires forall f :: f in files ==> f.id.Some? && f.revision.Some?
  {
    seq(|files|, i requires 0 <= i < |files| => (files[i].id.value, files[i].revision.value))
  }

  function FolderPins(folders: seq<Folder>): seq<(Id, Id)> {
    seq(|folders|, i requires 0 <= i < |folders| => (folders[i].id, folders[i].revision))
  }

  ghost predicate HasFile(t: Tree, id: Id, revision: Id) {
    exists f :: f in t.files && f.id == Some(id) && f.revision == Some(revision)
  }

  /** Nobody but the file or folder `id` is at `path`. */
  ghost predicate Vacant(t: Tree, path: Path, id: Id) {
    (forall f :: f in t.files && f.path == path ==> f.id == Some(id)) &&
    (forall d :: d in t.folders && d.path == path ==> d.id == id)
  }

  /**
   Every operation names a live entity at its live revision; a folder move
   goes to a path nobody holds and lists exactly the files and folders that
   lie under the folder, each at its live revision.
   */
  ghost predicate Lawful(t: Tree, op: Op) {
    match op
    case Delete(_, target, revision) => HasFile(t, target, revision)
    case Edit(_, target, revision, _) => HasFile(t, target, revision)
    case Move(_, target, revision, _) => HasFile(t, target, revision)
    case Rmdir(_, target, revision) =>
      exists d :: d in t.folders && d.id == target && d.revision == revision
    case MoveFolder(_, target, revision, newPath, descendants) =>
      && var d := FolderAt(t.folders, target);
      && d.Some?
      && d.value.revision == revision
      && Vacant(t, newPath, target)
      && (forall f :: f in FilesUnder(t.files, d.value.path) ==> f.id.Some? && f.revision.Some?)
      && descendants == FilePins(FilesUnder(t.files, d.value.path)) + FolderPins(FoldersUnder(t.folders, d.value.path))
    case _ => true
  }

  // ---------------------------------------------------------------- identities

  ghost predicate DistinctFileIds(files: seq<File>) {
    forall i, j :: 0 <= i < j < |files| && files[i].id.Some? ==> files[i].id != files[j].id
  }

  ghost predicate DistinctFolderIds(folders: seq<Folder>) {
    forall i, j :: 0 <= i < j < |folders| ==> folders[i].id != folders[j].id
  }

  ghost predicate DistinctFilePaths(files: seq<File>) {
    forall i, j :: 0 <= i < j < |files| ==> files[i].path != files[j].path
  }

  ghost predicate DistinctFolderPaths(folders: seq<Folder>) {
    forall i, j :: 0 <= i < j < |folders| ==> folders[i].path != folders[j].path
  }

  ghost predicate DistinctIds(t: Tree) {
    DistinctFileIds(t.files) && DistinctFolderIds(t.folders)
  }

  ghost predicate DistinctPaths(t: Tree) {
    DistinctFilePaths(t.files) && DistinctFolderPaths(t.folders)
  }

  /** Legacy files without an identity; no operation can name them. */
  function Unidentified(files: seq<File>): seq<File> {
    if files == [] then []
    else (if files[0].id.None? then [files[0]] else []) + Unidentified(files[1..])
  }

  lemma {:induction false} UnidentifiedDrop(files: seq<File>, id: Id)
    ensures Unidentified(DropFile(files, id)) == Unidentified(files)
  {
    if files != [] {
      UnidentifiedDrop(files[1..], id);
    }
  }

  lemma {:induction false} UnidentifiedSame(a: seq<File>, b: seq<File>)
    requires |a| == |b| && forall i :: 0 <= i < |a| ==> a[i].id == b[i].id && (a[i].id.None? ==> a[i] == b[i])
    ensures Unidentified(a) == Unidentified(b)
  {
    if a != [] {
      UnidentifiedSame(a[1..], b[1..]);
    }
  }

  lemma {:induction false} UnidentifiedMembers(files: seq<File>)
    ensures forall f :: f in Unidentified(files) <==> f in files && f.id.None?
  {
    if files != [] {
      UnidentifiedMembers(files[1..]);
      assert forall f :: f in files <==> f == files[0] || f in files[1..];
    }
  }

  lemma {:induction false} DropFileMembers(files: seq<File>, id: Id)
    ensures forall f :: f in DropFile(files, id) <==> f in files && f.id != Some(id)
  {
    if files != [] {
      DropFileMembers(files[1..], id);
      assert forall f :: f in files <==> f == files[0] || f in files[1..];
    }
  }

  lemma {:induction false} DropFileIds(files: seq<File>, id: Id)
    requires DistinctFileIds(files)
    ensures DistinctFileIds(DropFile(files, id))
  {
    if files != [] {
      DropFileIds(files[1..], id);
      DropFileMembers(files[1..], id);
      var rest := DropFile(files[1..], id);
      forall f | f in rest && files[0].id.Some?
        ensures f.id != files[0].id
      {
        assert f in files[1..];
      }
    }
  }

  lemma {:induction false} DropFilePaths(files: seq<File>, id: Id)
    requires DistinctFilePaths(files)
    ensures DistinctFilePaths(DropFile(files, id))
  {
    if files != [] {
      DropFilePaths(files[1..], id);
      DropFileMembers(files[1..], id);
      var rest := DropFile(files[1..], id);
      forall f | f in rest
        ensures f.path != files[0].path
      {
        assert f in files[1..];
      }
    }
  }

  lemma {:induction false} DropFolderMembers(folders: seq<Folder>, id: Id)
    ensures forall d :: d in DropFolder(folders, id) <==> d in folders && d.id != id
  {
    if folders != [] {
      DropFolderMembers(folders[1..], id);
      assert forall d :: d in folders <==> d == folders[0] || d in folders[1..];
    }
  }

  lemma {:induction false} DropFolderIds(folders: seq<Folder>, id: Id)
    requires DistinctFolderIds(folders)
    ensures DistinctFolderIds(DropFolder(folders, id))
  {
    if folders != [] {
      DropFolderIds(folders[1..], id);
      DropFolderMembers(folders[1..], id);
      var rest := DropFolder(folders[1..], id);
      forall d | d in rest
        ensures d.id != folders[0].id
      {
        assert d in folders[1..];
      }
    }
  }

  lemma {:induction false} DropFolderPaths(folders: seq<Folder>, id: Id)
    requires DistinctFolderPaths(folders)
    ensures DistinctFolderPaths(DropFolder(folders, id))
  {
    if folders != [] {
      DropFolderPaths(folders[1..], id);
      DropFolderMembers(folders[1..], id);
      var rest := DropFolder(folders[1..], id);
      forall d | d in rest
        ensures d.path != folders[0].path
      {
        assert d in folders[1..];
      }
    }
  }

  lemma {:induction false} FilesUnderFacts(files: seq<File>, from: Path)
    ensures forall f :: f in FilesUnder(files, from) <==> f in files && Under(f.path, from)
  {
    if files != [] {
      FilesUnderFacts(files[1..], from);
      assert forall f :: f in files <==> f == files[0] || f in files[1..];
    }
  }

  lemma {:induction false} FoldersUnderFacts(folders: seq<Folder>, from: Path)
    ensures forall d :: d in FoldersUnder(folders, from) <==> d in folders && Under(d.path, from)
  {
    if folders != [] {
      FoldersUnderFacts(folders[1..], from);
      assert forall d :: d in folders <==> d == folders[0] || d in folders[1..];
    }
  }
}
