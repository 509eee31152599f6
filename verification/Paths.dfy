/** Identities and normalised vault paths. */
module Paths {
  import opened Wrappers

  /** `Minted(k)` is the k-th value the uuid source hands out; every other identity is `Given`. */
  datatype Id = Given(name: string) | Minted(serial: nat)

  /** `Scratch(id)` is the top-level name `.gib-sync-move-<uuid>`. */
  datatype Segment = Name(text: string) | Scratch(id: Id)

  /** The segments of a path; the vault root is the empty sequence. */
  type Path = seq<Segment>

  /** `path.startsWith(root + "/")` */
  predicate Under(path: Path, root: Path) {
    0 < |root| < |path| && path[..|root|] == root
  }

  function Rebase(path: Path, from: Path, to: Path): Path
    requires Under(path, from)
  {
    to + path[|from|..]
  }

  /** The path without its last segment. */
  function Parent(path: Path): Path {
    if path == [] then [] else path[..|path| - 1]
  }

  /** Nothing in the path was minted at serial `next` or later. */
  predicate OldPath(path: Path, next: nat) {
    forall i :: 0 <= i < |path| ==> path[i].Scratch? ==> OldId(path[i].id, next)
  }

  predicate OldId(id: Id, next: nat) {
    id.Minted? ==> id.serial < next
  }

  lemma RebaseInjective(p: Path, q: Path, from: Path, to: Path)
    requires Under(p, from) && Under(q, from)
    requires Rebase(p, from, to) == Rebase(q, from, to)
    ensures p == q
  {
    assert p == p[..|from|] + p[|from|..];
    assert q == q[..|from|] + q[|from|..];
    assert Rebase(p, from, to)[|to|..] == p[|from|..];
    assert Rebase(q, from, to)[|to|..] == q[|from|..];
  }

  lemma RebaseUnder(p: Path, from: Path, to: Path)
    requires Under(p, from) && to != []
    ensures Under(Rebase(p, from, to), to)
  {
  }

  lemma UnderTransitive(p: Path, q: Path, r: Path)
    requires Under(p, q) && Under(q, r)
    ensures Under(p, r)
  {
    assert p[..|r|] == p[..|q|][..|r|];
  }

  lemma RebaseOld(p: Path, from: Path, to: Path, next: nat)
    requires Under(p, from) && OldPath(p, next) && OldPath(to, next)
    ensures OldPath(Rebase(p, from, to), next)
  {
    var r := Rebase(p, from, to);
    forall i | 0 <= i < |r| && r[i].Scratch?
      ensures OldId(r[i].id, next)
    {
      if i < |to| {
        assert r[i] == to[i];
      } else {
        assert r[i] == p[|from| + i - |to|];
      }
    }
  }
}
