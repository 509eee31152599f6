/**
 What goes on around a file that somebody else may write at any time. The
 writer and the adapter are scripts: what he does at each instant, and how each
 call ends. Hashes are the bytes themselves.
 */
module Environment {
  import opened Wrappers

  type Bytes = seq<bv8>

  /** What the editor does at each instant: nothing, or leave these bytes, or none, at the path. */
  type Editor = nat -> Option<Option<Bytes>>

  /** How a call of the adapter ends, whether it took effect, whatever it reports, and what it leaves behind if not. */
  datatype Fate = Fate(end: Step, happens: bool, left: Option<Bytes>) {
    /** It did what it was called for, and says so. */
    predicate Succeeds() {
      end.Done? && happens
    }
  }

  type Adapter = nat -> Fate

  /** The editor leaves the path alone from one instant to another. */
  ghost predicate Quiet(editor: Editor, from: nat, end: nat) {
    forall n :: from <= n < end ==> editor(n).None?
  }

  function AfterEdit(edit: Option<Option<Bytes>>, live: Option<Bytes>): Option<Bytes> {
    if edit.Some? then edit.value else live
  }

  /** What the editor makes of `base` if nobody else touches the path. */
  ghost function Overlaid(editor: Editor, from: nat, end: nat, base: Option<Bytes>): Option<Bytes> {
    if end <= from then base else AfterEdit(editor(end - 1), Overlaid(editor, from, end - 1, base))
  }

  lemma {:induction false} QuietOverlay(editor: Editor, from: nat, end: nat, base: Option<Bytes>)
    requires Quiet(editor, from, end)
    ensures Overlaid(editor, from, end, base) == base
    decreases end
  {
    if end > from {
      QuietOverlay(editor, from, end - 1, base);
    }
  }

  function BytesOf(live: Option<Bytes>): set<Bytes> {
    if live.Some? then {live.value} else {}
  }

  /** He did away with these bytes at an instant since `from`. */
  ghost predicate TookSince(taken: map<nat, Bytes>, from: nat, b: Bytes) {
    exists n :: n in taken && taken[n] == b && from <= n
  }

  ghost predicate WroteBetween(editor: Editor, from: nat, end: nat, b: Bytes) {
    exists n :: from <= n < end && editor(n) == Some(Some(b))
  }

  /** What he did away with is dated by his writes. */
  ghost predicate Dated(editor: Editor, taken: map<nat, Bytes>, clock: nat) {
    forall n :: n in taken ==> n < clock && editor(n).Some?
  }

  /** Every call succeeds. */
  ghost predicate Smooth(adapter: Adapter, from: nat, end: nat) {
    forall c :: from <= c < end ==> adapter(c).Succeeds()
  }
}
