/**
 An interrupted commit (plugin/src/engine.ts:58-67, 813-844): the fingerprint
 it is recognised by, and the walk along the server's history that adopts it,
 drops it, or holds.
 */
module PendingCommit {
  import opened Wrappers
  import opened Versions

  /** Paths are texts with "/" between segments. */
  type Path = string

  datatype FileEntry = FileEntry(path: Path, hash: string, size: nat)

  // -------------------------------------------------------------- fingerprint

  /** A proper ancestor folder of the path. */
  predicate IsParent(p: Path, path: Path) {
    |p| < |path| && path[..|p|] == p && path[|p|] == '/'
  }

  function Parents(entries: seq<FileEntry>): (r: set<Path>)
    ensures forall p :: p in r <==> exists e :: e in entries && IsParent(p, e.path)
  {
    set e, k | e in entries && 0 <= k < |e.path| && e.path[k] == '/' :: e.path[..k]
  }

  /** Folders nobody would know of from the files. */
  function Explicit(entries: seq<FileEntry>, folders: seq<Path>): (r: set<Path>)
    ensures forall p :: p in r <==> p in folders && p !in Parents(entries)
  {
    set p | p in folders && p !in Parents(entries)
  }

  function InsertEntry(e: FileEntry, sorted: seq<FileEntry>): seq<FileEntry> {
    if sorted == [] then [e]
    else if Lexical(e.path, sorted[0].path) <= 0 then [e] + sorted
    else [sorted[0]] + InsertEntry(e, sorted[1..])
  }

  function SortEntries(entries: seq<FileEntry>): seq<FileEntry> {
    if entries == [] then [] else InsertEntry(entries[0], SortEntries(entries[1..]))
  }

  function InsertPath(p: Path, sorted: seq<Path>): seq<Path> {
    if sorted == [] then [p]
    else if Lexical(p, sorted[0]) <= 0 then [p] + sorted
    else [sorted[0]] + InsertPath(p, sorted[1..])
  }

  function SortPaths(paths: seq<Path>): seq<Path> {
    if paths == [] then [] else InsertPath(paths[0], SortPaths(paths[1..]))
  }

  /** `[...new Set(folders)].filter(...)` in the order of first occurrence. */
  function Filtered(folders: seq<Path>, parents: set<Path>): seq<Path> {
    if folders == [] then []
    else
      var init := Filtered(folders[..|folders| - 1], parents);
      var last := folders[|folders| - 1];
      if last in parents || last in init then init else init + [last]
  }

  /** What is hashed; the hash is injective. */
  datatype Fingerprint = Fingerprint(files: seq<FileEntry>, folders: seq<Path>)

  function FingerprintOf(entries: seq<FileEntry>, folders: seq<Path>): Fingerprint {
    Fingerprint(SortEntries(entries), SortPaths(Filtered(folders, Parents(entries))))
  }

  /** `commitFingerprint`, with the loops that collect the parents. */
  method CommitFingerprint(entries: seq<FileEntry>, folders: seq<Path>) returns (r: Fingerprint)
    ensures r == FingerprintOf(entries, folders)
  {
    var parents: set<Path> := {};
    for i := 0 to |entries|
      invariant parents == Parents(entries[..i])
    {
      var path := entries[i].path;
      ghost var before := parents;
      for k := 0 to |path|
        invariant forall p :: p in parents <==> p in before || (|p| < k && IsParent(p, path))
      {
        if path[k] == '/' {
          parents := parents + {path[..k]};
        }
      }
      assert forall e :: e in entries[..i + 1] <==> e in entries[..i] || e == entries[i];
      assert parents == Parents(entries[..i + 1]);
    }
    assert entries[..|entries|] == entries;
    r := Fingerprint(SortEntries(entries), SortPaths(Filtered(folders, parents)));
  }

  ghost predicate StrictEntries(s: seq<FileEntry>) {
    forall i, j :: 0 <= i < j < |s| ==> Lexical(s[i].path, s[j].path) < 0
  }

  ghost predicate StrictPaths(s: seq<Path>) {
    forall i, j :: 0 <= i < j < |s| ==> Lexical(s[i], s[j]) < 0
  }

  ghost predicate DistinctEntryPaths(s: seq<FileEntry>) {
    forall i, j :: 0 <= i < j < |s| ==> s[i].path != s[j].path
  }

  ghost predicate DistinctTexts(s: seq<Path>) {
    forall i, j :: 0 <= i < j < |s| ==> s[i] != s[j]
  }

  lemma {:induction false} InsertEntryFacts(e: FileEntry, sorted: seq<FileEntry>)
    requires StrictEntries(sorted) && forall f :: f in sorted ==> f.path != e.path
    ensures StrictEntries(InsertEntry(e, sorted)) && forall f :: f in InsertEntry(e, sorted) <==> f == e || f in sorted
  {
    if sorted != [] {
      assert forall f :: f in sorted <==> f == sorted[0] || f in sorted[1..];
      if Lexical(e.path, sorted[0].path) <= 0 {
        forall f | f in sorted
          ensures Lexical(e.path, f.path) < 0
        {
          Below(e.path, sorted[0].path, f.path);
        }
      } else {
        InsertEntryFacts(e, sorted[1..]);
        LexicalFlips(e.path, sorted[0].path);
        forall f | f in InsertEntry(e, sorted[1..])
          ensures Lexical(sorted[0].path, f.path) < 0
        {
        }
      }
    }
  }

  lemma Below(x: string, y: string, z: string)
    requires Lexical(x, y) <= 0 && (y == z || Lexical(y, z) < 0) && x != y
    ensures Lexical(x, z) < 0
  {
    LexicalTransitive(x, y, z);
    LexicalFlips(y, z);
  }

  lemma {:induction false} SortEntriesFacts(entries: seq<FileEntry>)
    requires DistinctEntryPaths(entries)
    ensures StrictEntries(SortEntries(entries)) && forall f :: f in SortEntries(entries) <==> f in entries
  {
    if entries != [] {
      SortEntriesFacts(entries[1..]);
      assert forall f :: f in entries <==> f == entries[0] || f in entries[1..];
      InsertEntryFacts(entries[0], SortEntries(entries[1..]));
    }
  }

  lemma {:induction false} InsertPathFacts(p: Path, sorted: seq<Path>)
    requires StrictPaths(sorted) && p !in sorted
    ensures StrictPaths(InsertPath(p, sorted)) && forall q :: q in InsertPath(p, sorted) <==> q == p || q in sorted
  {
    if sorted != [] {
      assert forall q :: q in sorted <==> q == sorted[0] || q in sorted[1..];
      if Lexical(p, sorted[0]) <= 0 {
        forall q | q in sorted
          ensures Lexical(p, q) < 0
        {
          Below(p, sorted[0], q);
        }
      } else {
        InsertPathFacts(p, sorted[1..]);
        LexicalFlips(p, sorted[0]);
        forall q | q in InsertPath(p, sorted[1..])
          ensures Lexical(sorted[0], q) < 0
        {
        }
      }
    }
  }

  lemma {:induction false} SortPathsFacts(paths: seq<Path>)
    requires DistinctTexts(paths)
    ensures StrictPaths(SortPaths(paths)) && forall p :: p in SortPaths(paths) <==> p in paths
  {
    if paths != [] {
      SortPathsFacts(paths[1..]);
      assert forall p :: p in paths <==> p == paths[0] || p in paths[1..];
      InsertPathFacts(paths[0], SortPaths(paths[1..]));
    }
  }

  lemma {:induction false} FilteredFacts(folders: seq<Path>, parents: set<Path>)
    ensures DistinctTexts(Filtered(folders, parents))
    ensures forall p :: p in Filtered(folders, parents) <==> p in folders && p !in parents
  {
    if folders != [] {
      FilteredFacts(folders[..|folders| - 1], parents);
      assert forall p :: p in folders <==> p == folders[|folders| - 1] || p in folders[..|folders| - 1];
    }
  }

  /** Strictly sorted lists with the same members are the same list. */
  lemma {:induction false} StrictEntriesUnique(a: seq<FileEntry>, b: seq<FileEntry>)
    requires StrictEntries(a) && StrictEntries(b) && forall f :: f in a <==> f in b
    ensures a == b
  {
    assert a != [] ==> a[0] in a;
    assert b != [] ==> b[0] in b;
    if a != [] && b != [] {
      FirstIsLeast(a, b);
      EntryTails(a, b);
      StrictEntriesUnique(a[1..], b[1..]);
      assert a == [a[0]] + a[1..] && b == [b[0]] + b[1..];
    }
  }

  lemma FirstIsLeast(a: seq<FileEntry>, b: seq<FileEntry>)
    requires a != [] && b != [] && StrictEntries(a) && StrictEntries(b) && a[0] in b && b[0] in a
    ensures a[0] == b[0]
  {
    assert forall k :: 0 < k < |a| ==> Lexical(a[0].path, a[k].path) < 0;
    assert forall k :: 0 < k < |b| ==> Lexical(b[0].path, b[k].path) < 0;
    LexicalFlips(a[0].path, b[0].path);
  }

  lemma EntryTail(a: seq<FileEntry>, f: FileEntry)
    requires a != [] && StrictEntries(a)
    ensures f in a[1..] <==> f in a && f != a[0]
  {
    if f in a[1..] {
      var k :| 0 <= k < |a[1..]| && a[1..][k] == f;
      assert Lexical(a[0].path, a[k + 1].path) < 0;
    }
  }

  lemma EntryTails(a: seq<FileEntry>, b: seq<FileEntry>)
    requires a != [] && b != [] && StrictEntries(a) && StrictEntries(b) && a[0] == b[0] && forall f :: f in a <==> f in b
    ensures forall f :: f in a[1..] <==> f in b[1..]
  {
    hide StrictEntries;
    forall f
      ensures f in a[1..] <==> f in b[1..]
    {
      EntryTail(a, f);
      EntryTail(b, f);
    }
  }

  lemma {:induction false} StrictPathsUnique(a: seq<Path>, b: seq<Path>)
    requires StrictPaths(a) && StrictPaths(b) && forall p :: p in a <==> p in b
    ensures a == b
  {
    assert a != [] ==> a[0] in a;
    assert b != [] ==> b[0] in b;
    if a != [] && b != [] {
      FirstPathIsLeast(a, b);
      PathTails(a, b);
      StrictPathsUnique(a[1..], b[1..]);
      assert a == [a[0]] + a[1..] && b == [b[0]] + b[1..];
    }
  }

  lemma FirstPathIsLeast(a: seq<Path>, b: seq<Path>)
    requires a != [] && b != [] && StrictPaths(a) && StrictPaths(b) && a[0] in b && b[0] in a
    ensures a[0] == b[0]
  {
    assert forall k :: 0 < k < |a| ==> Lexical(a[0], a[k]) < 0;
    assert forall k :: 0 < k < |b| ==> Lexical(b[0], b[k]) < 0;
    LexicalFlips(a[0], b[0]);
  }

  lemma PathTail(a: seq<Path>, p: Path)
    requires a != [] && StrictPaths(a)
    ensures p in a[1..] <==> p in a && p != a[0]
  {
    if p in a[1..] {
      var k :| 0 <= k < |a[1..]| && a[1..][k] == p;
      assert Lexical(a[0], a[k + 1]) < 0;
    }
  }

  lemma PathTails(a: seq<Path>, b: seq<Path>)
    requires a != [] && b != [] && StrictPaths(a) && StrictPaths(b) && a[0] == b[0] && forall p :: p in a <==> p in b
    ensures forall p :: p in a[1..] <==> p in b[1..]
  {
    hide StrictPaths;
    forall p
      ensures p in a[1..] <==> p in b[1..]
    {
      PathTail(a, p);
      PathTail(b, p);
    }
  }

  /**
   Two commits have one fingerprint exactly when they have the same files and
   the same folders beyond those the files imply, in whatever order and
   however often each was named.
   */
  lemma FingerprintIff(a: seq<FileEntry>, af: seq<Path>, b: seq<FileEntry>, bf: seq<Path>)
    requires DistinctEntryPaths(a) && DistinctEntryPaths(b)
    ensures FingerprintOf(a, af) == FingerprintOf(b, bf) <==>
            (forall e :: e in a <==> e in b) && Explicit(a, af) == Explicit(b, bf)
  {
    SortEntriesFacts(a);
    SortEntriesFacts(b);
    FilteredFacts(af, Parents(a));
    FilteredFacts(bf, Parents(b));
    SortPathsFacts(Filtered(af, Parents(a)));
    SortPathsFacts(Filtered(bf, Parents(b)));
    if (forall e :: e in a <==> e in b) && Explicit(a, af) == Explicit(b, bf) {
      StrictEntriesUnique(SortEntries(a), SortEntries(b));
      SamePaths(a, af, b, bf);
    }
    if FingerprintOf(a, af) == FingerprintOf(b, bf) {
      forall p
        ensures p in Explicit(a, af) <==> p in Explicit(b, bf)
      {
        assert p in Explicit(a, af) <==> p in SortPaths(Filtered(af, Parents(a)));
      }
      forall e
        ensures e in a <==> e in b
      {
        assert e in a <==> e in SortEntries(a);
      }
    }
  }

  lemma SamePaths(a: seq<FileEntry>, af: seq<Path>, b: seq<FileEntry>, bf: seq<Path>)
    requires Explicit(a, af) == Explicit(b, bf)
    ensures SortPaths(Filtered(af, Parents(a))) == SortPaths(Filtered(bf, Parents(b)))
  {
    FilteredFacts(af, Parents(a));
    FilteredFacts(bf, Parents(b));
    SortPathsFacts(Filtered(af, Parents(a)));
    SortPathsFacts(Filtered(bf, Parents(b)));
    forall p
      ensures p in SortPaths(Filtered(af, Parents(a))) <==> p in SortPaths(Filtered(bf, Parents(b)))
    {
      assert p in SortPaths(Filtered(af, Parents(a))) <==> p in Explicit(a, af);
      assert p in SortPaths(Filtered(bf, Parents(b))) <==> p in Explicit(b, bf);
    }
    StrictPathsUnique(SortPaths(Filtered(af, Parents(a))), SortPaths(Filtered(bf, Parents(b))));
  }

  // ------------------------------------------------------------------ the walk

  type Id = string

  datatype Snapshot = Snapshot(id: Id, parent: Option<Id>, device: Id, entries: seq<FileEntry>, folders: seq<Path>)

  type Store = map<Id, Snapshot>

  /** The receipt of the interrupted commit. */
  datatype Receipt = Receipt(parent: Option<Id>, fingerprint: Fingerprint)

  datatype Verdict = Adopted(id: Id) | Dropped | Held

  /** The snapshot `k` steps back from the head. */
  function Ancestor(head: Option<Snapshot>, store: Store, k: nat): Option<Snapshot> {
    if k == 0 then head
    else
      match Ancestor(head, store, k - 1)
      case None => None
      case Some(s) => if s.parent.Some? && s.parent.value in store then Some(store[s.parent.value]) else None
  }

  /** Snapshots are filed under their identity, the head included, and no history runs in a circle. */
  ghost predicate Sound(head: Option<Snapshot>, store: Store) {
    && (forall id :: id in store ==> store[id].id == id)
    && (head.Some? ==> head.value.id in store && store[head.value.id] == head.value)
    && forall i: nat, j: nat :: i < j && Ancestor(head, store, i).Some? && Ancestor(head, store, j).Some?
                                ==> Ancestor(head, store, i).value.id != Ancestor(head, store, j).value.id
  }

  /** The snapshot is the commit of the receipt. */
  predicate Matches(s: Snapshot, receipt: Receipt, device: Id) {
    s.parent == receipt.parent && s.device == device && FingerprintOf(s.entries, s.folders) == receipt.fingerprint
  }

  /** No snapshot in the whole history of the head is the commit. */
  ghost predicate Absent(head: Option<Snapshot>, store: Store, receipt: Receipt, device: Id) {
    forall k: nat :: Ancestor(head, store, k).Some? ==> !Matches(Ancestor(head, store, k).value, receipt, device)
  }

  lemma {:induction false} SomeBefore(head: Option<Snapshot>, store: Store, n: nat, k: nat)
    requires Ancestor(head, store, k).Some? && n <= k
    ensures Ancestor(head, store, n).Some?
  {
    if n < k {
      SomeBefore(head, store, n, k - 1);
    }
  }

  lemma {:induction false} AncestorStored(head: Option<Snapshot>, store: Store, k: nat)
    requires Sound(head, store) && Ancestor(head, store, k).Some?
    ensures var s := Ancestor(head, store, k).value; s.id in store && store[s.id] == s
  {
  }

  /** A snapshot is no child of one that comes before it or of itself. */
  lemma NoLaterChild(head: Option<Snapshot>, store: Store, n: nat, k: nat)
    requires Sound(head, store) && n <= k && Ancestor(head, store, n).Some? && Ancestor(head, store, k).Some?
    ensures Ancestor(head, store, k).value.parent != Some(Ancestor(head, store, n).value.id)
  {
    AncestorStored(head, store, n);
    assert Ancestor(head, store, k + 1).Some? ==> Ancestor(head, store, n).value.id != Ancestor(head, store, k + 1).value.id;
  }

  /** No two snapshots of one history have the same parent. */
  lemma OneChild(head: Option<Snapshot>, store: Store, n: nat, k: nat)
    requires Sound(head, store) && n < k && Ancestor(head, store, n).Some? && Ancestor(head, store, k).Some?
    ensures Ancestor(head, store, n).value.parent != Ancestor(head, store, k).value.parent
  {
    SomeBefore(head, store, n + 1, k);
    assert Ancestor(head, store, k + 1).Some? ==> Ancestor(head, store, n + 1).value.id != Ancestor(head, store, k + 1).value.id;
  }

  /** No snapshot before step `n` is a child of the recorded parent. */
  ghost predicate NoChildBefore(head: Option<Snapshot>, store: Store, parent: Option<Id>, n: nat) {
    forall k: nat :: k < n && Ancestor(head, store, k).Some? ==> Ancestor(head, store, k).value.parent != parent
  }

  /** Reaching the recorded parent without meeting a child of it: there is none. */
  lemma ParentReached(head: Option<Snapshot>, store: Store, receipt: Receipt, device: Id, n: nat)
    requires Sound(head, store) && Ancestor(head, store, n).Some? && receipt.parent == Some(Ancestor(head, store, n).value.id)
    requires NoChildBefore(head, store, receipt.parent, n)
    ensures Absent(head, store, receipt, device)
  {
    forall k: nat | Ancestor(head, store, k).Some?
      ensures Ancestor(head, store, k).value.parent != receipt.parent
    {
      if k >= n {
        NoLaterChild(head, store, n, k);
      }
    }
  }

  /** The one child of the recorded parent is somebody else's commit, or another one. */
  lemma OtherChild(head: Option<Snapshot>, store: Store, receipt: Receipt, device: Id, n: nat)
    requires Sound(head, store) && Ancestor(head, store, n).Some?
    requires Ancestor(head, store, n).value.parent == receipt.parent && !Matches(Ancestor(head, store, n).value, receipt, device)
    requires NoChildBefore(head, store, receipt.parent, n)
    ensures Absent(head, store, receipt, device)
  {
    forall k: nat | Ancestor(head, store, k).Some?
      ensures !Matches(Ancestor(head, store, k).value, receipt, device)
    {
      if k > n {
        OneChild(head, store, n, k);
      }
    }
  }

  /** The history ends without a child of the recorded parent. */
  lemma HistoryEnds(head: Option<Snapshot>, store: Store, receipt: Receipt, device: Id, n: nat)
    requires Ancestor(head, store, n).None? && NoChildBefore(head, store, receipt.parent, n)
    ensures Absent(head, store, receipt, device)
  {
    forall k: nat | Ancestor(head, store, k).Some?
      ensures k < n
    {
      EndsBefore(head, store, n, k);
    }
  }

  lemma {:induction false} EndsBefore(head: Option<Snapshot>, store: Store, n: nat, k: nat)
    requires Ancestor(head, store, n).None? && Ancestor(head, store, k).Some?
    ensures k < n
  {
    if 0 < k {
      EndsBefore(head, store, n, k - 1);
    }
  }

  /** Neither the recorded parent nor a child of it. */
  predicate Undecided(s: Snapshot, receipt: Receipt) {
    receipt.parent != Some(s.id) && s.parent != receipt.parent
  }

  ghost predicate UndecidedBefore(head: Option<Snapshot>, store: Store, receipt: Receipt, n: nat) {
    forall k: nat :: k < n ==> Ancestor(head, store, k).Some? && Undecided(Ancestor(head, store, k).value, receipt)
  }

  /** The walk over `n` undecided snapshots ends at a parent that is not to be had, or at the limit. */
  ghost predicate EndsOpen(head: Option<Snapshot>, store: Store, receipt: Receipt, n: nat) {
    && 0 < n <= 128 && UndecidedBefore(head, store, receipt, n)
    && var last := Ancestor(head, store, n - 1).value;
    && last.parent.Some? && (n == 128 || last.parent.value !in store)
  }

  ghost predicate Unproved(head: Option<Snapshot>, store: Store, receipt: Receipt) {
    exists n: nat :: EndsOpen(head, store, receipt, n)
  }

  ghost predicate InReach(head: Option<Snapshot>, store: Store, receipt: Receipt, device: Id) {
    exists k: nat :: k < 128 && IsMatch(head, store, receipt, device, k)
  }

  /** The head's history holds the commit of the receipt `k` steps back. */
  ghost predicate IsMatch(head: Option<Snapshot>, store: Store, receipt: Receipt, device: Id, k: nat) {
    Ancestor(head, store, k).Some? && Matches(Ancestor(head, store, k).value, receipt, device)
  }

  /** It holds it once. */
  lemma OneMatch(head: Option<Snapshot>, store: Store, receipt: Receipt, device: Id, n: nat, k: nat)
    requires Sound(head, store) && IsMatch(head, store, receipt, device, n) && IsMatch(head, store, receipt, device, k)
    ensures n == k
  {
    if n < k {
      OneChild(head, store, n, k);
    } else if k < n {
      OneChild(head, store, k, n);
    }
  }

  /** The walk comes to a decision at step `n`. */
  ghost predicate DecidedAt(head: Option<Snapshot>, store: Store, receipt: Receipt, n: nat) {
    || (n == 0 && head.None?)
    || (Ancestor(head, store, n).Some? &&
        var s := Ancestor(head, store, n).value; !Undecided(s, receipt) || s.parent.None?)
  }

  lemma DecidedCloses(head: Option<Snapshot>, store: Store, receipt: Receipt, n: nat)
    requires n < 128 && DecidedAt(head, store, receipt, n)
    ensures !Unproved(head, store, receipt)
  {
    if m: nat :| EndsOpen(head, store, receipt, m) {
      assert n < m ==> Undecided(Ancestor(head, store, n).value, receipt);
      assert n + 1 < m ==> Ancestor(head, store, n + 1).Some?;
      if m <= n {
        SomeBefore(head, store, m, n);
      }
    }
  }

  /** An open walk has not passed the commit. */
  lemma OpenMissesMatch(head: Option<Snapshot>, store: Store, receipt: Receipt, device: Id, n: nat)
    requires EndsOpen(head, store, receipt, n)
    ensures !InReach(head, store, receipt, device)
  {
    if k: nat :| k < 128 && IsMatch(head, store, receipt, device, k) {
      if k >= n {
        SomeBefore(head, store, n, k);
      }
    }
  }

  /**
   `recoverPendingCommit`. It adopts exactly the commit of the receipt, when
   that is among the 128 newest snapshots of the head's history; it drops the
   receipt only when the whole history holds no such snapshot; it holds exactly
   when neither the recorded parent nor a child of it was met before the walk
   came to a missing snapshot or to the limit.
   */
  method RecoverPendingCommit(head: Option<Snapshot>, store: Store, receipt: Receipt, device: Id) returns (v: Verdict)
    requires Sound(head, store)
    ensures v.Adopted? <==> InReach(head, store, receipt, device)
    ensures v.Adopted? ==> exists k: nat :: k < 128 && IsMatch(head, store, receipt, device, k) && Ancestor(head, store, k).value.id == v.id
    ensures v.Adopted? ==> v.id in store && store[v.id].parent == receipt.parent && store[v.id].device == device
                           && FingerprintOf(store[v.id].entries, store[v.id].folders) == receipt.fingerprint
    ensures v.Dropped? ==> forall k: nat :: Ancestor(head, store, k).Some? ==>
              var s := Ancestor(head, store, k).value;
              !(s.parent == receipt.parent && s.device == device && FingerprintOf(s.entries, s.folders) == receipt.fingerprint)
    ensures v.Adopted? ==> forall k: nat :: IsMatch(head, store, receipt, device, k) ==> Ancestor(head, store, k).value.id == v.id
    ensures v.Dropped? ==> Absent(head, store, receipt, device)
    ensures v.Held? <==> Unproved(head, store, receipt)
  {
    hide Matches, Sound, Absent, NoChildBefore;
    var cursor := head;
    var count: nat := 0;
    NoneBefore(head, store, receipt.parent);
    while count < 128
      invariant count <= 128 && cursor == Ancestor(head, store, count) && (count == 0 || cursor.Some?)
      invariant NoChildBefore(head, store, receipt.parent, count)
      invariant UndecidedBefore(head, store, receipt, count)
      invariant count > 0 ==> Ancestor(head, store, count - 1).value.parent.Some?
    {
      if cursor.Some? && receipt.parent == Some(cursor.value.id) {
        ParentReached(head, store, receipt, device, count);
        Closed(head, store, receipt, device, count);
        return Dropped;
      }
      if cursor.None? {
        HistoryEnds(head, store, receipt, device, count);
        Closed(head, store, receipt, device, count);
        return Dropped;
      }
      var s := cursor.value;
      if s.parent == receipt.parent {
        var fingerprint := CommitFingerprint(s.entries, s.folders);
        if s.device == device && fingerprint == receipt.fingerprint {
          MatchIs(s, receipt, device);
          assert IsMatch(head, store, receipt, device, count);
          forall k: nat | IsMatch(head, store, receipt, device, k)
            ensures k == count
          {
            OneMatch(head, store, receipt, device, count, k);
          }
          DecidedCloses(head, store, receipt, count);
          AncestorStored(head, store, count);
          return Adopted(s.id);
        }
        MatchIs(s, receipt, device);
        OtherChild(head, store, receipt, device, count);
        Closed(head, store, receipt, device, count);
        return Dropped;
      }
      NextAncestor(head, store, receipt.parent, count);
      if s.parent.None? {
        HistoryEnds(head, store, receipt, device, count + 1);
        Closed(head, store, receipt, device, count);
        return Dropped;
      }
      if s.parent.value !in store {
        assert EndsOpen(head, store, receipt, count + 1);
        OpenMissesMatch(head, store, receipt, device, count + 1);
        return Held;
      }
      cursor := Some(store[s.parent.value]);
      count := count + 1;
    }
    assert EndsOpen(head, store, receipt, 128);
    OpenMissesMatch(head, store, receipt, device, 128);
    v := Held;
  }

  lemma NoneBefore(head: Option<Snapshot>, store: Store, parent: Option<Id>)
    ensures NoChildBefore(head, store, parent, 0)
  {
  }

  lemma MatchIs(s: Snapshot, receipt: Receipt, device: Id)
    requires s.parent == receipt.parent
    ensures Matches(s, receipt, device) <==> s.device == device && FingerprintOf(s.entries, s.folders) == receipt.fingerprint
  {
  }

  lemma NextAncestor(head: Option<Snapshot>, store: Store, parent: Option<Id>, n: nat)
    requires Ancestor(head, store, n).Some? && NoChildBefore(head, store, parent, n)
    requires Ancestor(head, store, n).value.parent != parent
    ensures NoChildBefore(head, store, parent, n + 1)
    ensures var s := Ancestor(head, store, n).value;
      Ancestor(head, store, n + 1) == if s.parent.Some? && s.parent.value in store then Some(store[s.parent.value]) else None
  {
  }

  /** Where the receipt is dropped, nothing is left open and nothing is in reach. */
  lemma Closed(head: Option<Snapshot>, store: Store, receipt: Receipt, device: Id, n: nat)
    requires n < 128 && DecidedAt(head, store, receipt, n) && Absent(head, store, receipt, device)
    ensures !Unproved(head, store, receipt) && !InReach(head, store, receipt, device)
    ensures forall k: nat :: Ancestor(head, store, k).Some? ==>
              var s := Ancestor(head, store, k).value;
              !(s.parent == receipt.parent && s.device == device && FingerprintOf(s.entries, s.folders) == receipt.fingerprint)
  {
    DecidedCloses(head, store, receipt, n);
  }
}
