/**
 The order of versions (apps/server/src/compatibility.ts:4-18) against the
 precedence of section 11 of SemVer 2.0.0. Numbers stay below 2^53, where the
 original's arithmetic is exact.
 */
module Versions {
  datatype Version = Version(parts: seq<nat>, prerelease: seq<string>)

  ghost predicate Valid(v: Version) {
    |v.parts| == 3
  }

  predicate Digit(c: char) {
    '0' <= c <= '9'
  }

  /** `/^\d+$/` */
  predicate Numeric(id: string) {
    id != "" && forall i :: 0 <= i < |id| ==> Digit(id[i])
  }

  function Value(id: string): nat
    requires forall i :: 0 <= i < |id| ==> Digit(id[i])
  {
    if id == "" then 0
    else
      assert Digit(id[|id| - 1]);
      10 * Value(id[..|id| - 1]) + (id[|id| - 1] as int - '0' as int)
  }

  function Sign(n: int): int {
    if n < 0 then -1 else if n > 0 then 1 else 0
  }

  /** Lexical order by code unit. */
  function Lexical(x: string, y: string): (r: int)
    ensures r == -1 || r == 0 || r == 1
    ensures r == 0 <==> x == y
  {
    if x == "" && y == "" then 0
    else if x == "" then -1
    else if y == "" then 1
    else if x[0] != y[0] then (if x[0] < y[0] then -1 else 1)
    else
      assert x == [x[0]] + x[1..] && y == [y[0]] + y[1..];
      Lexical(x[1..], y[1..])
  }

  // -------------------------------------------------------------- SemVer 11

  /** Numbers by value, numbers before names, names by code unit. */
  function IdPrecedence(x: string, y: string): (r: int)
    ensures r == -1 || r == 0 || r == 1
  {
    if Numeric(x) && Numeric(y) then Sign(Value(x) - Value(y))
    else if Numeric(x) then -1
    else if Numeric(y) then 1
    else Lexical(x, y)
  }

  /** Field by field; of two lists that agree so far the longer one is higher. */
  function ListPrecedence(a: seq<string>, b: seq<string>): (r: int)
    ensures r == -1 || r == 0 || r == 1
  {
    if a == [] && b == [] then 0
    else if a == [] then -1
    else if b == [] then 1
    else if IdPrecedence(a[0], b[0]) != 0 then IdPrecedence(a[0], b[0])
    else ListPrecedence(a[1..], b[1..])
  }

  function PartsPrecedence(a: seq<nat>, b: seq<nat>): (r: int)
    requires |a| == |b|
    ensures r == -1 || r == 0 || r == 1
    ensures r == 0 <==> a == b
  {
    if a == [] then 0
    else if a[0] != b[0] then Sign(a[0] as int - b[0])
    else
      assert a == [a[0]] + a[1..] && b == [b[0]] + b[1..];
      PartsPrecedence(a[1..], b[1..])
  }

  /** A release is higher than its prereleases. */
  function Precedence(a: Version, b: Version): (r: int)
    requires |a.parts| == |b.parts|
    ensures r == -1 || r == 0 || r == 1
  {
    if PartsPrecedence(a.parts, b.parts) != 0 then PartsPrecedence(a.parts, b.parts)
    else if a.prerelease == [] && b.prerelease == [] then 0
    else if a.prerelease == [] then 1
    else if b.prerelease == [] then -1
    else ListPrecedence(a.prerelease, b.prerelease)
  }

  // ---------------------------------------------------------------- the code

  /** What the loop over the identifiers decides at its first unequal pair. */
  function Decide(x: string, y: string): int {
    if Numeric(x) && Numeric(y) then Sign(Value(x) - Value(y))
    else if Numeric(x) != Numeric(y) then (if Numeric(x) then -1 else 1)
    else if Lexical(x, y) < 0 then -1 else 1
  }

  /** The first position where the texts differ, or where the shorter list ends. */
  function Split(a: seq<string>, b: seq<string>): (i: nat)
    ensures i <= |a| && i <= |b| && a[..i] == b[..i]
    ensures i < |a| && i < |b| ==> a[i] != b[i]
  {
    if a == [] || b == [] || a[0] != b[0] then 0
    else
      var i := Split(a[1..], b[1..]) + 1;
      assert a[..i] == [a[0]] + a[1..][..i - 1] && b[..i] == [b[0]] + b[1..][..i - 1];
      assert i < |a| ==> a[i] == a[1..][i - 1];
      assert i < |b| ==> b[i] == b[1..][i - 1];
      i
  }

  function CompareLists(a: seq<string>, b: seq<string>): int {
    var i := Split(a, b);
    if i == |a| && i == |b| then 0
    else if i == |a| then -1
    else if i == |b| then 1
    else Decide(a[i], b[i])
  }

  function Compare(a: Version, b: Version): int
    requires |a.parts| == |b.parts|
  {
    if PartsPrecedence(a.parts, b.parts) != 0 then PartsPrecedence(a.parts, b.parts)
    else if a.prerelease == [] && b.prerelease == [] then 0
    else if a.prerelease == [] then 1
    else if b.prerelease == [] then -1
    else CompareLists(a.prerelease, b.prerelease)
  }

  lemma {:induction false} SplitAt(a: seq<string>, b: seq<string>, i: nat)
    requires i <= |a| && i <= |b| && a[..i] == b[..i] && (i == |a| || i == |b| || a[i] != b[i])
    ensures Split(a, b) == i
  {
    var j := Split(a, b);
    assert forall k :: 0 <= k < i ==> a[k] == a[..i][k] && b[k] == b[..i][k];
    assert forall k :: 0 <= k < j ==> a[k] == a[..j][k] && b[k] == b[..j][k];
  }

  lemma {:induction false} PartsAt(a: seq<nat>, b: seq<nat>, i: nat)
    requires |a| == |b| && i <= |a| && a[..i] == b[..i]
    ensures i < |a| && a[i] != b[i] ==> PartsPrecedence(a, b) == Sign(a[i] as int - b[i])
    ensures i == |a| ==> PartsPrecedence(a, b) == 0
  {
    if i == |a| {
      assert a == a[..i] == b[..i] == b;
    } else if i > 0 {
      assert a[0] == a[..i][0] == b[..i][0] == b[0];
      assert a[1..][..i - 1] == a[..i][1..] == b[..i][1..] == b[1..][..i - 1];
      PartsAt(a[1..], b[1..], i - 1);
    }
  }

  // ------------------------------------------------------- which one is lower

  /** Where the texts first differ, `x` ends or has the lower character. */
  ghost predicate TextBelow(x: string, y: string) {
    exists i :: 0 <= i <= |x| && i < |y| && x[..i] == y[..i] && (i == |x| || x[i] < y[i])
  }

  ghost predicate Number(id: string): (r: bool)
    ensures r <==> Numeric(id)
  {
    assert forall c: char :: Digit(c) <==> c in "0123456789";
    assert forall i :: 0 <= i < |id| ==> id[i] in id;
    id != "" && forall c :: c in id ==> c in "0123456789"
  }

  /** Numbers by value and below names, names by text. */
  ghost predicate IdBelow(x: string, y: string) {
    if Number(x) && Number(y) then Value(x) < Value(y)
    else if Number(x) || Number(y) then Number(x)
    else TextBelow(x, y)
  }

  /** The first unequal identifiers decide, or else the shorter list is lower. */
  ghost predicate ListBelow(a: seq<string>, b: seq<string>) {
    exists i :: 0 <= i <= |a| && i < |b| && a[..i] == b[..i] && (i == |a| || (a[i] != b[i] && IdBelow(a[i], b[i])))
  }

  ghost predicate PartsBelow(a: seq<nat>, b: seq<nat>) {
    exists i :: 0 <= i < |a| && i < |b| && a[..i] == b[..i] && a[i] < b[i]
  }

  /** The first unequal parts decide; with equal parts a prerelease is below its release, and else the identifiers decide. */
  ghost predicate Below(a: Version, b: Version) {
    || PartsBelow(a.parts, b.parts)
    || (a.parts == b.parts && a.prerelease != [] && (b.prerelease == [] || ListBelow(a.prerelease, b.prerelease)))
  }

  /** Below is -1, above is 1. */
  ghost predicate Orders(r: int, a: Version, b: Version) {
    (r == -1 || r == 0 || r == 1) && (r == -1 <==> Below(a, b)) && (r == 1 <==> Below(b, a))
  }

  lemma {:induction false} LexicalIs(x: string, y: string)
    ensures Lexical(x, y) == -1 <==> TextBelow(x, y)
    ensures Lexical(x, y) == 1 <==> TextBelow(y, x)
  {
    if x != "" && y != "" && x[0] == y[0] {
      LexicalIs(x[1..], y[1..]);
      TextBelowRest(x, y);
      TextBelowRest(y, x);
    } else {
      assert x[..0] == y[..0];
      assert forall i :: 0 < i <= |x| && i <= |y| && x[..i] == y[..i] ==> x[..i][0] == x[0] && y[..i][0] == y[0];
    }
  }

  lemma TextBelowRest(x: string, y: string)
    requires x != "" && y != "" && x[0] == y[0]
    ensures TextBelow(x, y) <==> TextBelow(x[1..], y[1..])
  {
    forall i | 0 < i <= |x| && i < |y|
      ensures x[..i] == y[..i] <==> x[1..][..i - 1] == y[1..][..i - 1]
    {
      assert x[..i] == [x[0]] + x[1..][..i - 1] && y[..i] == [y[0]] + y[1..][..i - 1];
    }
    if TextBelow(x, y) {
      var i :| 0 <= i <= |x| && i < |y| && x[..i] == y[..i] && (i == |x| || x[i] < y[i]);
      assert x[1..][..i - 1] == y[1..][..i - 1];
    }
    if TextBelow(x[1..], y[1..]) {
      var i :| 0 <= i <= |x[1..]| && i < |y[1..]| && x[1..][..i] == y[1..][..i] && (i == |x[1..]| || x[1..][i] < y[1..][i]);
      assert x[..i + 1] == y[..i + 1];
    }
  }

  lemma DecideBelow(x: string, y: string)
    requires x != y
    ensures Decide(x, y) == -1 <==> IdBelow(x, y)
    ensures Decide(x, y) == 1 <==> IdBelow(y, x)
  {
    LexicalIs(x, y);
  }

  /** Two lists that part at `i` part nowhere else. */
  lemma ListsPart(a: seq<string>, b: seq<string>)
    ensures var i := Split(a, b);
      ListBelow(a, b) <==> i < |b| && (i == |a| || IdBelow(a[i], b[i]))
  {
    var i := Split(a, b);
    if ListBelow(a, b) {
      var j :| 0 <= j <= |a| && j < |b| && a[..j] == b[..j] && (j == |a| || (a[j] != b[j] && IdBelow(a[j], b[j])));
      SplitAt(a, b, j);
    }
  }

  lemma ListsBelow(a: seq<string>, b: seq<string>)
    ensures CompareLists(a, b) == -1 <==> ListBelow(a, b)
    ensures CompareLists(a, b) == 1 <==> ListBelow(b, a)
  {
    var i := Split(a, b);
    SplitAt(b, a, i);
    ListsPart(a, b);
    ListsPart(b, a);
    if i < |a| && i < |b| {
      DecideBelow(a[i], b[i]);
    }
  }

  lemma {:induction false} PartsBelowIff(a: seq<nat>, b: seq<nat>)
    requires |a| == |b|
    ensures PartsPrecedence(a, b) == -1 <==> PartsBelow(a, b)
    ensures PartsPrecedence(a, b) == 1 <==> PartsBelow(b, a)
  {
    forall i | 0 <= i < |a| && a[..i] == b[..i]
      ensures a[i] < b[i] ==> PartsPrecedence(a, b) == -1
      ensures a[i] > b[i] ==> PartsPrecedence(a, b) == 1
    {
      PartsAt(a, b, i);
    }
    if a != b {
      PartsPart(a, b);
    }
  }

  lemma {:induction false} PartsPart(a: seq<nat>, b: seq<nat>)
    requires |a| == |b| && a != b
    ensures exists i :: 0 <= i < |a| && a[..i] == b[..i] && a[i] != b[i]
  {
    if a[0] == b[0] {
      assert a == [a[0]] + a[1..] && b == [b[0]] + b[1..];
      PartsPart(a[1..], b[1..]);
      var i :| 0 <= i < |a[1..]| && a[1..][..i] == b[1..][..i] && a[1..][i] != b[1..][i];
      assert a[..i + 1] == [a[0]] + a[1..][..i] && b[..i + 1] == [b[0]] + b[1..][..i];
      assert a[i + 1] != b[i + 1];
    } else {
      assert a[..0] == b[..0];
    }
  }

  lemma CompareIs(a: Version, b: Version)
    requires Valid(a) && Valid(b)
    ensures Orders(Compare(a, b), a, b)
  {
    hide TextBelow, IdBelow, ListBelow, PartsBelow, Lexical;
    PartsBelowIff(a.parts, b.parts);
    ListsBelow(a.prerelease, b.prerelease);
  }

  /** Canonical numbers are in order of length, and those of one length in order of text. */
  lemma NumberOrder(x: string, y: string)
    requires Number(x) && Number(y) && NoLeadingZero(x) && NoLeadingZero(y)
    ensures Value(x) < Value(y) <==> |x| < |y| || (|x| == |y| && TextBelow(x, y))
  {
    if |x| == |y| {
      SameLengthOrder(x, y);
    } else if |x| < |y| {
      LengthDecides(x, y);
    } else {
      LengthDecides(y, x);
    }
  }

  lemma LengthDecides(x: string, y: string)
    requires Numeric(x) && Numeric(y) && NoLeadingZero(y) && |x| < |y|
    ensures Value(x) < Value(y)
  {
    ValueBounds(x);
    ValueBounds(y);
    PowerGrows(|x|, |y| - 1);
  }

  lemma {:induction false} SameLengthOrder(x: string, y: string)
    requires |x| == |y| && forall i :: 0 <= i < |x| ==> Digit(x[i]) && Digit(y[i])
    ensures Value(x) < Value(y) <==> TextBelow(x, y)
  {
    if x != "" {
      var n := |x| - 1;
      SameLengthOrder(x[..n], y[..n]);
      if Value(x[..n]) == Value(y[..n]) {
        SameDigits(x[..n], y[..n]);
      }
      if TextBelow(x, y) {
        var i :| 0 <= i <= |x| && i < |y| && x[..i] == y[..i] && (i == |x| || x[i] < y[i]);
        assert i < n ==> x[..n][..i] == x[..i] && y[..n][..i] == y[..i];
      }
      if TextBelow(x[..n], y[..n]) {
        var i :| 0 <= i <= n && i < n && x[..n][..i] == y[..n][..i] && (i == n || x[..n][i] < y[..n][i]);
        assert x[..n][..i] == x[..i] && y[..n][..i] == y[..i];
      }
    }
  }

  /** `compareVersions` on parsed versions. */
  method CompareVersions(a: Version, b: Version) returns (r: int)
    requires Valid(a) && Valid(b)
    ensures r == Compare(a, b)
    ensures Orders(r, a, b)
    ensures NoLeadingZeros(a) && NoLeadingZeros(b) ==> r == Precedence(a, b)
  {
    r := FirstDifference(a, b);
    CompareIs(a, b);
    if NoLeadingZeros(a) && NoLeadingZeros(b) {
      CanonicalAgrees(a, b);
    }
  }

  /** Its two loops, which return at the first difference. */
  method FirstDifference(a: Version, b: Version) returns (r: int)
    requires Valid(a) && Valid(b)
    ensures r == Compare(a, b)
  {
    for index := 0 to 3
      invariant a.parts[..index] == b.parts[..index]
    {
      PartsAt(a.parts, b.parts, index);
      if a.parts[index] != b.parts[index] {
        return Sign(a.parts[index] as int - b.parts[index]);
      }
    }
    PartsAt(a.parts, b.parts, 3);
    if a.prerelease == [] && b.prerelease == [] {
      return 0;
    }
    if a.prerelease == [] {
      return 1;
    }
    if b.prerelease == [] {
      return -1;
    }
    var index := 0;
    var length := if |a.prerelease| > |b.prerelease| then |a.prerelease| else |b.prerelease|;
    while index < length
      invariant index <= |a.prerelease| && index <= |b.prerelease| && a.prerelease[..index] == b.prerelease[..index]
    {
      if index == |a.prerelease| {
        SplitAt(a.prerelease, b.prerelease, index);
        return -1;
      }
      if index == |b.prerelease| {
        SplitAt(a.prerelease, b.prerelease, index);
        return 1;
      }
      var x, y := a.prerelease[index], b.prerelease[index];
      if x != y {
        SplitAt(a.prerelease, b.prerelease, index);
        return Decide(x, y);
      }
      index := index + 1;
    }
    SplitAt(a.prerelease, b.prerelease, index);
    return 0;
  }

  // -------------------------------------------------------------- agreement

  /** Section 9 of SemVer 2.0.0: numeric identifiers have no leading zeros. */
  ghost predicate NoLeadingZero(id: string) {
    Numeric(id) && |id| > 1 ==> id[0] != '0'
  }

  ghost predicate NoLeadingZeros(v: Version) {
    forall i :: 0 <= i < |v.prerelease| ==> NoLeadingZero(v.prerelease[i])
  }

  /** The texts first differ in two numbers of one value, and what follows them differs in precedence. */
  ghost predicate Stopped(a: seq<string>, b: seq<string>) {
    var i := Split(a, b);
    && i < |a| && i < |b| && Numeric(a[i]) && Numeric(b[i]) && Value(a[i]) == Value(b[i])
    && ListPrecedence(a[i + 1..], b[i + 1..]) != 0
  }

  lemma IdReflexive(x: string)
    ensures IdPrecedence(x, x) == 0
  {
  }

  lemma {:induction false} AgreesIff(a: seq<string>, b: seq<string>)
    ensures CompareLists(a, b) == ListPrecedence(a, b) <==> !Stopped(a, b)
  {
    if a != [] && b != [] && a[0] == b[0] {
      IdReflexive(a[0]);
      AgreesIff(a[1..], b[1..]);
      var i := Split(a[1..], b[1..]);
      assert Split(a, b) == i + 1;
      if i < |a| - 1 && i < |b| - 1 {
        assert a[1..][i + 1..] == a[i + 2..] && b[1..][i + 1..] == b[i + 2..];
      }
    } else if a != [] && b != [] {
      assert Split(a, b) == 0;
      DecideIs(a[0], b[0]);
    }
  }

  lemma DecideIs(x: string, y: string)
    requires x != y
    ensures Decide(x, y) == IdPrecedence(x, y)
  {
  }

  /**
   The code follows the precedence rules exactly when the prereleases do not
   first differ in two spellings of one number with unequal rests.
   */
  lemma CompareIsPrecedenceIff(a: Version, b: Version)
    requires Valid(a) && Valid(b)
    ensures Compare(a, b) == Precedence(a, b) <==>
            !(a.parts == b.parts && a.prerelease != [] && b.prerelease != [] && Stopped(a.prerelease, b.prerelease))
  {
    AgreesIff(a.prerelease, b.prerelease);
  }

  function Power(n: nat): (p: nat)
    ensures p > 0
  {
    if n == 0 then 1 else 10 * Power(n - 1)
  }

  lemma {:induction false} ValueBounds(id: string)
    requires Numeric(id)
    ensures Value(id) < Power(|id|)
    ensures id[0] != '0' ==> Value(id) >= Power(|id| - 1)
  {
    var init := id[..|id| - 1];
    if init == "" {
      assert Value(init) == 0 && Power(1) == 10;
    } else {
      assert init[0] == id[0];
      ValueBounds(init);
    }
  }

  lemma {:induction false} PowerGrows(m: nat, n: nat)
    ensures m <= n ==> Power(m) <= Power(n)
  {
    if m < n {
      PowerGrows(m, n - 1);
    }
  }

  /** A canonical number has one spelling. */
  lemma {:induction false} ValueInjective(x: string, y: string)
    requires Numeric(x) && Numeric(y) && NoLeadingZero(x) && NoLeadingZero(y) && Value(x) == Value(y)
    ensures x == y
    decreases |x|
  {
    ValueBounds(x);
    ValueBounds(y);
    SameLength(x, y);
    SameDigits(x, y);
  }

  /** Only "0" starts with a zero, and only it has value zero. */
  lemma ZeroIsShort(x: string)
    requires Numeric(x) && NoLeadingZero(x)
    ensures |x| > 1 ==> Value(x) >= 10
  {
    ValueBounds(x);
    if |x| > 1 {
      PowerGrows(1, |x| - 1);
      assert Power(1) == 10 * Power(0);
    }
  }

  lemma SameLength(x: string, y: string)
    requires Numeric(x) && Numeric(y) && NoLeadingZero(x) && NoLeadingZero(y) && Value(x) == Value(y)
    ensures |x| == |y|
  {
    ValueBounds(x);
    ValueBounds(y);
    PowerGrows(|x|, |y| - 1);
    PowerGrows(|y|, |x| - 1);
    if |x| == 1 || |y| == 1 {
      ZeroIsShort(x);
      ZeroIsShort(y);
    }
  }

  lemma {:induction false} SameDigits(x: string, y: string)
    requires |x| == |y| && (forall i :: 0 <= i < |x| ==> Digit(x[i]) && Digit(y[i])) && Value(x) == Value(y)
    ensures x == y
  {
    if x != "" {
      var n := |x| - 1;
      SameDigits(x[..n], y[..n]);
      assert x == x[..n] + [x[n]] && y == y[..n] + [y[n]];
    }
  }

  lemma CanonicalAgrees(a: Version, b: Version)
    requires Valid(a) && Valid(b) && NoLeadingZeros(a) && NoLeadingZeros(b)
    ensures Compare(a, b) == Precedence(a, b)
  {
    CompareIsPrecedenceIff(a, b);
    var i := Split(a.prerelease, b.prerelease);
    if i < |a.prerelease| && i < |b.prerelease| && Numeric(a.prerelease[i]) && Numeric(b.prerelease[i])
       && Value(a.prerelease[i]) == Value(b.prerelease[i]) {
      ValueInjective(a.prerelease[i], b.prerelease[i]);
    }
  }

  // ---------------------------------------------------------- a total preorder

  lemma {:induction false} LexicalFlips(x: string, y: string)
    ensures Lexical(x, y) == -Lexical(y, x)
  {
    if x != "" && y != "" && x[0] == y[0] {
      LexicalFlips(x[1..], y[1..]);
    }
  }

  lemma {:induction false} LexicalTransitive(x: string, y: string, z: string)
    requires Lexical(x, y) <= 0 && Lexical(y, z) <= 0
    ensures Lexical(x, z) <= 0
  {
    if x != "" && y != "" && z != "" && x[0] == y[0] && y[0] == z[0] {
      LexicalTransitive(x[1..], y[1..], z[1..]);
    }
  }

  lemma IdFlips(x: string, y: string)
    ensures IdPrecedence(x, y) == -IdPrecedence(y, x)
  {
    LexicalFlips(x, y);
  }

  lemma IdTransitive(x: string, y: string, z: string)
    requires IdPrecedence(x, y) <= 0 && IdPrecedence(y, z) <= 0
    ensures IdPrecedence(x, z) <= 0
    ensures IdPrecedence(x, z) == 0 ==> IdPrecedence(x, y) == 0 && IdPrecedence(y, z) == 0
    ensures IdPrecedence(x, y) == 0 && IdPrecedence(y, z) == 0 ==> IdPrecedence(x, z) == 0
  {
    if !Numeric(x) && !Numeric(y) && !Numeric(z) {
      LexicalTransitive(x, y, z);
      LexicalFlips(x, y);
      if x == z {
        LexicalFlips(y, z);
      }
    }
  }

  lemma {:induction false} ListFlips(a: seq<string>, b: seq<string>)
    ensures ListPrecedence(a, b) == -ListPrecedence(b, a)
  {
    if a != [] && b != [] {
      IdFlips(a[0], b[0]);
      ListFlips(a[1..], b[1..]);
    }
  }

  lemma {:induction false} ListTransitive(a: seq<string>, b: seq<string>, c: seq<string>)
    requires ListPrecedence(a, b) <= 0 && ListPrecedence(b, c) <= 0
    ensures ListPrecedence(a, c) <= 0
  {
    if a != [] && b != [] && c != [] {
      IdTransitive(a[0], b[0], c[0]);
      if IdPrecedence(a[0], b[0]) == 0 && IdPrecedence(b[0], c[0]) == 0 {
        ListTransitive(a[1..], b[1..], c[1..]);
      }
    }
  }

  lemma {:induction false} PartsFlip(a: seq<nat>, b: seq<nat>)
    requires |a| == |b|
    ensures PartsPrecedence(a, b) == -PartsPrecedence(b, a)
  {
    if a != [] && a[0] == b[0] {
      PartsFlip(a[1..], b[1..]);
    }
  }

  lemma {:induction false} PartsTransitive(a: seq<nat>, b: seq<nat>, c: seq<nat>)
    requires |a| == |b| == |c| && PartsPrecedence(a, b) <= 0 && PartsPrecedence(b, c) <= 0
    ensures PartsPrecedence(a, c) <= 0
    ensures PartsPrecedence(a, c) == 0 ==> a == b == c
  {
    if a != [] && a[0] == b[0] && b[0] == c[0] {
      PartsTransitive(a[1..], b[1..], c[1..]);
      assert a == [a[0]] + a[1..] && b == [b[0]] + b[1..] && c == [c[0]] + c[1..];
    }
  }

  lemma PrecedenceTransitive(a: Version, b: Version, c: Version)
    requires Valid(a) && Valid(b) && Valid(c) && Precedence(a, b) <= 0 && Precedence(b, c) <= 0
    ensures Precedence(a, c) <= 0
  {
    PartsTransitive(a.parts, b.parts, c.parts);
    if a.parts == b.parts && b.parts == c.parts && a.prerelease != [] && b.prerelease != [] && c.prerelease != [] {
      ListTransitive(a.prerelease, b.prerelease, c.prerelease);
    }
  }

  /** On canonical versions the code is a total preorder. */
  lemma CanonicalOrder(a: Version, b: Version, c: Version)
    requires Valid(a) && Valid(b) && Valid(c) && NoLeadingZeros(a) && NoLeadingZeros(b) && NoLeadingZeros(c)
    ensures Compare(a, b) == -Compare(b, a)
    ensures Compare(a, b) <= 0 && Compare(b, c) <= 0 ==> Compare(a, c) <= 0
  {
    CanonicalAgrees(a, b);
    CanonicalAgrees(b, a);
    CanonicalAgrees(b, c);
    CanonicalAgrees(a, c);
    PartsFlip(a.parts, b.parts);
    ListFlips(a.prerelease, b.prerelease);
    if Precedence(a, b) <= 0 && Precedence(b, c) <= 0 {
      PrecedenceTransitive(a, b, c);
    }
  }

  /** 1.b, 01.x and 1.a: with leading zeros the code is not transitive. */
  lemma LeadingZerosBreakOrder()
    ensures var a, b, c := Version([1, 0, 0], ["1", "b"]), Version([1, 0, 0], ["01", "x"]), Version([1, 0, 0], ["1", "a"]);
      Compare(a, b) == 0 && Compare(b, c) == 0 && Compare(a, c) == 1
  {
    var a, b, c := Version([1, 0, 0], ["1", "b"]), Version([1, 0, 0], ["01", "x"]), Version([1, 0, 0], ["1", "a"]);
    PartsAt(a.parts, b.parts, 3);
    assert "1"[..0] == "" && "01"[..1] == "0" && "0"[..0] == "";
    assert Value("1") == 1 && Value("0") == 0 && Value("01") == 1;
    assert |"1"| != |"01"|;
    SplitAt(a.prerelease, b.prerelease, 0);
    SplitAt(b.prerelease, c.prerelease, 0);
    assert "b"[0] != "a"[0] && "b" != "a";
    SplitAt(a.prerelease, c.prerelease, 1);
    assert !Numeric("b") && !Numeric("a") by {
      assert !Digit("b"[0]) && !Digit("a"[0]);
    }
    assert Lexical("b", "a") == 1;
  }
}
