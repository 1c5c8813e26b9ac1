/**
 Version precedence of discovered runtimes, after section 11 of Semantic Versioning 2.0.0, and the
 selection loop that relies on it being a total preorder.
 */
module Versions {
  import opened Common

  // ---- text helpers ----------------------------------------------------------------------------

  predicate IsSpace(c: char) {
    var n := c as int;
    || 9 <= n <= 13 || n == 32 || n == 0x85 || n == 0xA0 || n == 0x1680 || 0x2000 <= n <= 0x200A
    || n == 0x2028 || n == 0x2029 || n == 0x202F || n == 0x205F || n == 0x3000
  }

  function DropTrailingSpace(s: string): string {
    if s != "" && IsSpace(s[|s| - 1]) then DropTrailingSpace(s[..|s| - 1]) else s
  }

  /** The longest suffix without white space. */
  function LastWord(s: string): string {
    if s == "" || IsSpace(s[|s| - 1]) then "" else LastWord(s[..|s| - 1]) + [s[|s| - 1]]
  }

  /** The last white-space separated field, empty if there is none. */
  function LastField(s: string): string { LastWord(DropTrailingSpace(s)) }

  /** The text before the first separator, the text after it, and whether there was one. */
  function Cut(s: string, separator: char): (string, string, bool) {
    if s == "" then ("", "", false)
    else if s[0] == separator then ("", s[1..], true)
    else
      var (before, after, found) := Cut(s[1..], separator);
      ([s[0]] + before, after, found)
  }

  function SplitDots(s: string): (parts: seq<string>)
    ensures |parts| >= 1
    decreases |s|
  {
    CutIsShorter(s, '.');
    var (before, after, found) := Cut(s, '.');
    if found then [before] + SplitDots(after) else [s]
  }

  lemma {:induction false} CutIsShorter(s: string, separator: char)
    ensures Cut(s, separator).2 ==> |Cut(s, separator).1| < |s|
  {
    if s != "" && s[0] != separator { CutIsShorter(s[1..], separator); }
  }

  predicate Digits(s: string) { s != "" && forall i :: 0 <= i < |s| ==> '0' <= s[i] <= '9' }

  function Decimal(s: string): nat
    requires forall i :: 0 <= i < |s| ==> '0' <= s[i] <= '9'
  {
    if s == "" then 0 else 10 * Decimal(s[..|s| - 1]) + (s[|s| - 1] as int - '0' as int)
  }

  /** A decimal 64-bit integer with an optional sign. */
  function Atoi(s: string): Option<int> {
    var negative := s != "" && s[0] == '-';
    var digits := if s != "" && (s[0] == '-' || s[0] == '+') then s[1..] else s;
    if !Digits(digits) then None else
      var n: int := if negative then 0 - Decimal(digits) else Decimal(digits);
      if -0x8000_0000_0000_0000 <= n < 0x8000_0000_0000_0000 then Some(n) else None
  }

  // ---- versions --------------------------------------------------------------------------------

  datatype Version = Invalid | Valid(core: seq<nat>, prerelease: seq<string>)

  function ParseCore(parts: seq<string>): Option<seq<nat>> {
    if parts == [] then Some([]) else
      var n := Atoi(parts[0]);
      var rest := ParseCore(parts[1..]);
      if n.None? || n.value < 0 || rest.None? then None else Some([n.value] + rest.value)
  }

  function Parse(value: string): Version {
    var field := LastField(value);
    if field == "" then Invalid else
      var bare := if field[0] == 'v' then field[1..] else field;
      var token := Cut(bare, '+').0;
      var (coreText, prereleaseText, hasPrerelease) := Cut(token, '-');
      var parts := SplitDots(coreText);
      var core := ParseCore(parts);
      if |parts| != 3 || core.None? || (hasPrerelease && prereleaseText == "") then Invalid
      else Valid(core.value, if hasPrerelease then SplitDots(prereleaseText) else [])
  }

  // ---- comparison ------------------------------------------------------------------------------

  function Sign(left: int, right: int): int { if left > right then 1 else if left < right then -1 else 0 }

  function CompareText(left: string, right: string): int {
    if left == "" || right == "" then Sign(|left|, |right|)
    else if left[0] != right[0] then Sign(left[0] as int, right[0] as int)
    else CompareText(left[1..], right[1..])
  }

  function Numeric(s: string): Option<nat> {
    var n := Atoi(s);
    if n.Some? && n.value >= 0 then Some(n.value) else None
  }

  function CompareIdentifier(left: string, right: string): int {
    var l, r := Numeric(left), Numeric(right);
    if l.Some? && r.Some? then Sign(l.value, r.value)
    else if l.Some? then -1
    else if r.Some? then 1
    else CompareText(left, right)
  }

  function CompareCore(left: seq<nat>, right: seq<nat>): int {
    if left == [] || right == [] then 0
    else if left[0] != right[0] then Sign(left[0], right[0])
    else CompareCore(left[1..], right[1..])
  }

  function CompareIdentifiers(left: seq<string>, right: seq<string>): int {
    if left == [] || right == [] then Sign(|left|, |right|)
    else if CompareIdentifier(left[0], right[0]) != 0 then CompareIdentifier(left[0], right[0])
    else CompareIdentifiers(left[1..], right[1..])
  }

  function Compare(a: Version, b: Version): int {
    if a.Invalid? || b.Invalid? then Sign(if a.Valid? then 1 else 0, if b.Valid? then 1 else 0)
    else if CompareCore(a.core, b.core) != 0 then CompareCore(a.core, b.core)
    else if a.prerelease == [] || b.prerelease == [] then Sign(|b.prerelease|, |a.prerelease|)
    else CompareIdentifiers(a.prerelease, b.prerelease)
  }

  // ---- a total preorder ---------------------------------------------------------------------------

  lemma {:induction false} TextIsOrdered(a: string, b: string, c: string)
    ensures CompareText(a, b) == -CompareText(b, a)
    ensures CompareText(a, b) <= 0 && CompareText(b, c) <= 0 ==> CompareText(a, c) <= 0
    ensures CompareText(a, b) == 0 ==> a == b
    decreases |a| + |b| + |c|
  {
    if a != "" && b != "" && a[0] == b[0] {
      if c != "" { TextIsOrdered(a[1..], b[1..], c[1..]); } else { TextIsOrdered(a[1..], b[1..], c); }
    }
  }

  lemma IdentifierIsOrdered(a: string, b: string, c: string)
    ensures CompareIdentifier(a, b) == -CompareIdentifier(b, a)
    ensures CompareIdentifier(a, b) <= 0 && CompareIdentifier(b, c) <= 0 ==> CompareIdentifier(a, c) <= 0
  {
    TextIsOrdered(a, b, c);
    TextIsOrdered(b, a, c);
  }

  lemma {:induction false} IdentifiersAreOrdered(a: seq<string>, b: seq<string>, c: seq<string>)
    ensures CompareIdentifiers(a, b) == -CompareIdentifiers(b, a)
    ensures CompareIdentifiers(a, b) <= 0 && CompareIdentifiers(b, c) <= 0 ==> CompareIdentifiers(a, c) <= 0
    decreases |a| + |b| + |c|
  {
    if a != [] && b != [] {
      IdentifierIsOrdered(a[0], b[0], a[0]);
      if c == [] {
        IdentifiersAreOrdered(a[1..], b[1..], c);
      } else {
        IdentifierIsOrdered(a[0], b[0], c[0]);
        IdentifierIsOrdered(b[0], c[0], a[0]);
        IdentifierIsOrdered(c[0], a[0], b[0]);
        IdentifiersAreOrdered(a[1..], b[1..], c[1..]);
      }
    }
  }

  lemma {:induction false} CoreIsOrdered(a: seq<nat>, b: seq<nat>, c: seq<nat>)
    requires |a| == |b| == |c|
    ensures CompareCore(a, b) == -CompareCore(b, a)
    ensures CompareCore(a, b) <= 0 && CompareCore(b, c) <= 0 ==> CompareCore(a, c) <= 0
    ensures CompareCore(a, b) == 0 ==> a == b
  {
    if a == [] {
    } else {
      CoreIsOrdered(a[1..], b[1..], c[1..]);
    }
  }

  predicate ThreePart(v: Version) { v.Valid? ==> |v.core| == 3 }

  lemma {:induction false} ParseCoreLength(parts: seq<string>)
    ensures ParseCore(parts).Some? ==> |ParseCore(parts).value| == |parts|
  {
    if parts == [] {
    } else {
      ParseCoreLength(parts[1..]);
    }
  }

  lemma ParsedIsThreePart(value: string)
    ensures ThreePart(Parse(value))
  {
    var field := LastField(value);
    if field != "" {
      var bare := if field[0] == 'v' then field[1..] else field;
      ParseCoreLength(SplitDots(Cut(Cut(bare, '+').0, '-').0));
    }
  }

  /** Sign-antisymmetric and transitive on all parsed versions, valid or not. */
  lemma VersionsAreTotallyPreordered(a: Version, b: Version, c: Version)
    requires ThreePart(a) && ThreePart(b) && ThreePart(c)
    ensures Compare(a, b) == -Compare(b, a)
    ensures Compare(a, b) <= 0 && Compare(b, c) <= 0 ==> Compare(a, c) <= 0
  {
    if a.Valid? && b.Valid? {
      CoreIsOrdered(a.core, b.core, a.core);
      IdentifiersAreOrdered(a.prerelease, b.prerelease, a.prerelease);
      if c.Valid? {
        CoreIsOrdered(a.core, b.core, c.core);
        CoreIsOrdered(b.core, c.core, a.core);
        CoreIsOrdered(a.core, c.core, b.core);
        IdentifiersAreOrdered(a.prerelease, b.prerelease, c.prerelease);
      }
    }
  }

  // ---- the published precedence rules ---------------------------------------------------------------

  /** An identifier of digits only is a number, whatever its size. */
  function StandardNumber(s: string): Option<nat> { if Digits(s) then Some(Decimal(s)) else None }

  /** Numeric identifiers by value, text identifiers in code order, numeric before text. */
  predicate IdentifierBelow(left: string, right: string) {
    match (StandardNumber(left), StandardNumber(right))
    case (Some(l), Some(r)) => l < r
    case (Some(_), None) => true
    case (None, Some(_)) => false
    case (None, None) => TextBelow(left, right)
  }

  predicate TextBelow(left: string, right: string) {
    exists k :: 0 <= k <= |left| && k < |right| && left[..k] == right[..k] && (k == |left| || left[k] < right[k])
  }

  predicate SameIdentifier(left: string, right: string) {
    left == right || (StandardNumber(left).Some? && StandardNumber(left) == StandardNumber(right))
  }

  /** Identifier by identifier; when all compared ones agree, the shorter list is below. */
  predicate PrereleaseBelow(left: seq<string>, right: seq<string>) {
    exists k :: 0 <= k <= |left| && BelowAt(left, right, k)
  }

  predicate BelowAt(left: seq<string>, right: seq<string>, k: nat) {
    && k <= |left| && k < |right|
    && (forall i :: 0 <= i < k ==> SameIdentifier(left[i], right[i]))
    && (k == |left| || IdentifierBelow(left[k], right[k]))
  }

  predicate CoreBelow(left: seq<nat>, right: seq<nat>) {
    exists k :: 0 <= k < |left| && k < |right| && left[..k] == right[..k] && left[k] < right[k]
  }

  /** Section 11: the first differing number decides, then a prerelease is below its release. */
  predicate Precedes(a: Version, b: Version)
    requires a.Valid? && b.Valid?
  {
    || CoreBelow(a.core, b.core)
    || (a.core == b.core && a.prerelease != [] && (b.prerelease == [] || PrereleaseBelow(a.prerelease, b.prerelease)))
  }

  lemma TailOfPrefix<T>(s: seq<T>, k: nat)
    requires 0 < k <= |s|
    ensures s[..k][1..] == s[1..][..k - 1]
  {
  }

  lemma {:induction false} TextComparisonIsBelow(a: string, b: string)
    ensures CompareText(a, b) < 0 <==> TextBelow(a, b)
  {
    if a == "" {
      if b != "" { assert a[..0] == b[..0]; }
    } else if b != "" {
      if a[0] == b[0] {
        TextComparisonIsBelow(a[1..], b[1..]);
        if TextBelow(a[1..], b[1..]) {
          var k :| 0 <= k <= |a[1..]| && k < |b[1..]| && a[1..][..k] == b[1..][..k] && (k == |a[1..]| || a[1..][k] < b[1..][k]);
          assert a[..k + 1] == [a[0]] + a[1..][..k] && b[..k + 1] == [b[0]] + b[1..][..k];
        }
        if TextBelow(a, b) {
          var k :| 0 <= k <= |a| && k < |b| && a[..k] == b[..k] && (k == |a| || a[k] < b[k]);
          assert k > 0;
          TailOfPrefix(a, k);
          TailOfPrefix(b, k);
        }
      } else if a[0] < b[0] {
        assert a[..0] == b[..0];
      } else {
        assert forall k :: 0 < k <= |a| && k < |b| ==> a[..k][0] == a[0] && b[..k][0] == b[0];
      }
    }
  }

  /**
   The identifiers that the integer parser and the standard read alike: a number below 2^63, or a
   text that is not a sign in front of digits the parser accepts as a non-negative number.
   */
  predicate Ordinary(s: string) {
    if Digits(s) then Decimal(s) < 0x8000_0000_0000_0000
    else !(s != "" && Digits(s[1..]) && ((s[0] == '-' && Decimal(s[1..]) == 0) ||
                                         (s[0] == '+' && Decimal(s[1..]) < 0x8000_0000_0000_0000)))
  }

  predicate AllOrdinary(parts: seq<string>) { forall i :: 0 <= i < |parts| ==> Ordinary(parts[i]) }

  lemma OrdinaryMeansReadAlike(s: string)
    ensures Ordinary(s) <==> Numeric(s) == StandardNumber(s)
  {
    if Digits(s) { assert s[0] != '-' && s[0] != '+'; }
  }

  lemma IdentifierComparisonIsBelow(a: string, b: string)
    requires Ordinary(a) && Ordinary(b)
    ensures CompareIdentifier(a, b) < 0 <==> IdentifierBelow(a, b)
    ensures CompareIdentifier(a, b) == 0 <==> SameIdentifier(a, b)
  {
    OrdinaryMeansReadAlike(a);
    OrdinaryMeansReadAlike(b);
    TextComparisonIsBelow(a, b);
    TextIsOrdered(a, b, a);
    if a == b { TextIsOrdered(a, a, a); }
  }

  lemma BelowAtTail(a: seq<string>, b: seq<string>, k: nat)
    requires a != [] && b != [] && SameIdentifier(a[0], b[0])
    ensures BelowAt(a, b, k + 1) <==> BelowAt(a[1..], b[1..], k)
  {
    assert forall i :: 0 <= i < |a| - 1 ==> a[1..][i] == a[i + 1];
    assert forall i :: 0 <= i < |b| - 1 ==> b[1..][i] == b[i + 1];
  }

  lemma {:induction false} PrereleaseComparisonIsBelow(a: seq<string>, b: seq<string>)
    requires AllOrdinary(a) && AllOrdinary(b)
    ensures CompareIdentifiers(a, b) < 0 <==> PrereleaseBelow(a, b)
  {
    if a != [] && b != [] {
      IdentifierComparisonIsBelow(a[0], b[0]);
      assert BelowAt(a, b, 0) <==> IdentifierBelow(a[0], b[0]);
      if SameIdentifier(a[0], b[0]) {
        PrereleaseComparisonIsBelow(a[1..], b[1..]);
        if PrereleaseBelow(a[1..], b[1..]) {
          var k :| 0 <= k <= |a[1..]| && BelowAt(a[1..], b[1..], k);
          BelowAtTail(a, b, k);
        }
        if PrereleaseBelow(a, b) {
          var k :| 0 <= k <= |a| && BelowAt(a, b, k);
          BelowAtTail(a, b, k - 1);
        }
      }
    } else {
      assert a == [] && b != [] ==> BelowAt(a, b, 0);
    }
  }

  lemma {:induction false} CoreComparisonIsBelow(a: seq<nat>, b: seq<nat>)
    requires |a| == |b|
    ensures CompareCore(a, b) < 0 <==> CoreBelow(a, b)
  {
    if a == [] {
    } else {
      if a[0] == b[0] {
        CoreComparisonIsBelow(a[1..], b[1..]);
        if CoreBelow(a[1..], b[1..]) {
          var k :| 0 <= k < |a[1..]| && a[1..][..k] == b[1..][..k] && a[1..][k] < b[1..][k];
          assert a[..k + 1] == [a[0]] + a[1..][..k] && b[..k + 1] == [b[0]] + b[1..][..k];
        }
        if CoreBelow(a, b) {
          var k :| 0 <= k < |a| && a[..k] == b[..k] && a[k] < b[k];
          assert k > 0;
          TailOfPrefix(a, k);
          TailOfPrefix(b, k);
        }
      } else if a[0] < b[0] {
        assert a[..0] == b[..0];
      } else {
        assert forall k :: 0 < k < |a| ==> a[..k][0] == a[0] && b[..k][0] == b[0];
      }
    }
  }

  /** On ordinary identifiers the comparison is the published precedence. */
  lemma ComparisonIsSemVerPrecedence(a: Version, b: Version)
    requires ThreePart(a) && ThreePart(b) && a.Valid? && b.Valid?
    requires AllOrdinary(a.prerelease) && AllOrdinary(b.prerelease)
    ensures Compare(a, b) < 0 <==> Precedes(a, b)
    ensures Compare(a, b) > 0 <==> Precedes(b, a)
  {
    CoreIsOrdered(a.core, b.core, a.core);
    CoreIsOrdered(b.core, a.core, a.core);
    CoreComparisonIsBelow(a.core, b.core);
    CoreComparisonIsBelow(b.core, a.core);
    PrereleaseComparisonIsBelow(a.prerelease, b.prerelease);
    PrereleaseComparisonIsBelow(b.prerelease, a.prerelease);
    VersionsAreTotallyPreordered(a, b, a);
  }

  // ---- where the comparison departs from the standard ---------------------------------------------

  lemma {:induction false} CompareCoreSame(core: seq<nat>)
    ensures CompareCore(core, core) == 0
  {
    if core == [] {
      assert CompareCore(core, core) == 0;
    } else {
      CompareCoreSame(core[1..]);
    }
  }

  /** Versions that differ in one identifier are compared by it. */
  lemma CompareSingles(core: seq<nat>, s: string, t: string)
    ensures Compare(Valid(core, [s]), Valid(core, [t])) == CompareIdentifier(s, t)
    ensures IdentifierBelow(s, t) ==> Precedes(Valid(core, [s]), Valid(core, [t]))
  {
    CompareCoreSame(core);
    var none: seq<string> := [];
    assert [s][1..] == none && [t][1..] == none && CompareIdentifiers(none, none) == 0;
    assert CompareIdentifiers([s], [t]) == CompareIdentifier(s, t);
    if IdentifierBelow(s, t) { assert BelowAt([s], [t], 0); }
  }

  /**
   Every other identifier has an ordinary partner which the standard puts strictly on one side of
   it and the comparison does not. So the ordinary identifiers are exactly the safe ones.
   */
  lemma UnusualIdentifierIsMisordered(core: seq<nat>, s: string) returns (t: string)
    requires !Ordinary(s)
    ensures Ordinary(t)
    ensures var a, b := Valid(core, [s]), Valid(core, [t]);
            (Precedes(a, b) && Compare(a, b) >= 0) || (Precedes(b, a) && Compare(a, b) <= 0)
  {
    if Digits(s) {
      t := "-";
      assert s[0] >= '0' > '-';
      assert IdentifierBelow(s, t) && CompareText(s, t) == 1;
      CompareSingles(core, s, t);
    } else {
      t := s[1..];
      assert Numeric(t) == Numeric(s) && Numeric(t).Some?;
      assert IdentifierBelow(t, s);
      CompareSingles(core, s, t);
      CompareSingles(core, t, s);
    }
  }

  /** Two numbers beyond 63 bits, the larger with the smaller first digit, are put in the wrong order. */
  lemma LongNumbersAreMisordered(core: seq<nat>, s: string, t: string)
    requires Digits(s) && Digits(t) && s[0] < t[0] && Decimal(s) > Decimal(t) >= 0x8000_0000_0000_0000
    ensures var a, b := Valid(core, [s]), Valid(core, [t]);
            Precedes(b, a) && !Precedes(a, b) && Compare(a, b) < 0
  {
    CompareSingles(core, s, t);
    CompareSingles(core, t, s);
    assert !Ordinary(s) && !Ordinary(t) && Numeric(s).None? && Numeric(t).None?;
    assert forall k :: BelowAt([s], [t], k) ==> k == 0;
    assert !CoreBelow(core, core);
  }

  /** Such a pair: ten to the nineteenth, and the number before it. */
  lemma LongNumbersExist() returns (s: string, t: string)
    ensures s == "10000000000000000000" && t == "9999999999999999999"
    ensures Digits(s) && Digits(t) && s[0] < t[0] && Decimal(s) > Decimal(t) >= 0x8000_0000_0000_0000
  {
    s, t := "1" + Repeat('0', 19), Repeat('9', 19);
    ZerosAndNines(19);
    assert Repeat('0', 19) == "0000000000000000000";
    assert Repeat('9', 19) == "9999999999999999999";
    assert Pow10(5) == 100000;
    assert Pow10(10) == 10000000000;
    assert Pow10(15) == 1000000000000000;
    assert Pow10(19) == 10000000000000000000;
  }

  function Repeat(c: char, n: nat): (s: string)
    ensures |s| == n && forall i :: 0 <= i < n ==> s[i] == c
  {
    if n == 0 then "" else Repeat(c, n - 1) + [c]
  }

  function Pow10(n: nat): nat { if n == 0 then 1 else 10 * Pow10(n - 1) }

  lemma {:induction false} ZerosAndNines(n: nat)
    ensures Decimal("1" + Repeat('0', n)) == Pow10(n) && Decimal(Repeat('9', n)) == Pow10(n) - 1
  {
    if n == 0 {
      assert "1" + Repeat('0', 0) == "1" && "1"[..0] == "";
      assert Decimal("1") == 1 && Decimal("") == 0;
    } else {
      ZerosAndNines(n - 1);
      var s, t := "1" + Repeat('0', n), Repeat('9', n);
      assert s[..|s| - 1] == "1" + Repeat('0', n - 1) && s[|s| - 1] == '0';
      assert t[..|t| - 1] == Repeat('9', n - 1) && t[|t| - 1] == '9';
    }
  }
}
