/**
 * Release versions: the accepted grammar, precedence as sections 9 and 11 of
 * Semantic Versioning 2.0.0 define it, and the automatic bump. Numbers are
 * unbounded.
 */
module Semver {
  import opened Prelude
  import opened Pieces
  import Text

  // ----- strings -----

  predicate IsDigit(c: char) { '0' <= c <= '9' }
  predicate IsIdentChar(c: char) { IsDigit(c) || 'A' <= c <= 'Z' || 'a' <= c <= 'z' || c == '-' }

  predicate AllDigits(s: string) { s != "" && forall i | 0 <= i < |s| :: IsDigit(s[i]) }

  function DigitValue(c: char): nat
    requires IsDigit(c)
  {
    c as int - '0' as int
  }

  /** The number a digit string spells. */
  function Value(s: string): nat
    requires forall i | 0 <= i < |s| :: IsDigit(s[i])
  {
    if s == "" then 0 else 10 * Value(s[..|s| - 1]) + DigitValue(s[|s| - 1])
  }

  function LeadingDigits(s: string): (d: string)
    ensures d <= s && forall i | 0 <= i < |d| :: IsDigit(d[i])
  {
    if s != "" && IsDigit(s[0]) then [s[0]] + LeadingDigits(s[1..]) else ""
  }

  /** `parseInt(s, 10)`: leading white text, one sign, then the leading digits; None is NaN. */
  function ParseInt(s: string): Option<int> {
    var t := Text.TrimStart(s);
    var digits := LeadingDigits(if t != "" && t[0] in {'+', '-'} then t[1..] else t);
    var n: int := Value(digits);
    if digits == "" then None else Some(if t[0] == '-' then -n else n)
  }

  // ----- grammar -----

  predicate NumericIdent(s: string) { AllDigits(s) && (|s| == 1 || s[0] != '0') }
  predicate AlphaIdent(s: string) {
    (forall i | 0 <= i < |s| :: IsIdentChar(s[i])) && exists i :: 0 <= i < |s| && !IsDigit(s[i])
  }
  predicate Ident(s: string) { NumericIdent(s) || AlphaIdent(s) }

  function IndexOfDash(s: string): (at: int)
    ensures -1 <= at < |s|
    ensures at >= 0 ==> s[at] == '-' && '-' !in s[..at]
    ensures at == -1 <==> '-' !in s
  {
    if s == "" then -1
    else if s[0] == '-' then 0
    else
      var at := IndexOfDash(s[1..]);
      assert at >= 0 ==> s[..at + 1] == [s[0]] + s[1..][..at];
      if at == -1 then -1 else at + 1
  }

  function SplitVersion(v: string): (string, Option<string>) {
    var dash := IndexOfDash(v);
    if dash == -1 then (v, None) else (v[..dash], Some(v[dash + 1..]))
  }

  function Core(v: string): seq<string> { Split(SplitVersion(v).0, '.') }

  predicate IdentsOnly(pre: Option<string>) { pre.Some? ==> forall id | id in Split(pre.value, '.') :: Ident(id) }

  /** Exactly the strings `RELEASE_VERSION_RE` accepts. */
  predicate ReleaseVersion(v: string) {
    && |Core(v)| == 3 && (forall p | p in Core(v) :: AllDigits(p))
    && IdentsOnly(SplitVersion(v).1)
  }

  predicate IsPrerelease(v: string) { '-' in v }

  // ----- precedence -----

  function CompareText(a: string, b: string): int {
    if a == "" then (if b == "" then 0 else -1)
    else if b == "" then 1
    else if a[0] < b[0] then -1
    else if b[0] < a[0] then 1
    else CompareText(a[1..], b[1..])
  }

  /** Numeric identifiers numerically and below alphanumeric ones, those by code unit. */
  function CompareIdentifier(a: string, b: string): int {
    if AllDigits(a) && AllDigits(b) then
      if Value(a) < Value(b) then -1 else if Value(a) > Value(b) then 1 else 0
    else if AllDigits(a) then -1
    else if AllDigits(b) then 1
    else CompareText(a, b)
  }

  function CompareIdentifiers(a: seq<string>, b: seq<string>): int {
    if a == [] || b == [] then |a| - |b|
    else
      var d := CompareIdentifier(a[0], b[0]);
      if d != 0 then d else CompareIdentifiers(a[1..], b[1..])
  }

  /** No prerelease outranks any prerelease of the same core. */
  function PrereleaseOrder(a: Option<string>, b: Option<string>): int {
    if a.None? && b.None? then 0
    else if a.None? then 1
    else if b.None? then -1
    else CompareIdentifiers(Split(a.value, '.'), Split(b.value, '.'))
  }

  /** `parts[i] ?? 0`, each part read as a number. */
  function Number(parts: seq<string>, i: nat): Option<int> { if i < |parts| then ParseInt(parts[i]) else Some(0) }

  /** Comparing reads a part that is no number as zero. */
  function Part(parts: seq<string>, i: nat): int { Number(parts, i).GetOr(0) }

  /** The first differing number decides, from position `i` on. */
  function CoreOrder(a: seq<string>, b: seq<string>, i: nat): int
    decreases 3 - i
  {
    if i >= 3 then 0
    else if Part(a, i) != Part(b, i) then Part(a, i) - Part(b, i)
    else CoreOrder(a, b, i + 1)
  }

  method CompareCore(a: string, b: string) returns (order: int)
    ensures order == CoreOrder(Split(a, '.'), Split(b, '.'), 0)
  {
    var pa, pb := Split(a, '.'), Split(b, '.');
    for i := 0 to 3
      invariant CoreOrder(pa, pb, 0) == CoreOrder(pa, pb, i)
    {
      var d := Part(pa, i) - Part(pb, i);
      if d != 0 { return d; }
    }
    return 0;
  }

  method ComparePrerelease(a: Option<string>, b: Option<string>) returns (order: int)
    ensures order == PrereleaseOrder(a, b)
  {
    if a.None? && b.None? { return 0; }
    if a.None? { return 1; }
    if b.None? { return -1; }
    var ia, ib := Split(a.value, '.'), Split(b.value, '.');
    var n := if |ia| < |ib| then |ia| else |ib|;
    assert ia[0..] == ia && ib[0..] == ib;
    for i := 0 to n
      invariant CompareIdentifiers(ia, ib) == CompareIdentifiers(ia[i..], ib[i..])
    {
      var d := CompareIdentifier(ia[i], ib[i]);
      if d != 0 { return d; }
      assert ia[i..][1..] == ia[i + 1..] && ib[i..][1..] == ib[i + 1..];
    }
    return |ia| - |ib|;
  }

  function CompareSemver(a: string, b: string): int {
    var core := CoreOrder(Core(a), Core(b), 0);
    if core != 0 then core else PrereleaseOrder(SplitVersion(a).1, SplitVersion(b).1)
  }

  // ----- the order on identifiers -----

  lemma {:induction false} TextOrder(a: string, b: string, c: string)
    ensures CompareText(a, b) == -CompareText(b, a)
    ensures CompareText(a, b) == 0 <==> a == b
    ensures CompareText(a, b) <= 0 && CompareText(b, c) <= 0 ==> CompareText(a, c) <= 0
  {
    if a != "" && b != "" {
      TextOrder(a[1..], b[1..], if c == "" then "" else c[1..]);
      assert a == [a[0]] + a[1..] && b == [b[0]] + b[1..];
    }
  }

  function Pow10(n: nat): nat { if n == 0 then 1 else 10 * Pow10(n - 1) }

  /** A digit string without leading zero has as many digits as its value needs. */
  lemma {:induction false} ValueBounds(s: string)
    requires forall i | 0 <= i < |s| :: IsDigit(s[i])
    ensures Value(s) < Pow10(|s|)
    ensures s != "" && s[0] != '0' ==> Pow10(|s| - 1) <= Value(s)
  {
    if s != "" {
      ValueBounds(s[..|s| - 1]);
    }
  }

  lemma {:induction false} PowMonotone(m: nat, n: nat)
    requires m <= n
    ensures Pow10(m) <= Pow10(n)
  {
    if m < n {
      PowMonotone(m, n - 1);
    }
  }

  lemma LastDigit(x: int, d: int, y: int, e: int)
    requires 0 <= d < 10 && 0 <= e < 10 && 10 * x + d == 10 * y + e
    ensures x == y && d == e
  {
  }

  lemma {:induction false} SameLengthSameValue(a: string, b: string)
    requires |a| == |b| && (forall i | 0 <= i < |a| :: IsDigit(a[i]) && IsDigit(b[i])) && Value(a) == Value(b)
    ensures a == b
  {
    if a != "" {
      var n := |a| - 1;
      LastDigit(Value(a[..n]), DigitValue(a[n]), Value(b[..n]), DigitValue(b[n]));
      SameLengthSameValue(a[..n], b[..n]);
      assert a == a[..n] + [a[n]] && b == b[..n] + [b[n]];
    }
  }

  lemma ShorterIsSmaller(a: string, b: string)
    requires AllDigits(a) && AllDigits(b) && b[0] != '0' && |a| < |b|
    ensures Value(a) < Value(b)
  {
  }

  /** Canonical decimals are injective: one number, one spelling. */
  lemma CanonicalDecimal(a: string, b: string)
    requires NumericIdent(a) && NumericIdent(b) && Value(a) == Value(b)
    ensures a == b
  {
    if |a| < |b| {
      ShorterIsSmaller(a, b);
    } else if |b| < |a| {
      ShorterIsSmaller(b, a);
    }
    SameLengthSameValue(a, b);
  }

  lemma IdentifierOrder(a: string, b: string, c: string)
    ensures CompareIdentifier(a, b) == -CompareIdentifier(b, a)
    ensures CompareIdentifier(a, b) <= 0 && CompareIdentifier(b, c) <= 0 ==> CompareIdentifier(a, c) <= 0
    ensures CompareIdentifier(a, b) == 0 ==> CompareIdentifier(a, c) == CompareIdentifier(b, c)
    ensures Ident(a) && Ident(b) ==> (CompareIdentifier(a, b) == 0 <==> a == b)
  {
    TextOrder(a, b, c);
    TextOrder(b, a, c);
    if NumericIdent(a) && NumericIdent(b) && Value(a) == Value(b) {
      CanonicalDecimal(a, b);
    }
  }

  lemma {:induction false} IdentifiersOrder(a: seq<string>, b: seq<string>, c: seq<string>)
    ensures CompareIdentifiers(a, b) == -CompareIdentifiers(b, a)
    ensures CompareIdentifiers(a, b) <= 0 && CompareIdentifiers(b, c) <= 0 ==> CompareIdentifiers(a, c) <= 0
    ensures (forall id | id in a :: Ident(id)) && (forall id | id in b :: Ident(id)) ==>
              (CompareIdentifiers(a, b) == 0 <==> a == b)
  {
    if a != [] && b != [] {
      IdentifiersOrder(a[1..], b[1..], if c == [] then [] else c[1..]);
      IdentifierOrder(a[0], b[0], if c == [] then "" else c[0]);
      IdentifierOrder(b[0], a[0], if c == [] then "" else c[0]);
      if c != [] { IdentifierOrder(b[0], c[0], a[0]); IdentifierOrder(a[0], c[0], b[0]); }
      assert a == [a[0]] + a[1..] && b == [b[0]] + b[1..];
    }
  }

  lemma PrereleaseTotal(a: Option<string>, b: Option<string>, c: Option<string>)
    ensures PrereleaseOrder(a, b) == -PrereleaseOrder(b, a)
    ensures PrereleaseOrder(a, b) <= 0 && PrereleaseOrder(b, c) <= 0 ==> PrereleaseOrder(a, c) <= 0
  {
    if a.Some? && b.Some? {
      IdentifiersOrder(Split(a.value, '.'), Split(b.value, '.'), if c.Some? then Split(c.value, '.') else []);
    }
  }

  // ----- the order on versions -----

  /** Exactly antisymmetric and transitive, on all strings. */
  lemma SemverTotalPreorder(a: string, b: string, c: string)
    ensures CompareSemver(a, b) == -CompareSemver(b, a)
    ensures CompareSemver(a, b) <= 0 && CompareSemver(b, c) <= 0 ==> CompareSemver(a, c) <= 0
  {
    hide SplitVersion, Core, PrereleaseOrder, ParseInt;
    PrereleaseTotal(SplitVersion(a).1, SplitVersion(b).1, SplitVersion(c).1);
  }

  predicate SameCore(a: string, b: string) { forall i | 0 <= i < 3 :: Part(Core(a), i) == Part(Core(b), i) }

  /** On release versions, equal precedence means equal core numbers and the very same prerelease text. */
  lemma SemverZero(a: string, b: string)
    requires ReleaseVersion(a) && ReleaseVersion(b)
    ensures CompareSemver(a, b) == 0 <==> SameCore(a, b) && SplitVersion(a).1 == SplitVersion(b).1
  {
    hide SplitVersion, Core, PrereleaseOrder, Part, Ident;
    SameCoreIsZero(a, b);
    PrereleaseZero(SplitVersion(a).1, SplitVersion(b).1);
  }

  lemma SameCoreIsZero(a: string, b: string)
    ensures SameCore(a, b) <==> CoreOrder(Core(a), Core(b), 0) == 0
  {
    hide Core, Part;
  }

  lemma PrereleaseZero(a: Option<string>, b: Option<string>)
    requires IdentsOnly(a) && IdentsOnly(b)
    ensures PrereleaseOrder(a, b) == 0 <==> a == b
  {
    hide Ident, CompareIdentifiers;
    if a.Some? && b.Some? {
      IdentifiersOrder(Split(a.value, '.'), Split(b.value, '.'), []);
      JoinSplit(a.value, '.');
      JoinSplit(b.value, '.');
    }
  }
}
