/** The automatic bump: always the least stable version of its kind above the current one. */
module VersionBump {
  import opened Prelude
  import opened Semver
  import opened Pieces

  datatype Bump = Patch | Minor

  function Digit(n: nat): char
    requires n < 10
  {
    ('0' as int + n) as char
  }

  function Decimal(n: nat): string {
    if n < 10 then [Digit(n)] else Decimal(n / 10) + [Digit(n % 10)]
  }

  /** A number as a template literal writes it. */
  function Written(n: Option<int>): string {
    if n.None? then "NaN" else if n.value < 0 then "-" + Decimal(-n.value) else Decimal(n.value)
  }

  function Next(n: Option<int>): Option<int> { if n.None? then None else Some(n.value + 1) }

  function Render(major: Option<int>, minor: Option<int>, patch: Option<int>): string {
    Written(major) + "." + (Written(minor) + "." + Written(patch))
  }

  /** The numbers are read off the whole version text, so a prerelease patch is the digits before its dash. */
  function BumpVersion(v: string, kind: Bump): string {
    var parts := Split(v, '.');
    var major, minor, patch := Number(parts, 0), Number(parts, 1), Number(parts, 2);
    if IsPrerelease(v) then
      if kind.Minor? then Render(major, Next(minor), Some(0)) else Render(major, minor, patch)
    else if kind.Minor? then Render(major, Next(minor), Some(0))
    else Render(major, minor, Next(patch))
  }

  // ----- decimal text -----

  lemma {:induction false} DecimalValue(n: nat)
    ensures NumericIdent(Decimal(n)) && Value(Decimal(n)) == n
    ensures n > 0 ==> Decimal(n)[0] != '0'
  {
    if n >= 10 {
      DecimalValue(n / 10);
      assert Decimal(n)[..|Decimal(n)| - 1] == Decimal(n / 10);
    }
  }

  lemma {:induction false} DigitsParse(s: string, after: string)
    requires forall i | 0 <= i < |s| :: IsDigit(s[i])
    requires after != "" ==> !IsDigit(after[0])
    ensures LeadingDigits(s + after) == s
  {
    if s == "" {
      assert s + after == after;
    } else {
      assert (s + after)[1..] == s[1..] + after;
      DigitsParse(s[1..], after);
    }
  }

  lemma ParseDigits(s: string, after: string)
    requires AllDigits(s) && (after != "" ==> !IsDigit(after[0]))
    ensures ParseInt(s + after) == Some(Value(s))
  {
    DigitsParse(s, after);
    assert (s + after)[0] == s[0];
  }

  lemma DigitsPlain(s: string)
    requires AllDigits(s)
    ensures '.' !in s && '-' !in s
  {
  }

  lemma RenderedCore(a: string, b: string, c: string)
    requires AllDigits(a) && AllDigits(b) && AllDigits(c)
    ensures var r := a + "." + b + "." + c; '-' !in r && Split(r, '.') == [a, b, c]
  {
    DigitsPlain(a);
    DigitsPlain(b);
    DigitsPlain(c);
    SplitFirst(a, b + "." + c, '.');
    SplitFirst(b, c, '.');
    SplitPlain(c, '.');
    assert a + "." + b + "." + c == a + "." + (b + "." + c);
  }

  lemma NoDash(r: string)
    requires '-' !in r
    ensures SplitVersion(r) == (r, None)
  {
  }

  function Numbers(v: string): (int, int, int) { (Part(Core(v), 0), Part(Core(v), 1), Part(Core(v), 2)) }

  lemma CoreNumber(v: string, i: nat)
    requires ReleaseVersion(v) && i < 3
    ensures AllDigits(Core(v)[i]) && Number(Core(v), i) == Some(Value(Core(v)[i]))
  {
    hide SplitVersion, Split;
    var part := Core(v)[i];
    assert part in Core(v);
    ParseDigits(part, "");
    assert part + "" == part;
  }

  /** A release version spells its three numbers. */
  lemma CoreNumbers(v: string)
    requires ReleaseVersion(v)
    ensures forall i | 0 <= i < 3 :: Number(Core(v), i).Some? && Number(Core(v), i).value >= 0
  {
    hide *;
    forall i | 0 <= i < 3
      ensures Number(Core(v), i).Some? && Number(Core(v), i).value >= 0
    {
      CoreNumber(v, i);
    }
  }

  /** A rendered version is stable, valid, and carries exactly its numbers. */
  lemma RenderedVersion(major: nat, minor: nat, patch: nat)
    ensures var r := Render(Some(major), Some(minor), Some(patch));
            ReleaseVersion(r) && !IsPrerelease(r) && Numbers(r) == (major, minor, patch)
  {
    hide Decimal, IndexOfDash, ParseInt;
    var a, b, c := Decimal(major), Decimal(minor), Decimal(patch);
    DecimalValue(major);
    DecimalValue(minor);
    DecimalValue(patch);
    RenderedCore(a, b, c);
    var r := Render(Some(major), Some(minor), Some(patch));
    assert r == a + "." + b + "." + c;
    NoDash(r);
    assert Core(r) == Split(SplitVersion(r).0, '.') == [a, b, c];
    RenderedNumbers(r, [major, minor, patch]);
  }

  lemma RenderedNumbers(r: string, ns: seq<nat>)
    requires ReleaseVersion(r) && |ns| == 3 && forall i | 0 <= i < 3 :: Core(r)[i] == Decimal(ns[i])
    ensures Numbers(r) == (ns[0], ns[1], ns[2])
  {
    hide Decimal, ReleaseVersion, SplitVersion, ParseInt;
    CoreNumber(r, 0);
    CoreNumber(r, 1);
    CoreNumber(r, 2);
    DecimalValue(ns[0]);
    DecimalValue(ns[1]);
    DecimalValue(ns[2]);
  }

  /** Reading the numbers off the whole text agrees with reading them off the core. */
  lemma WholeTextNumbers(v: string)
    requires ReleaseVersion(v)
    ensures forall i | 0 <= i < 3 :: Number(Split(v, '.'), i) == Number(Core(v), i)
  {
    hide ParseInt, ReleaseVersion, Ident;
    var dash := IndexOfDash(v);
    if dash >= 0 {
      var core, tail := v[..dash], v[dash..];
      assert v == core + tail && tail[0] == '-';
      ThreeParts(v);
      SplitConcat(core, tail, '.');
      DashLeads(tail);
      CoreNumber(v, 2);
      ParseDigits(Core(v)[2], Split(tail, '.')[0]);
    }
  }

  lemma ThreeParts(v: string)
    requires ReleaseVersion(v)
    ensures |Core(v)| == 3
  {
  }

  lemma DashLeads(tail: string)
    requires tail != "" && tail[0] == '-'
    ensures Split(tail, '.')[0] != "" && Split(tail, '.')[0][0] == '-'
  {
  }

  // ----- minimality -----

  /** Lexicographic order on the three numbers. */
  predicate Below(a: (int, int, int), b: (int, int, int)) {
    a.0 < b.0 || (a.0 == b.0 && (a.1 < b.1 || (a.1 == b.1 && a.2 < b.2)))
  }

  lemma StableOrder(a: string, b: string)
    requires !IsPrerelease(a)
    ensures CompareSemver(a, b) > 0 <==> Below(Numbers(b), Numbers(a)) || (Numbers(a) == Numbers(b) && IsPrerelease(b))
    ensures !IsPrerelease(b) ==> (CompareSemver(a, b) <= 0 <==> !Below(Numbers(b), Numbers(a)))
  {
  }

  /** The patch bump is the least stable version above `v`, for stable and prerelease `v` alike. */
  lemma PatchBumpIsLeast(v: string)
    requires ReleaseVersion(v)
    ensures var r := BumpVersion(v, Patch);
            && ReleaseVersion(r) && !IsPrerelease(r) && CompareSemver(r, v) > 0
            && forall w | ReleaseVersion(w) && !IsPrerelease(w) && CompareSemver(w, v) > 0 :: CompareSemver(r, w) <= 0
  {
    WholeTextNumbers(v);
    CoreNumbers(v);
    var (major, minor, patch) := Numbers(v);
    var r := BumpVersion(v, Patch);
    RenderedVersion(major, minor, if IsPrerelease(v) then patch else patch + 1);
    StableOrder(r, v);
    forall w | ReleaseVersion(w) && !IsPrerelease(w) && CompareSemver(w, v) > 0
      ensures CompareSemver(r, w) <= 0
    {
      StableOrder(w, v);
      StableOrder(r, w);
    }
  }

  /** The minor bump is the least stable version with the same major and a higher minor. */
  lemma MinorBumpIsLeast(v: string)
    requires ReleaseVersion(v)
    ensures var r := BumpVersion(v, Minor);
            && ReleaseVersion(r) && !IsPrerelease(r) && CompareSemver(r, v) > 0
            && Numbers(r).0 == Numbers(v).0 && Numbers(r).1 > Numbers(v).1
            && forall w | ReleaseVersion(w) && !IsPrerelease(w)
                          && Numbers(w).0 == Numbers(v).0 && Numbers(w).1 > Numbers(v).1 :: CompareSemver(r, w) <= 0
  {
    WholeTextNumbers(v);
    CoreNumbers(v);
    var (major, minor, patch) := Numbers(v);
    var r := BumpVersion(v, Minor);
    RenderedVersion(major, minor + 1, 0);
    StableOrder(r, v);
    forall w | ReleaseVersion(w) && !IsPrerelease(w) && Numbers(w).0 == major && Numbers(w).1 > minor
      ensures CompareSemver(r, w) <= 0
    {
      CoreNumbers(w);
      StableOrder(r, w);
    }
  }
}
