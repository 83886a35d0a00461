/** Version precedence as section 11 of Semantic Versioning 2.0.0 words it, on the parts a version is written from. */
module Precedence {
  import opened Prelude
  import opened Pieces
  import opened Semver
  import opened VersionBump

  // ----- versions as text -----

  predicate DigitText(s: string) { s != "" && forall i | 0 <= i < |s| :: '0' <= s[i] <= '9' }

  function NumberOf(s: string): nat
    requires DigitText(s)
  {
    Value(s)
  }

  /** Letters, digits and hyphens; a number has no leading zero. */
  predicate IdentifierText(s: string) {
    && s != "" && (forall c | c in s :: '0' <= c <= '9' || 'A' <= c <= 'Z' || 'a' <= c <= 'z' || c == '-')
    && (DigitText(s) ==> s == "0" || s[0] != '0')
  }

  predicate Parts(core: seq<string>, pre: seq<string>) {
    |core| == 3 && (forall i | 0 <= i < 3 :: DigitText(core[i])) && forall id | id in pre :: IdentifierText(id)
  }

  /** `x.y.z`, then a hyphen and the dotted identifiers when there are any. */
  function VersionText(core: seq<string>, pre: seq<string>): string
    requires |core| == 3
  {
    core[0] + "." + core[1] + "." + core[2] + (if pre == [] then "" else "-" + Join(pre, '.'))
  }

  // ----- section 11 -----

  /** Code unit order: the first difference decides, and a proper prefix is lower. */
  ghost predicate LowerText(a: string, b: string) { exists n: nat :: TextDiffersAt(a, b, n) }

  predicate TextDiffersAt(a: string, b: string, n: nat) {
    n <= |a| && n < |b| && a[..n] == b[..n] && (n == |a| || a[n] < b[n])
  }

  /** Two numbers by value, a number below a word, two words by code unit. */
  ghost predicate LowerIdentifier(a: string, b: string) {
    || (DigitText(a) && DigitText(b) && NumberOf(a) < NumberOf(b))
    || (DigitText(a) && !DigitText(b))
    || (!DigitText(a) && !DigitText(b) && LowerText(a, b))
  }

  predicate ListsDifferAt(p: seq<string>, q: seq<string>, n: nat) {
    n <= |p| && n < |q| && p[..n] == q[..n]
  }

  /** The first differing identifier decides, and a proper prefix is lower. */
  ghost predicate LowerList(p: seq<string>, q: seq<string>) {
    exists n: nat :: ListsDifferAt(p, q, n) && (n == |p| || LowerIdentifier(p[n], q[n]))
  }

  predicate CoreDiffersAt(x: seq<string>, y: seq<string>, n: nat)
    requires |x| == 3 && |y| == 3 && forall i | 0 <= i < 3 :: DigitText(x[i]) && DigitText(y[i])
  {
    n < 3 && (forall i | 0 <= i < n :: NumberOf(x[i]) == NumberOf(y[i])) && NumberOf(x[n]) < NumberOf(y[n])
  }

  /** The first differing core number decides; with equal cores any prerelease is below none. */
  ghost predicate LowerVersion(x: seq<string>, p: seq<string>, y: seq<string>, q: seq<string>)
    requires Parts(x, p) && Parts(y, q)
  {
    || (exists n: nat :: CoreDiffersAt(x, y, n))
    || ((forall i | 0 <= i < 3 :: NumberOf(x[i]) == NumberOf(y[i])) && p != [] && (q == [] || LowerList(p, q)))
  }

  // ----- the comparisons agree -----

  lemma SameHead<T>(a: seq<T>, b: seq<T>, n: nat)
    requires n <= |a| && n <= |b| && a[..n] == b[..n]
    ensures n > 0 ==> a[0] == b[0]
  {
    assert n > 0 ==> a[..n][0] == a[0] && b[..n][0] == b[0];
  }

  lemma DigitTextIs(s: string)
    ensures DigitText(s) <==> AllDigits(s)
  {
  }

  lemma {:induction false} TextAgrees(a: string, b: string)
    ensures CompareText(a, b) < 0 <==> LowerText(a, b)
  {
    if a == "" || b == "" || a[0] != b[0] {
      assert CompareText(a, b) < 0 <==> TextDiffersAt(a, b, 0);
      if n: nat :| TextDiffersAt(a, b, n) {
        SameHead(a, b, n);
      }
    } else {
      TextAgrees(a[1..], b[1..]);
      if n: nat :| TextDiffersAt(a[1..], b[1..], n) {
        assert a[..n + 1] == [a[0]] + a[1..][..n] && b[..n + 1] == [b[0]] + b[1..][..n];
        assert TextDiffersAt(a, b, n + 1);
      }
      if n: nat :| TextDiffersAt(a, b, n) {
        assert a[1..][..n - 1] == a[..n][1..] && b[1..][..n - 1] == b[..n][1..];
        assert TextDiffersAt(a[1..], b[1..], n - 1);
      }
    }
  }

  lemma IdentifierAgrees(a: string, b: string)
    ensures CompareIdentifier(a, b) < 0 <==> LowerIdentifier(a, b)
  {
    hide LowerText;
    DigitTextIs(a);
    DigitTextIs(b);
    TextAgrees(a, b);
  }

  lemma {:induction false} ListAgrees(p: seq<string>, q: seq<string>)
    requires (forall id | id in p :: IdentifierText(id)) && forall id | id in q :: IdentifierText(id)
    ensures CompareIdentifiers(p, q) < 0 <==> LowerList(p, q)
  {
    hide IdentifierText, LowerIdentifier;
    if p == [] || q == [] {
      assert ListsDifferAt(p, q, 0) <==> q != [];
      assert p == [] && q != [] ==> LowerList(p, q);
    } else if p[0] != q[0] {
      IdentifierAgrees(p[0], q[0]);
      DifferentIdents(p[0], q[0]);
      assert ListsDifferAt(p, q, 0);
      if n: nat :| ListsDifferAt(p, q, n) && (n == |p| || LowerIdentifier(p[n], q[n])) {
        SameHead(p, q, n);
      }
    } else {
      IdentifierOrder(p[0], p[0], p[0]);
      ListAgrees(p[1..], q[1..]);
      if n: nat :| ListsDifferAt(p[1..], q[1..], n) && (n == |p[1..]| || LowerIdentifier(p[1..][n], q[1..][n])) {
        assert p[..n + 1] == [p[0]] + p[1..][..n] && q[..n + 1] == [q[0]] + q[1..][..n];
        assert ListsDifferAt(p, q, n + 1);
      }
      if n: nat :| ListsDifferAt(p, q, n) && (n == |p| || LowerIdentifier(p[n], q[n])) {
        SameIsNotLower(p[0]);
        assert n > 0;
        assert p[1..][..n - 1] == p[..n][1..] && q[1..][..n - 1] == q[..n][1..];
        assert ListsDifferAt(p[1..], q[1..], n - 1);
      }
    }
  }

  lemma SameIsNotLower(a: string)
    ensures !LowerIdentifier(a, a)
  {
    IdentifierAgrees(a, a);
    IdentifierOrder(a, a, a);
  }

  lemma IdentifierIs(s: string)
    requires IdentifierText(s)
    ensures Ident(s)
  {
    DigitTextIs(s);
    assert forall i | 0 <= i < |s| :: s[i] in s;
  }

  lemma DifferentIdents(a: string, b: string)
    requires IdentifierText(a) && IdentifierText(b) && a != b
    ensures CompareIdentifier(a, b) != 0
  {
    IdentifierIs(a);
    IdentifierIs(b);
    IdentifierOrder(a, b, a);
  }

  lemma {:induction false} CoreAgrees(x: seq<string>, y: seq<string>, i: nat)
    requires |x| == 3 && |y| == 3 && i <= 3
    requires forall j | 0 <= j < 3 :: DigitText(x[j]) && DigitText(y[j])
    requires forall j | 0 <= j < 3 :: Part(x, j) == NumberOf(x[j]) && Part(y, j) == NumberOf(y[j])
    requires forall j | 0 <= j < i :: NumberOf(x[j]) == NumberOf(y[j])
    ensures CoreOrder(x, y, i) < 0 <==> exists n: nat :: CoreDiffersAt(x, y, n)
    ensures CoreOrder(x, y, i) == 0 <==> forall j | 0 <= j < 3 :: NumberOf(x[j]) == NumberOf(y[j])
    decreases 3 - i
  {
    hide NumberOf, Part, DigitText;
    if i < 3 && Part(x, i) == Part(y, i) {
      CoreAgrees(x, y, i + 1);
    } else if i < 3 {
      assert NumberOf(x[i]) < NumberOf(y[i]) ==> CoreDiffersAt(x, y, i);
      if n: nat :| CoreDiffersAt(x, y, n) {
        assert n >= i;
      }
    }
  }

  lemma IdentifierHasNoDot(s: string)
    requires IdentifierText(s)
    ensures '.' !in s
  {
  }

  /** What reading a version's text gives back. */
  lemma TextParts(core: seq<string>, pre: seq<string>)
    requires Parts(core, pre)
    ensures var v := VersionText(core, pre);
            && Core(v) == core && ReleaseVersion(v)
            && SplitVersion(v).1 == if pre == [] then None else Some(Join(pre, '.'))
    ensures pre != [] ==> Split(Join(pre, '.'), '.') == pre
  {
    hide IdentifierText, Ident, DigitText, AllDigits, IndexOfDash;
    var v := VersionText(core, pre);
    forall i | 0 <= i < 3
      ensures AllDigits(core[i])
    {
      DigitTextIs(core[i]);
    }
    RenderedCore(core[0], core[1], core[2]);
    var front := core[0] + "." + core[1] + "." + core[2];
    assert core == [core[0], core[1], core[2]];
    forall id | id in pre
      ensures '.' !in id && Ident(id)
    {
      IdentifierHasNoDot(id);
      IdentifierIs(id);
    }
    if pre != [] {
      SplitJoin(pre, '.');
      DashAt(front, Join(pre, '.'));
      assert v == front + ("-" + Join(pre, '.'));
    } else {
      NoDash(front);
      assert v == front;
    }
  }

  lemma {:induction false} FirstDash(v: string, at: nat)
    requires at < |v| && v[at] == '-' && '-' !in v[..at]
    ensures IndexOfDash(v) == at
  {
    if at > 0 {
      assert v[0] == v[..at][0];
      assert v[1..][..at - 1] == v[..at][1..];
      FirstDash(v[1..], at - 1);
    }
  }

  lemma DashAt(front: string, tail: string)
    requires '-' !in front
    ensures SplitVersion(front + ("-" + tail)) == (front, Some(tail))
  {
    var v := front + ("-" + tail);
    assert v[..|front|] == front && v[|front| + 1..] == tail;
    FirstDash(v, |front|);
  }

  /** The accepted release versions are exactly these texts. */
  lemma ReleaseVersionIsText(v: string)
    ensures ReleaseVersion(v) <==> exists core, pre :: Parts(core, pre) && v == VersionText(core, pre)
  {
    hide ReleaseVersion, VersionText, IdentifierText, DigitText;
    if ReleaseVersion(v) {
      TextOfRelease(v);
    }
    if core, pre :| Parts(core, pre) && v == VersionText(core, pre) {
      TextParts(core, pre);
    }
  }

  lemma IdentIs(s: string)
    requires Ident(s)
    ensures IdentifierText(s)
  {
    if NumericIdent(s) && |s| == 1 && s[0] == '0' {
      assert s == "0";
    }
  }

  lemma CoreDigits(v: string)
    requires ReleaseVersion(v)
    ensures |Core(v)| == 3 && forall i | 0 <= i < 3 :: DigitText(Core(v)[i])
  {
    hide Split, SplitVersion, DigitText, AllDigits, IdentsOnly;
    forall i | 0 <= i < 3
      ensures DigitText(Core(v)[i])
    {
      assert Core(v)[i] in Core(v);
      DigitTextIs(Core(v)[i]);
    }
  }

  /** The identifiers after the first hyphen, none without one. */
  function PreOf(v: string): seq<string> {
    if SplitVersion(v).1.Some? then Split(SplitVersion(v).1.value, '.') else []
  }

  lemma PreIdents(v: string)
    requires ReleaseVersion(v)
    ensures forall id | id in PreOf(v) :: IdentifierText(id)
  {
    hide Split, SplitVersion, Ident, IdentifierText, AllDigits;
    forall id | id in PreOf(v)
      ensures IdentifierText(id)
    {
      IdentIs(id);
    }
  }

  lemma FrontIs(v: string)
    requires |Core(v)| == 3
    ensures SplitVersion(v).0 == Core(v)[0] + "." + Core(v)[1] + "." + Core(v)[2]
  {
    hide Split, SplitVersion, Join;
    JoinSplit(SplitVersion(v).0, '.');
    JoinThree(Core(v));
  }

  lemma TailIs(v: string)
    ensures v == SplitVersion(v).0 + (if PreOf(v) == [] then "" else "-" + Join(PreOf(v), '.'))
  {
    hide Split, Join;
    var (front, tail) := SplitVersion(v);
    if tail.Some? {
      JoinSplit(tail.value, '.');
      assert v == front + ("-" + tail.value);
    }
  }

  lemma TextOfRelease(v: string)
    requires ReleaseVersion(v)
    ensures Parts(Core(v), PreOf(v)) && v == VersionText(Core(v), PreOf(v))
  {
    hide Split, Join, SplitVersion, Core, PreOf, ReleaseVersion, IdentifierText, DigitText;
    CoreDigits(v);
    PreIdents(v);
    FrontIs(v);
    TailIs(v);
  }

  lemma JoinThree(core: seq<string>)
    requires |core| == 3
    ensures Join(core, '.') == core[0] + "." + core[1] + "." + core[2]
  {
    assert core[1..][1..] == [core[2]];
    assert Join(core[1..], '.') == core[1] + "." + core[2];
  }

  /** The comparison orders any two release versions the way section 11 does. */
  lemma PrecedenceIsSection11(x: seq<string>, p: seq<string>, y: seq<string>, q: seq<string>)
    requires Parts(x, p) && Parts(y, q)
    ensures CompareSemver(VersionText(x, p), VersionText(y, q)) < 0 <==> LowerVersion(x, p, y, q)
  {
    hide Core, SplitVersion, Part, IdentifierText, LowerList, NumberOf;
    TextParts(x, p);
    TextParts(y, q);
    CoreValues(x, p);
    CoreValues(y, q);
    CoreAgrees(x, y, 0);
    ListAgrees(p, q);
  }

  lemma CoreValues(core: seq<string>, pre: seq<string>)
    requires Parts(core, pre)
    ensures forall i | 0 <= i < 3 :: Part(core, i) == NumberOf(core[i])
  {
    hide IdentifierText, DigitText;
    TextParts(core, pre);
    forall i | 0 <= i < 3
      ensures Part(core, i) == NumberOf(core[i])
    {
      CoreNumber(VersionText(core, pre), i);
    }
  }
}
