/**
 * Persist keys for exported reviews. The five parts of an idempotency tuple are
 * UTF-16 text, encoded as UTF-8 (section 3 of RFC 3629), written in hex and
 * joined with hyphens.
 */
module ReviewKey {
  import opened Prelude

  /** A UTF-16 code unit. */
  type Unit = u: int | 0 <= u < 0x1_0000
  type Byte = b: int | 0 <= b < 0x100
  type Units = seq<Unit>

  predicate High(u: Unit) { 0xD800 <= u <= 0xDBFF }
  predicate Low(u: Unit) { 0xDC00 <= u <= 0xDFFF }

  // ----- well-formedness -----

  /** The pattern for a lone surrogate matches at position `i`. */
  predicate LoneAt(s: Units, i: nat)
    requires i < |s|
  {
    || (High(s[i]) && !(i + 1 < |s| && Low(s[i + 1])))
    || (Low(s[i]) && !(i > 0 && High(s[i - 1])))
  }

  predicate HasLoneSurrogate(s: Units) { exists i :: 0 <= i < |s| && LoneAt(s, i) }

  predicate StartsPair(s: Units) { |s| >= 2 && High(s[0]) && Low(s[1]) }

  /** Read left to right, every surrogate belongs to a high-low pair. */
  predicate WellFormed(s: Units) {
    if s == [] then true
    else if StartsPair(s) then WellFormed(s[2..])
    else !High(s[0]) && !Low(s[0]) && WellFormed(s[1..])
  }

  /** Cutting after a pair, or after a character outside the surrogates, moves no lone surrogate. */
  lemma LoneShifts(s: Units, k: nat)
    requires 0 < k <= |s| && !High(s[k - 1])
    ensures forall i | k <= i < |s| :: LoneAt(s, i) == LoneAt(s[k..], i - k)
  {
  }

  /** The pattern rejects exactly the strings that are not well-formed. */
  lemma {:induction false} LoneSurrogateExact(s: Units)
    ensures HasLoneSurrogate(s) <==> !WellFormed(s)
  {
    if s != [] {
      var k := if StartsPair(s) then 2 else 1;
      var rest := s[k..];
      LoneSurrogateExact(rest);
      if StartsPair(s) || (!High(s[0]) && !Low(s[0])) {
        LoneShifts(s, k);
        if HasLoneSurrogate(s) {
          var i :| 0 <= i < |s| && LoneAt(s, i);
          assert LoneAt(rest, i - k);
        }
        if HasLoneSurrogate(rest) {
          var i :| 0 <= i < |rest| && LoneAt(rest, i);
          assert LoneAt(s, i + k);
        }
      } else {
        assert LoneAt(s, 0);
      }
    }
  }

  // ----- UTF-8 -----

  function PairValue(h: Unit, l: Unit): nat
    requires High(h) && Low(l)
  {
    0x1_0000 + (h - 0xD800) * 0x400 + (l - 0xDC00)
  }

  /** The first code point; a lone surrogate reads as U+FFFD. */
  function FirstPoint(s: Units): nat
    requires s != []
  {
    if StartsPair(s) then PairValue(s[0], s[1]) else if High(s[0]) || Low(s[0]) then 0xFFFD else s[0]
  }

  function FirstWidth(s: Units): nat
    requires s != []
    ensures 1 <= FirstWidth(s) <= |s|
  {
    if StartsPair(s) then 2 else 1
  }

  function Encode(c: nat): (bytes: seq<Byte>)
    requires c < 0x11_0000
    ensures bytes != []
  {
    if c < 0x80 then [c]
    else if c < 0x800 then [0xC0 + c / 0x40, 0x80 + c % 0x40]
    else if c < 0x1_0000 then [0xE0 + c / 0x1000, 0x80 + c / 0x40 % 0x40, 0x80 + c % 0x40]
    else [0xF0 + c / 0x4_0000, 0x80 + c / 0x1000 % 0x40, 0x80 + c / 0x40 % 0x40, 0x80 + c % 0x40]
  }

  function Utf8(s: Units): seq<Byte> {
    if s == [] then [] else Encode(FirstPoint(s)) + Utf8(s[FirstWidth(s)..])
  }

  /** The lead byte fixes the width, the bytes fix the code point. */
  lemma EncodeInjective(c: nat, d: nat, more: seq<Byte>, rest: seq<Byte>)
    requires c < 0x11_0000 && d < 0x11_0000 && Encode(c) + more == Encode(d) + rest
    ensures c == d && more == rest
  {
    var ec, ed := Encode(c), Encode(d);
    var all := ec + more;
    assert ec[0] == all[0] == ed[0];
    assert |ec| == |ed|;
    assert forall i | 0 <= i < |ec| :: ec[i] == all[i] == ed[i];
    assert ec == all[..|ec|] && ed == all[..|ed|];
    SameBytes(c, d);
    assert more == all[|ec|..] && rest == all[|ed|..];
  }

  lemma SameBytes(c: nat, d: nat)
    requires c < 0x11_0000 && d < 0x11_0000 && Encode(c) == Encode(d)
    ensures c == d
  {
    var ec, ed := Encode(c), Encode(d);
    assert forall i | 0 <= i < |ec| :: ec[i] == ed[i];
    if c < 0x80 {
    } else if c < 0x800 {
      assert ec[1] == ed[1];
    } else if c < 0x1_0000 {
      assert ec[1] == ed[1] && ec[2] == ed[2];
      Recombine3(c);
      Recombine3(d);
    } else {
      assert ec[1] == ed[1] && ec[2] == ed[2] && ec[3] == ed[3];
      Recombine4(c);
      Recombine4(d);
    }
  }

  lemma Recombine3(c: nat)
    ensures c == c / 0x1000 * 0x1000 + c / 0x40 % 0x40 * 0x40 + c % 0x40
  {
  }

  lemma Quotients(c: nat)
    ensures c / 0x1000 == c / 0x40 / 0x40
    ensures c / 0x4_0000 == c / 0x1000 / 0x40
  {
  }

  lemma Recombine4(c: nat)
    ensures c == c / 0x4_0000 * 0x4_0000 + c / 0x1000 % 0x40 * 0x1000 + c / 0x40 % 0x40 * 0x40 + c % 0x40
  {
    Quotients(c);
    var high := c / 0x1000;
    assert high == high / 0x40 * 0x40 + high % 0x40;
    Recombine3(c);
  }

  /** Two well-formed strings with the same first code point start with the same units. */
  lemma SamePointSameUnits(s: Units, t: Units)
    requires s != [] && t != [] && WellFormed(s) && WellFormed(t) && FirstPoint(s) == FirstPoint(t)
    ensures FirstWidth(s) == FirstWidth(t) && s[..FirstWidth(s)] == t[..FirstWidth(t)]
  {
  }

  lemma {:induction false} Utf8Injective(s: Units, t: Units)
    requires WellFormed(s) && WellFormed(t) && Utf8(s) == Utf8(t)
    ensures s == t
    decreases |s|
  {
    if s == [] {
      assert t == [];
    } else if t != [] {
      EncodeInjective(FirstPoint(s), FirstPoint(t), Utf8(s[FirstWidth(s)..]), Utf8(t[FirstWidth(t)..]));
      SamePointSameUnits(s, t);
      Utf8Injective(s[FirstWidth(s)..], t[FirstWidth(t)..]);
      assert s == s[..FirstWidth(s)] + s[FirstWidth(s)..] && t == t[..FirstWidth(t)] + t[FirstWidth(t)..];
    }
  }

  // ----- hex -----

  function HexDigit(n: int): (c: char)
    requires 0 <= n < 16
    ensures '0' <= c <= '9' || 'a' <= c <= 'f'
  {
    if n < 10 then ('0' as int + n) as char else ('a' as int + n - 10) as char
  }

  function Hex(bytes: seq<Byte>): string {
    if bytes == [] then "" else [HexDigit(bytes[0] / 16), HexDigit(bytes[0] % 16)] + Hex(bytes[1..])
  }

  predicate HexText(s: string) { forall i | 0 <= i < |s| :: '0' <= s[i] <= '9' || 'a' <= s[i] <= 'f' }

  lemma {:induction false} HexIsHex(bytes: seq<Byte>)
    ensures HexText(Hex(bytes)) && |Hex(bytes)| == 2 * |bytes|
  {
    if bytes != [] {
      HexIsHex(bytes[1..]);
    }
  }

  lemma {:induction false} HexInjective(a: seq<Byte>, b: seq<Byte>)
    requires Hex(a) == Hex(b)
    ensures a == b
  {
    HexIsHex(a);
    HexIsHex(b);
    if a != [] {
      assert Hex(a)[0] == Hex(b)[0] && Hex(a)[1] == Hex(b)[1];
      assert Hex(a)[2..] == Hex(a[1..]) && Hex(b)[2..] == Hex(b[1..]);
      HexInjective(a[1..], b[1..]);
      assert a == [a[0]] + a[1..] && b == [b[0]] + b[1..];
    }
  }

  // ----- the key -----

  predicate Separator(u: Unit) { u == 0x2F || u == 0x3A }

  function Split(s: Units): (parts: seq<Units>)
    ensures |parts| > 0
  {
    if s == [] then [[]]
    else
      var rest := Split(s[1..]);
      if Separator(s[0]) then [[]] + rest else [[s[0]] + rest[0]] + rest[1..]
  }

  function Segment(part: Units): string { Hex(Utf8(part)) }

  function JoinSegments(parts: seq<Units>): string
    requires parts != []
  {
    if |parts| == 1 then Segment(parts[0]) else Segment(parts[0]) + "-" + JoinSegments(parts[1..])
  }

  function Key(parts: seq<Units>): string
    requires parts != []
  {
    "r-" + JoinSegments(parts)
  }

  predicate KeyChar(c: char) {
    'A' <= c <= 'Z' || 'a' <= c <= 'z' || '0' <= c <= '9' || c == '.' || c == '_' || c == '-'
  }

  /** `^[A-Za-z0-9._-]+$` */
  predicate SafeKey(key: string) { key != "" && forall i | 0 <= i < |key| :: KeyChar(key[i]) }

  /** `^[0-9]{8}-[a-z0-9-]+$` */
  predicate PlanKey(key: string) {
    && |key| >= 10 && (forall i | 0 <= i < 8 :: '0' <= key[i] <= '9') && key[8] == '-'
    && forall i | 9 <= i < |key| :: 'a' <= key[i] <= 'z' || '0' <= key[i] <= '9' || key[i] == '-'
  }

  datatype KeyError = MalformedTuple | UnsafeKey

  predicate ValidTuple(parts: seq<Units>) {
    |parts| == 5 && forall i | 0 <= i < |parts| :: parts[i] != [] && !HasLoneSurrogate(parts[i])
  }

  function DeriveReviewKey(idem: Units): Result<string, KeyError> {
    var parts := Split(idem);
    if !ValidTuple(parts) then Err(MalformedTuple)
    else if !SafeKey(Key(parts)) || PlanKey(Key(parts)) then Err(UnsafeKey)
    else Ok(Key(parts))
  }

  lemma {:induction false} JoinedIsSafe(parts: seq<Units>)
    requires parts != []
    ensures forall i | 0 <= i < |JoinSegments(parts)| :: KeyChar(JoinSegments(parts)[i])
  {
    HexIsHex(Utf8(parts[0]));
    if |parts| > 1 {
      JoinedIsSafe(parts[1..]);
    }
  }

  /** The last refusal is unreachable: every well-formed five-part tuple has a key, safe and never plan-shaped. */
  lemma KeyAlwaysDerives(idem: Units)
    ensures DeriveReviewKey(idem) == if ValidTuple(Split(idem)) then Ok(Key(Split(idem))) else Err(MalformedTuple)
    ensures ValidTuple(Split(idem)) ==> SafeKey(Key(Split(idem))) && !PlanKey(Key(Split(idem)))
  {
    JoinedIsSafe(Split(idem));
    assert Key(Split(idem))[0] == 'r';
  }

  lemma FirstHyphen(a: string, b: string, more: string, rest: string)
    requires HexText(a) && HexText(b) && a + "-" + more == b + "-" + rest
    ensures a == b && more == rest
  {
    var all := a + "-" + more;
    assert all[|a|] == '-' && all == b + "-" + rest && all[|b|] == '-';
    assert |a| == |b| by {
      assert forall i | 0 <= i < |a| :: all[i] == a[i] && a[i] != '-';
      assert forall i | 0 <= i < |b| :: all[i] == b[i] && b[i] != '-';
    }
    assert a == all[..|a|] && b == all[..|b|];
    assert more == all[|a| + 1..] && rest == all[|b| + 1..];
  }

  lemma {:induction false} JoinInjective(p: seq<Units>, q: seq<Units>)
    requires |p| == |q| > 0 && JoinSegments(p) == JoinSegments(q)
    requires forall i | 0 <= i < |p| :: WellFormed(p[i]) && WellFormed(q[i])
    ensures p == q
  {
    var a, b := Segment(p[0]), Segment(q[0]);
    HexIsHex(Utf8(p[0]));
    HexIsHex(Utf8(q[0]));
    if |p| > 1 {
      FirstHyphen(a, b, JoinSegments(p[1..]), JoinSegments(q[1..]));
      JoinInjective(p[1..], q[1..]);
    }
    HexInjective(Utf8(p[0]), Utf8(q[0]));
    Utf8Injective(p[0], q[0]);
    assert p == [p[0]] + p[1..] && q == [q[0]] + q[1..];
  }

  /** Two accepted tuples get the same key exactly when their five parts are the same. */
  lemma KeysAreInjective(a: Units, b: Units)
    requires DeriveReviewKey(a).Ok? && DeriveReviewKey(b).Ok?
    ensures DeriveReviewKey(a) == DeriveReviewKey(b) <==> Split(a) == Split(b)
  {
    var p, q := Split(a), Split(b);
    forall i | 0 <= i < 5
      ensures WellFormed(p[i]) && WellFormed(q[i])
    {
      LoneSurrogateExact(p[i]);
      LoneSurrogateExact(q[i]);
    }
    if Key(p) == Key(q) {
      assert JoinSegments(p) == Key(p)[2..] && JoinSegments(q) == Key(q)[2..];
      JoinInjective(p, q);
    }
  }

  /** Why lone surrogates are refused: each would share its segment with the replacement character. */
  lemma LoneSurrogatesCollide(u: Unit)
    requires High(u) || Low(u)
    ensures Segment([u]) == Segment([0xFFFD]) && [u] != [0xFFFD]
  {
    assert Utf8([u]) == Encode(0xFFFD) + Utf8([u][1..]);
    assert Utf8([0xFFFD]) == Encode(0xFFFD) + Utf8([0xFFFD][1..]);
  }
}
