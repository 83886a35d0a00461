/** What a review key spells, told by section 3 of RFC 3629, hexadecimal notation and the five parts of the tuple. */
module KeyText {
  import opened Prelude
  import opened Letters
  import opened ReviewKey

  // ----- bytes -----

  /** The byte sequence the RFC's table gives a code point, read from the bytes back to the point. */
  predicate SpellsPoint(e: seq<int>, c: nat) {
    if c < 0x80 then e == [c]
    else if c < 0x800 then
      |e| == 2 && 0xC0 <= e[0] < 0xE0 && 0x80 <= e[1] < 0xC0 && c == (e[0] - 0xC0) * 0x40 + (e[1] - 0x80)
    else if c < 0x1_0000 then
      && |e| == 3 && 0xE0 <= e[0] < 0xF0 && 0x80 <= e[1] < 0xC0 && 0x80 <= e[2] < 0xC0
      && c == ((e[0] - 0xE0) * 0x40 + (e[1] - 0x80)) * 0x40 + (e[2] - 0x80)
    else
      && |e| == 4 && 0xF0 <= e[0] < 0xF8 && 0x80 <= e[1] < 0xC0 && 0x80 <= e[2] < 0xC0 && 0x80 <= e[3] < 0xC0
      && c == (((e[0] - 0xF0) * 0x40 + (e[1] - 0x80)) * 0x40 + (e[2] - 0x80)) * 0x40 + (e[3] - 0x80)
  }

  lemma EncodeSpells(c: nat)
    requires c < 0x11_0000
    ensures SpellsPoint(Encode(c), c)
  {
    if c >= 0x1_0000 {
      Recombine4(c);
    } else if c >= 0x800 {
      Recombine3(c);
    }
  }

  /** A unit outside the surrogates is its own code point. */
  lemma UnitBytes(u: Unit, rest: Units)
    requires u < 0xD800 || 0xE000 <= u
    ensures exists e: seq<Byte> :: SpellsPoint(e, u) && Utf8([u] + rest) == e + Utf8(rest)
  {
    EncodeSpells(u);
    assert ([u] + rest)[1..] == rest;
  }

  /** Two surrogates in order are one code point above the first plane. */
  lemma PairBytes(h: Unit, l: Unit, rest: Units)
    requires 0xD800 <= h < 0xDC00 <= l < 0xE000
    ensures exists e: seq<Byte> ::
              SpellsPoint(e, 0x1_0000 + (h - 0xD800) * 0x400 + (l - 0xDC00)) && Utf8([h, l] + rest) == e + Utf8(rest)
  {
    EncodeSpells(PairValue(h, l));
    var s := [h, l] + rest;
    assert s[0] == h && s[1] == l && s[2..] == rest;
    assert Utf8(s) == Encode(PairValue(h, l)) + Utf8(rest);
  }

  /** Each byte is two digits of the sixteen, high one first. */
  lemma {:induction false} HexDigits(bytes: seq<Byte>, i: nat)
    requires i < |bytes|
    ensures |Hex(bytes)| == 2 * |bytes|
    ensures exists h, l :: 0 <= h < 16 && 0 <= l < 16 && bytes[i] == 16 * h + l
                           && Hex(bytes)[2 * i] == "0123456789abcdef"[h]
                           && Hex(bytes)[2 * i + 1] == "0123456789abcdef"[l]
  {
    HexIsHex(bytes);
    if i > 0 {
      HexDigits(bytes[1..], i - 1);
    } else {
      var h, l := bytes[0] / 16, bytes[0] % 16;
      assert HexDigit(h) == "0123456789abcdef"[h] && HexDigit(l) == "0123456789abcdef"[l];
    }
  }

  // ----- the tuple -----

  predicate SlashOrColon(u: Unit) { u == 0x2F || u == 0x3A }

  predicate Plain(part: Units) { forall i | 0 <= i < |part| :: !SlashOrColon(part[i]) }

  /** The parts with one separator between each two. */
  function Woven(parts: seq<Units>, seps: Units): Units
    requires |parts| == |seps| + 1
  {
    if seps == [] then parts[0] else parts[0] + [seps[0]] + Woven(parts[1..], seps[1..])
  }

  /** Five parts, each non-empty, well-formed and free of slashes and colons, with a slash or a colon between. */
  predicate Tuple(idem: Units, parts: seq<Units>, seps: Units) {
    && |parts| == 5 && |seps| == 4 && idem == Woven(parts, seps)
    && (forall i | 0 <= i < |seps| :: SlashOrColon(seps[i]))
    && forall i | 0 <= i < |parts| :: parts[i] != [] && Plain(parts[i]) && WellFormed(parts[i])
  }

  lemma {:induction false} SplitPart(part: Units, sep: Unit, rest: Units)
    requires Plain(part) && SlashOrColon(sep)
    ensures Split(part + [sep] + rest) == [part] + Split(rest)
  {
    var s := part + [sep] + rest;
    if part == [] {
      assert s[1..] == rest;
    } else {
      assert s[1..] == part[1..] + [sep] + rest;
      SplitPart(part[1..], sep, rest);
      assert part == [part[0]] + part[1..];
    }
  }

  lemma {:induction false} SplitLast(part: Units)
    requires Plain(part)
    ensures Split(part) == [part]
  {
    if part != [] {
      SplitLast(part[1..]);
      assert part == [part[0]] + part[1..];
    }
  }

  lemma {:induction false} SplitWoven(parts: seq<Units>, seps: Units)
    requires |parts| == |seps| + 1 && (forall i | 0 <= i < |seps| :: SlashOrColon(seps[i]))
             && forall i | 0 <= i < |parts| :: Plain(parts[i])
    ensures Split(Woven(parts, seps)) == parts
  {
    if seps == [] {
      SplitLast(parts[0]);
      assert parts == [parts[0]];
    } else {
      SplitWoven(parts[1..], seps[1..]);
      SplitPart(parts[0], seps[0], Woven(parts[1..], seps[1..]));
    }
  }

  lemma {:induction false} SplitWeaves(s: Units) returns (seps: Units)
    ensures |Split(s)| == |seps| + 1 && s == Woven(Split(s), seps)
    ensures (forall i | 0 <= i < |seps| :: SlashOrColon(seps[i])) && forall i | 0 <= i < |Split(s)| ::
            Plain(Split(s)[i])
  {
    seps := [];
    if s != [] {
      var rest := Split(s[1..]);
      var tail := SplitWeaves(s[1..]);
      if SlashOrColon(s[0]) {
        seps := [s[0]] + tail;
        assert seps[1..] == tail && Split(s)[1..] == rest;
      } else {
        seps := tail;
        assert Split(s)[1..] == rest[1..];
      }
    }
  }

  /** A key is derived exactly for such tuples, and spells the five parts in order. */
  lemma DerivedExactly(idem: Units)
    ensures DeriveReviewKey(idem).Ok? <==> exists parts, seps :: Tuple(idem, parts, seps)
    ensures forall parts, seps | Tuple(idem, parts, seps) ::
              DeriveReviewKey(idem) == Ok("r-" + Segment(parts[0]) + "-" + Segment(parts[1]) + "-" + Segment(parts[2])
                                          + "-" + Segment(parts[3]) + "-" + Segment(parts[4]))
  {
    KeyAlwaysDerives(idem);
    if ValidTuple(Split(idem)) {
      var seps := SplitWeaves(idem);
      forall i | 0 <= i < 5
        ensures WellFormed(Split(idem)[i])
      {
        LoneSurrogateExact(Split(idem)[i]);
      }
      assert Tuple(idem, Split(idem), seps);
    }
    forall parts, seps | Tuple(idem, parts, seps)
      ensures DeriveReviewKey(idem) == Ok("r-" + Segment(parts[0]) + "-" + Segment(parts[1]) + "-" + Segment(parts[2])
                                          + "-" + Segment(parts[3]) + "-" + Segment(parts[4]))
    {
      SplitWoven(parts, seps);
      forall i | 0 <= i < 5
        ensures parts[i] != [] && !HasLoneSurrogate(parts[i])
      {
        LoneSurrogateExact(parts[i]);
      }
      FiveJoined(parts);
    }
  }

  lemma FiveJoined(parts: seq<Units>)
    requires |parts| == 5
    ensures Key(parts) == "r-" + Segment(parts[0]) + "-" + Segment(parts[1]) + "-" + Segment(parts[2]) + "-"
                          + Segment(parts[3]) + "-" + Segment(parts[4])
  {
    hide Segment;
    var two := parts[3..];
    assert JoinSegments(two) == Segment(parts[3]) + "-" + Segment(parts[4]) by {
      assert two[1..] == [parts[4]];
    }
    assert parts[2..][1..] == two && parts[1..][1..] == parts[2..];
    var last := JoinSegments(two);
    assert JoinSegments(parts[2..]) == Segment(parts[2]) + "-" + last;
    assert JoinSegments(parts[1..]) == Segment(parts[1]) + "-" + (Segment(parts[2]) + "-" + last);
    assert JoinSegments(parts) == Segment(parts[0]) + "-" + JoinSegments(parts[1..]);
  }

  // ----- the two key grammars -----

  lemma RangesAre(c: char)
    ensures 'A' <= c <= 'Z' <==> Capital(c)
    ensures 'a' <= c <= 'z' <==> Small(c)
    ensures '0' <= c <= '9' <==> Digit(c)
  {
    hide Capital, Small, Digit;
    CapitalIs(c);
    SmallIs(c);
    DigitIs(c);
  }

  /** A safe key is letters, digits, dots, underscores and hyphens, at least one. */
  lemma SafeKeyIs(key: string)
    ensures SafeKey(key) <==>
            |key| > 0 && forall i | 0 <= i < |key| ::
              Capital(key[i]) || Small(key[i]) || Digit(key[i]) || key[i] == '.' || key[i] == '_' || key[i] == '-'
  {
    hide Capital, Small, Digit;
    forall i | 0 <= i < |key|
      ensures KeyChar(key[i]) <==>
              Capital(key[i]) || Small(key[i]) || Digit(key[i]) || key[i] == '.' || key[i] == '_' || key[i] == '-'
    {
      RangesAre(key[i]);
    }
  }

  predicate PlanTail(s: string) { s != "" && forall i | 0 <= i < |s| :: Small(s[i]) || Digit(s[i]) || s[i] == '-' }

  /** A plan key is eight digits, a hyphen, and then small letters, digits and hyphens, at least one. */
  lemma PlanKeyIs(key: string)
    ensures PlanKey(key) <==>
            exists day, tail :: key == day + "-" + tail && |day| == 8 && AllDigits(day) && PlanTail(tail)
  {
    hide Small, Digit;
    forall i | 0 <= i < |key|
      ensures '0' <= key[i] <= '9' <==> Digit(key[i])
      ensures 'a' <= key[i] <= 'z' <==> Small(key[i])
    {
      RangesAre(key[i]);
    }
    if PlanKey(key) {
      assert key == key[..8] + "-" + key[9..];
      assert PlanTail(key[9..]);
      assert AllDigits(key[..8]);
    }
    if day, tail :| key == day + "-" + tail && |day| == 8 && AllDigits(day) && PlanTail(tail) {
      assert forall i | 0 <= i < 8 :: key[i] == day[i];
      assert forall i | 9 <= i < |key| :: key[i] == tail[i - 9];
    }
  }

  predicate AllDigits(s: string) { forall i | 0 <= i < |s| :: Digit(s[i]) }
}
