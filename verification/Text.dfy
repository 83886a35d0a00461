/** String searching and trimming as the scripts use them, with the laws the proofs need. */
module Text {

  /** First index at which `needle` starts in `s`, or -1. */
  function IndexOf(s: string, needle: string): (at: int)
    ensures -1 <= at && (at >= 0 ==> at + |needle| <= |s| && needle <= s[at..])
  {
    if needle <= s then 0
    else if s == "" then -1
    else var at := IndexOf(s[1..], needle); if at == -1 then -1 else at + 1
  }

  predicate Contains(s: string, needle: string) { IndexOf(s, needle) >= 0 }

  predicate White(c: char) {
    || c in {'\t', '\n', '\U{b}', '\U{c}', '\r', ' ', '\U{a0}', '\U{1680}', '\U{2028}', '\U{2029}', '\U{202f}',
      '\U{205f}', '\U{3000}', '\U{feff}'}
    || '\U{2000}' <= c <= '\U{200a}'
  }

  /** The white space and line terminators of ECMAScript, by code point. */
  lemma WhiteIs(c: char)
    ensures White(c) <==>
            c as int in {9, 10, 11, 12, 13, 32, 160, 5760, 8192, 8193, 8194, 8195, 8196, 8197, 8198, 8199, 8200, 8201,
              8202,
                         8232, 8233, 8239, 8287, 12288, 65279}
  {
  }

  predicate AllWhite(s: string) { forall i | 0 <= i < |s| :: White(s[i]) }

  function TrimStart(s: string): string { if s != "" && White(s[0]) then TrimStart(s[1..]) else s }
  function TrimEnd(s: string): (t: string)
    ensures t <= s
  {
    if s != "" && White(s[|s| - 1]) then TrimEnd(s[..|s| - 1]) else s
  }
  function Trim(s: string): string { TrimEnd(TrimStart(s)) }

  /** Nothing to trim at either end. */
  predicate Trimmed(s: string) { s == "" || (!White(s[0]) && !White(s[|s| - 1])) }

  // ----- searching -----

  /** `at` is the first place: the needle starts there and nowhere before. */
  lemma {:induction false} IndexOfIsFirst(s: string, needle: string, j: nat)
    requires j <= |s| && needle <= s[j..]
    ensures 0 <= IndexOf(s, needle) <= j
  {
    if !(needle <= s) {
      assert s[j..] == s[1..][j - 1..];
      IndexOfIsFirst(s[1..], needle, j - 1);
    }
  }

  lemma IndexOfUnique(s: string, needle: string, at: nat)
    requires at <= |s| && needle <= s[at..]
    requires forall j | 0 <= j < at :: !(needle <= s[j..])
    ensures IndexOf(s, needle) == at
  {
    IndexOfIsFirst(s, needle, at);
  }

  /** A prefix of two joined lines lies in the first line or reaches the line feed. */
  lemma PrefixAcross(a: string, b: string, needle: string)
    requires needle <= a + "\n" + b
    ensures needle <= a || '\n' in needle
  {
    if |a| < |needle| {
      assert needle[|a|] == (a + "\n" + b)[|a|] == '\n';
    }
  }

  lemma BreakPrefixAcross(a: string, b: string, mark: string)
    requires a != "" && "\n" + mark <= a + "\n" + b
    ensures "\n" + mark <= a || '\n' in mark
  {
    var needle := "\n" + mark;
    if |a| < |needle| {
      assert mark[|a| - 1] == needle[|a|] == (a + "\n" + b)[|a|] == '\n';
    }
  }

  /** A line-free needle is found in the first line, or else after it. */
  lemma {:induction false} IndexOfAcrossLine(a: string, b: string, needle: string)
    requires needle != "" && '\n' !in needle
    ensures IndexOf(a + "\n" + b, needle) ==
            if Contains(a, needle) then IndexOf(a, needle)
            else if Contains(b, needle) then |a| + 1 + IndexOf(b, needle) else -1
  {
    var s := a + "\n" + b;
    if needle <= s {
      PrefixAcross(a, b, needle);
    } else if a == "" {
      assert s[1..] == b;
    } else {
      assert s[1..] == a[1..] + "\n" + b;
      assert needle <= a ==> needle <= s;
      IndexOfAcrossLine(a[1..], b, needle);
    }
  }

  /** The same for a needle that is a line feed followed by a line-free mark. */
  lemma {:induction false} BreakAcrossLine(a: string, b: string, mark: string)
    requires mark != "" && '\n' !in mark
    ensures IndexOf(a + "\n" + b, "\n" + mark) ==
            if Contains(a, "\n" + mark) then IndexOf(a, "\n" + mark)
            else if mark <= b then |a|
            else if Contains(b, "\n" + mark) then |a| + 1 + IndexOf(b, "\n" + mark) else -1
  {
    var s, needle := a + "\n" + b, "\n" + mark;
    if a == "" {
      assert s[1..] == b;
      assert needle <= s <==> mark <= b by {
        if needle <= s { assert mark == needle[1..] && b[..|mark|] == s[1..][..|mark|]; }
        if mark <= b { assert s == "\n" + b; }
      }
    } else {
      assert s[1..] == a[1..] + "\n" + b;
      BreakAcrossLine(a[1..], b, mark);
      if needle <= s {
        BreakPrefixAcross(a, b, mark);
      }
      assert needle <= a ==> needle <= s;
    }
  }

  lemma {:induction false} FirstLine(s: string)
    ensures IndexOf(s, "\n") == -1 <==> '\n' !in s
    ensures IndexOf(s, "\n") >= 0 ==> '\n' !in s[..IndexOf(s, "\n")]
  {
    assert "\n" <= s <==> s != "" && s[0] == '\n';
    if s != "" && s[0] != '\n' {
      FirstLine(s[1..]);
      assert s == [s[0]] + s[1..];
      var at := IndexOf(s[1..], "\n");
      assert at >= 0 ==> s[..at + 1] == [s[0]] + s[1..][..at];
    }
  }

  lemma FirstLineSplits(s: string)
    requires '\n' in s
    ensures 0 <= IndexOf(s, "\n") < |s| && '\n' !in s[..IndexOf(s, "\n")]
    ensures s == s[..IndexOf(s, "\n")] + "\n" + s[IndexOf(s, "\n") + 1..]
  {
    FirstLine(s);
    BreakAt(s, IndexOf(s, "\n"));
  }

  lemma BreakAt(s: string, at: nat)
    requires at <= |s| && "\n" <= s[at..]
    ensures at < |s| && s == s[..at] + "\n" + s[at + 1..]
  {
  }

  /** The first line feed of `a + "\n" + b` when `a` is one line. */
  lemma FirstLineIs(a: string, b: string)
    requires '\n' !in a
    ensures IndexOf(a + "\n" + b, "\n") == |a|
  {
    var s := a + "\n" + b;
    assert s[|a|..] == "\n" + b;
    forall j | 0 <= j < |a|
      ensures !("\n" <= s[j..])
    {
      assert s[j] == a[j] && a[j] in a;
    }
    IndexOfUnique(s, "\n", |a|);
  }

  // ----- trimming -----

  lemma {:induction false} TrimStartPad(a: string, s: string)
    requires AllWhite(a)
    ensures TrimStart(a + s) == TrimStart(s)
  {
    if a == "" {
      assert a + s == s;
    } else {
      assert (a + s)[1..] == a[1..] + s;
      TrimStartPad(a[1..], s);
    }
  }

  lemma {:induction false} TrimEndPad(s: string, b: string)
    requires AllWhite(b)
    ensures TrimEnd(s + b) == TrimEnd(s)
  {
    if b == "" {
      assert s + b == s;
    } else {
      assert (s + b)[..|s + b| - 1] == s + b[..|b| - 1];
      TrimEndPad(s, b[..|b| - 1]);
    }
  }

  lemma {:induction false} TrimStartShape(s: string) returns (a: string)
    ensures AllWhite(a) && s == a + TrimStart(s)
    ensures TrimStart(s) != "" ==> !White(TrimStart(s)[0])
  {
    if s != "" && White(s[0]) {
      var rest := TrimStartShape(s[1..]);
      a := [s[0]] + rest;
    } else {
      a := "";
    }
  }

  lemma {:induction false} TrimEndShape(s: string) returns (b: string)
    ensures AllWhite(b) && s == TrimEnd(s) + b
    ensures TrimEnd(s) != "" ==> !White(TrimEnd(s)[|TrimEnd(s)| - 1])
  {
    if s != "" && White(s[|s| - 1]) {
      var rest := TrimEndShape(s[..|s| - 1]);
      b := rest + [s[|s| - 1]];
    } else {
      b := "";
    }
  }

  lemma TrimShape(s: string) returns (a: string, b: string)
    ensures AllWhite(a) && AllWhite(b) && s == a + Trim(s) + b
  {
    hide AllWhite;
    a := TrimStartShape(s);
    b := TrimEndShape(TrimStart(s));
  }

  lemma AllWhiteTrims(s: string)
    ensures Trim(s) == "" <==> AllWhite(s)
  {
    var a := TrimStartShape(s);
    var t := TrimStart(s);
    var b := TrimEndShape(t);
    assert t != "" ==> s[|a|] == t[0];
    assert Trim(s) == "" ==> s == a + b;
  }

  lemma {:induction false} TrimEndCommutes(s: string, b: string)
    requires AllWhite(b)
    ensures Trim(s + b) == Trim(s)
  {
    var a := TrimStartShape(s);
    var t := TrimStart(s);
    if t == "" {
      AllWhiteTrims(s + b);
      AllWhiteTrims(s);
    } else {
      assert s + b == a + (t + b);
      TrimStartPad(a, t + b);
      assert TrimStart(t + b) == t + b;
      TrimEndPad(t, b);
    }
  }

  /** White text around `s` does not change what trimming leaves. */
  lemma TrimPad(a: string, s: string, b: string)
    requires AllWhite(a) && AllWhite(b)
    ensures Trim(a + s + b) == Trim(s)
  {
    assert a + s + b == a + (s + b);
    TrimStartPad(a, s + b);
    TrimEndCommutes(s, b);
  }

  lemma TrimmedUnchanged(s: string)
    ensures Trimmed(Trim(s))
    ensures Trimmed(s) ==> Trim(s) == s
  {
    hide White;
    var a := TrimStartShape(s);
    var b := TrimEndShape(TrimStart(s));
    if Trim(s) != "" {
      assert Trim(s)[0] == TrimStart(s)[0];
    }
  }

  /** Text after a trimmed body survives trimming exactly when it is not all white. */
  lemma TrimKeepsExtra(a: string, body: string, extra: string)
    requires AllWhite(a) && Trimmed(body) && body != ""
    ensures Trim(a + body + extra) == body <==> AllWhite(extra)
  {
    TrimmedUnchanged(body);
    if AllWhite(extra) {
      TrimPad(a, body, extra);
    } else {
      assert a + body + extra == a + (body + extra);
      TrimStartPad(a, body + extra);
      assert TrimStart(body + extra) == body + extra;
      var b := TrimEndShape(body + extra);
      assert extra == (body + extra)[|body|..] && b == (body + b)[|body|..];
    }
  }

  /** The same for text that starts with ink and may still end in white. */
  lemma InkThenExtra(a: string, extra: string)
    requires a != "" && !White(a[0])
    ensures Trim(a + extra) == Trim(a) <==> AllWhite(extra)
  {
    var b := TrimEndShape(a);
    AllWhiteTrims(a);
    TrimmedUnchanged(a);
    TrimKeepsExtra("", Trim(a), b + extra);
    assert "" + Trim(a) + (b + extra) == a + extra;
    assert AllWhite(extra) ==> AllWhite(b + extra);
    assert forall i | 0 <= i < |extra| :: extra[i] == (b + extra)[|b| + i];
  }

  /** Text appended changes what trimming leaves exactly when it is not all white. */
  lemma TrimExtra(a: string, extra: string)
    ensures Trim(a + extra) == Trim(a) <==> AllWhite(extra)
  {
    hide White;
    var lead := TrimStartShape(a);
    var ink := TrimStart(a);
    assert a + extra == lead + (ink + extra);
    TrimStartPad(lead, ink + extra);
    if ink == "" {
      AllWhiteTrims(extra);
      assert ink + extra == extra;
    } else {
      assert TrimStart(ink) == ink && TrimStart(ink + extra) == ink + extra;
      InkThenExtra(ink, extra);
    }
  }
}
