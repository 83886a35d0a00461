/**
 * Stripping comments from JSONC text. The scanner loop is proved against a
 * lexer; what stripping does is then stated on the lexer's tokens.
 */
module JsonComments {

  /** `raw` is the token's own source text; a string keeps its quotes, a line comment its line feed. */
  datatype Token =
    | Plain(c: char)
    | Str(raw: string)
    | LineComment(raw: string)
    | BlockComment(raw: string)

  // ----- lexing -----

  /** Characters up to and including the closing quote, or all of them when there is none. */
  function StringLength(s: string): (n: nat)
    ensures n <= |s|
  {
    if s == "" then 0
    else if s[0] == '\\' then (if |s| >= 2 then 2 + StringLength(s[2..]) else 1)
    else if s[0] == '"' then 1
    else 1 + StringLength(s[1..])
  }

  /** Characters up to and including the line feed, or all of them. */
  function LineLength(s: string): (n: nat)
    ensures n <= |s| && (s != "" ==> n > 0)
  {
    if s == "" then 0 else if s[0] == '\n' then 1 else 1 + LineLength(s[1..])
  }

  predicate Closes(s: string) { |s| >= 2 && s[0] == '*' && s[1] == '/' }

  /** Characters up to and including the comment's end mark, or all of them. */
  function BlockLength(s: string): (n: nat)
    ensures n <= |s|
  {
    if s == "" then 0 else if Closes(s) then 2 else 1 + BlockLength(s[1..])
  }

  predicate OpensLine(s: string) { |s| >= 2 && s[0] == '/' && s[1] == '/' }
  predicate OpensBlock(s: string) { |s| >= 2 && s[0] == '/' && s[1] == '*' }

  function HeadLength(s: string): (n: nat)
    requires s != ""
    ensures 1 <= n <= |s|
  {
    if s[0] == '"' then 1 + StringLength(s[1..])
    else if OpensLine(s) then LineLength(s)
    else if OpensBlock(s) then 2 + BlockLength(s[2..])
    else 1
  }

  function HeadToken(s: string): Token
    requires s != ""
  {
    var raw := s[..HeadLength(s)];
    if s[0] == '"' then Str(raw)
    else if OpensLine(s) then LineComment(raw)
    else if OpensBlock(s) then BlockComment(raw)
    else Plain(s[0])
  }

  function Lex(s: string): seq<Token> {
    if s == "" then [] else [HeadToken(s)] + Lex(s[HeadLength(s)..])
  }

  // ----- what the scanner writes -----

  function Written(t: Token): string {
    match t
    case Plain(c) => [c]
    case Str(raw) => raw
    case LineComment(_) => "\n"
    case BlockComment(_) => ""
  }

  function Write(ts: seq<Token>): string {
    if ts == [] then "" else Written(ts[0]) + Write(ts[1..])
  }

  function Strip(s: string): string { Write(Lex(s)) }

  lemma StripStep(s: string)
    requires s != ""
    ensures Strip(s) == Written(HeadToken(s)) + Strip(s[HeadLength(s)..])
  {
  }

  /** What is still to be written when the scanner stands inside a string. */
  function StripInString(s: string): string { s[..StringLength(s)] + Strip(s[StringLength(s)..]) }

  function Rest(s: string, i: nat): string { if i <= |s| then s[i..] else "" }

  lemma NothingToStrip()
    ensures Strip("") == ""
  {
  }

  lemma StripInStringStep(s: string)
    ensures s == "" ==> StripInString(s) == ""
    ensures s != "" && s[0] == '\\' ==>
              StripInString(s) == (if |s| >= 2 then s[..2] else s) + StripInString(Rest(s, 2))
    ensures s != "" && s[0] == '"' ==> StripInString(s) == s[..1] + Strip(s[1..])
    ensures s != "" && s[0] != '"' && s[0] != '\\' ==> StripInString(s) == s[..1] + StripInString(s[1..])
  {
    hide Strip;
    NothingToStrip();
    assert s[..|s|] == s && s[|s|..] == "" && s + ("" + "") == s;
    if s != "" && s[0] == '\\' && |s| >= 2 {
      var n := StringLength(s[2..]);
      assert s[..2 + n] == s[..2] + s[2..][..n];
      assert s[2 + n..] == s[2..][n..];
    } else if s != "" && s[0] != '"' && s[0] != '\\' {
      var n := StringLength(s[1..]);
      assert s[..1 + n] == s[..1] + s[1..][..n];
      assert s[1 + n..] == s[1..][n..];
    }
  }

  lemma StripOpensString(s: string)
    requires s != "" && s[0] == '"'
    ensures Strip(s) == "\"" + StripInString(s[1..])
  {
  }

  /** Everything the scanner still has to write, standing at `i`. */
  function Todo(text: string, i: nat, inString: bool): string {
    if inString then StripInString(Rest(text, i)) else Strip(Rest(text, i))
  }

  /** From a line comment's first slash to its line feed, or the end of the text. */
  method SkipLine(text: string, start: nat) returns (i: nat)
    requires start < |text| && OpensLine(text[start..])
    ensures start < i <= |text| && Rest(text, i + 1) == text[start..][HeadLength(text[start..])..]
  {
    ghost var here := text[start..];
    i := start;
    while i < |text| && text[i] != '\n'
      invariant start <= i <= |text|
      invariant LineLength(here) == (i - start) + LineLength(text[i..])
    {
      assert text[i..][1..] == text[i + 1..];
      i := i + 1;
    }
    assert text[start] == '/';
  }

  /** From a block comment's first slash to the star of its end mark, or the end of the text. */
  method SkipBlock(text: string, start: nat) returns (i: nat)
    requires start < |text| && OpensBlock(text[start..])
    ensures start < i && Rest(text, i + 2) == text[start..][HeadLength(text[start..])..]
  {
    ghost var inside := text[start + 2..];
    assert text[start..][2..] == inside;
    i := start + 2;
    while i < |text| && !(text[i] == '*' && i + 1 < |text| && text[i + 1] == '/')
      invariant start + 2 <= i <= |text|
      invariant BlockLength(inside) == (i - start - 2) + BlockLength(text[i..])
    {
      assert text[i..][1..] == text[i + 1..];
      i := i + 1;
    }
  }

  /** One character inside a string, with the escaped one after a backslash. */
  method ScanInString(text: string, i: nat) returns (written: string, next: nat, inString: bool)
    requires i < |text|
    ensures i < next && Todo(text, i, true) == written + Todo(text, next, inString)
  {
    hide Strip, StripInString, StringLength;
    StripInStringStep(text[i..]);
    assert text[i..][1..] == Rest(text, i + 1);
    written, next, inString := [text[i]], i + 1, true;
    if text[i] == '\\' {
      assert Rest(text, i + 2) == Rest(text[i..], 2);
      written, next := if i + 1 < |text| then [text[i], text[i + 1]] else [text[i]], i + 2;
      assert written == (if |text[i..]| >= 2 then text[i..][..2] else text[i..]);
    } else if text[i] == '"' {
      inString := false;
    }
  }

  lemma QuoteStep(text: string, i: nat)
    requires i < |text| && text[i] == '"'
    ensures Todo(text, i, false) == [text[i]] + Todo(text, i + 1, true)
  {
    StripOpensString(text[i..]);
    assert text[i..][1..] == Rest(text, i + 1);
  }

  lemma CommentStep(text: string, i: nat, next: nat)
    requires i < |text| && (OpensLine(text[i..]) || OpensBlock(text[i..]))
    requires Rest(text, next) == text[i..][HeadLength(text[i..])..]
    ensures Todo(text, i, false) == (if OpensLine(text[i..]) then "\n" else "") + Todo(text, next, false)
  {
    hide Strip;
    StripStep(text[i..]);
  }

  lemma TodoEnds(text: string, i: nat, inString: bool)
    ensures Todo(text, 0, false) == Strip(text)
    ensures i >= |text| ==> Todo(text, i, inString) == ""
  {
    assert text[0..] == text;
  }

  lemma PlainStep(text: string, i: nat)
    requires i < |text| && text[i] != '"' && !OpensLine(text[i..]) && !OpensBlock(text[i..])
    ensures Todo(text, i, false) == [text[i]] + Todo(text, i + 1, false)
  {
  }

  /** One character, an opening quote, or a whole comment. */
  method ScanOutside(text: string, i: nat) returns (written: string, next: nat, inString: bool)
    requires i < |text|
    ensures i < next && Todo(text, i, false) == written + Todo(text, next, inString)
  {
    hide Todo, HeadLength, Rest;
    if text[i] == '"' {
      QuoteStep(text, i);
      return [text[i]], i + 1, true;
    } else if text[i] == '/' && i + 1 < |text| && text[i + 1] == '/' {
      next := SkipLine(text, i);
      CommentStep(text, i, next + 1);
      return "\n", next + 1, false;
    } else if text[i] == '/' && i + 1 < |text| && text[i + 1] == '*' {
      next := SkipBlock(text, i);
      CommentStep(text, i, next + 2);
      return "", next + 2, false;
    }
    PlainStep(text, i);
    return [text[i]], i + 1, false;
  }

  /** The scanner: one pass, one index, one flag. */
  method StripJsonComments(text: string) returns (out: string)
    ensures out == Strip(text)
  {
    hide *;
    out := "";
    var inString := false;
    var i := 0;
    TodoEnds(text, 0, false);
    while i < |text|
      invariant Strip(text) == out + Todo(text, i, inString)
    {
      var written: string;
      ghost var before := out;
      if inString {
        written, i, inString := ScanInString(text, i);
      } else {
        written, i, inString := ScanOutside(text, i);
      }
      out := out + written;
      assert before + (written + Todo(text, i, inString)) == out + Todo(text, i, inString);
    }
    TodoEnds(text, i, inString);
  }

  // ----- what stripping keeps -----

  predicate IsComment(t: Token) { t.LineComment? || t.BlockComment? }

  predicate CommentFree(s: string) { forall t | t in Lex(s) :: !IsComment(t) }

  /** Line comments become their line feed, block comments vanish, everything else stays. */
  function CleanedToken(t: Token): seq<Token> {
    match t
    case LineComment(_) => [Plain('\n')]
    case BlockComment(_) => []
    case other => [other]
  }

  function Cleaned(ts: seq<Token>): seq<Token> {
    if ts == [] then [] else CleanedToken(ts[0]) + Cleaned(ts[1..])
  }

  function StringsOf(ts: seq<Token>): seq<string> {
    if ts == [] then [] else (if ts[0].Str? then [ts[0].raw] else []) + StringsOf(ts[1..])
  }

  /** A string that closes before the end of the text closes at the same place whatever follows it. */
  lemma {:induction false} StringClosesAlike(s: string, after: string)
    requires StringLength(s) < |s|
    ensures StringLength(s[..StringLength(s)] + after) == StringLength(s)
  {
    var n := StringLength(s);
    var u := s[..n] + after;
    if s[0] == '\\' {
      StringClosesAlike(s[2..], after);
      assert u[2..] == s[2..][..n - 2] + after;
    } else if s[0] != '"' {
      StringClosesAlike(s[1..], after);
      assert u[1..] == s[1..][..n - 1] + after;
    }
  }

  /** After a kept `/` the next written character is the next source character: removing a comment never joins two
      halves of a new one. */
  lemma NoSeam(s: string)
    requires s != "" && s[0] == '/' && HeadToken(s).Plain?
    ensures !OpensLine("/" + Strip(s[1..])) && !OpensBlock("/" + Strip(s[1..]))
  {
  }

  lemma PlainHead(c: char, tail: string)
    requires c != '"' && !OpensLine([c] + tail) && !OpensBlock([c] + tail)
    ensures Lex([c] + tail) == [Plain(c)] + Lex(tail)
  {
  }

  lemma StringHead(s: string, tail: string)
    requires s != "" && s[0] == '"'
    requires HeadLength(s) == |s| ==> tail == ""
    ensures Lex(s[..HeadLength(s)] + tail) == [HeadToken(s)] + Lex(tail)
  {
    var n := HeadLength(s);
    var u := s[..n] + tail;
    if n < |s| {
      StringClosesAlike(s[1..], tail);
      assert u[1..] == s[1..][..n - 1] + tail;
    } else {
      assert u == s;
    }
    assert HeadLength(u) == n && u[..n] == s[..n] && u[n..] == tail;
  }

  /** Lexing the stripped text gives the original tokens with the comments cleaned away, and nothing else changed. */
  lemma {:induction false} StrippedTokens(s: string)
    ensures Lex(Strip(s)) == Cleaned(Lex(s))
    decreases |s|
  {
    if s != "" {
      var rest := s[HeadLength(s)..];
      StrippedTokens(rest);
      StripStep(s);
      assert Lex(s)[1..] == Lex(rest);
      match HeadToken(s)
      case Plain(c) =>
        if c == '/' { NoSeam(s); }
        PlainHead(c, Strip(rest));
      case Str(_) => StringHead(s, Strip(rest));
      case LineComment(_) => PlainHead('\n', Strip(rest));
      case BlockComment(_) =>
        assert "" + Strip(rest) == Strip(rest);
    }
  }

  lemma {:induction false} CleanedFacts(ts: seq<Token>)
    ensures forall t | t in Cleaned(ts) :: !IsComment(t)
    ensures StringsOf(Cleaned(ts)) == StringsOf(ts)
    ensures (forall t | t in ts :: !IsComment(t)) ==> Cleaned(ts) == ts
  {
    if ts != [] {
      var rest := Cleaned(ts[1..]);
      CleanedFacts(ts[1..]);
      assert ts == [ts[0]] + ts[1..] && ts[0] in ts;
      match ts[0]
      case LineComment(_) => assert ([Plain('\n')] + rest)[1..] == rest;
      case BlockComment(_) => assert [] + rest == rest;
      case other => assert ([other] + rest)[1..] == rest;
    }
  }

  /** Text without a comment token is exactly what its tokens spell. */
  lemma FirstTokenStays(s: string)
    requires s != "" && CommentFree(s)
    ensures CommentFree(s[HeadLength(s)..]) && Written(HeadToken(s)) == s[..HeadLength(s)]
  {
    assert Lex(s)[1..] == Lex(s[HeadLength(s)..]);
    assert HeadToken(s) in Lex(s);
  }

  lemma {:induction false} CommentFreeUnchanged(s: string)
    requires CommentFree(s)
    ensures Strip(s) == s
    decreases |s|
  {
    if s != "" {
      hide Strip, HeadLength, HeadToken, CommentFree;
      FirstTokenStays(s);
      StripStep(s);
      CommentFreeUnchanged(s[HeadLength(s)..]);
    }
  }

  /** No comment survives outside a string, every string literal survives in order, and stripping again changes
      nothing. */
  lemma StripCorrect(s: string)
    ensures CommentFree(Strip(s))
    ensures StringsOf(Lex(Strip(s))) == StringsOf(Lex(s))
    ensures Strip(Strip(s)) == Strip(s)
    ensures Strip(s) == s <==> CommentFree(s)
  {
    StrippedTokens(s);
    CleanedFacts(Lex(s));
    CommentFreeUnchanged(Strip(s));
    if CommentFree(s) {
      CommentFreeUnchanged(s);
    }
  }
}
