/** What stripping does to each piece of a text, said without the lexer: these laws determine the result on every
    text. */
module CommentLaws {
  import opened JsonComments

  /** Text as it stands between two quotes: no bare quote, every backslash with the character it escapes. */
  predicate Quotable(s: string) {
    || s == ""
    || (s[0] != '"' && s[0] != '\\' && Quotable(s[1..]))
    || (s[0] == '\\' && |s| >= 2 && Quotable(s[2..]))
  }

  predicate NoEndMark(s: string) { forall i | 0 <= i < |s| :: !("*/" <= s[i..]) }

  // ----- how far each piece reaches -----

  lemma {:induction false} LineReaches(line: string, tail: string)
    requires '\n' !in line && (tail == "" || tail[0] == '\n')
    ensures LineLength(line + tail) == |line| + if tail == "" then 0 else 1
  {
    if line != "" {
      assert (line + tail)[1..] == line[1..] + tail;
      LineReaches(line[1..], tail);
    } else {
      assert line + tail == tail;
    }
  }

  lemma {:induction false} BlockReaches(body: string, tail: string)
    requires NoEndMark(body) && (tail == "" || "*/" <= tail)
    ensures BlockLength(body + tail) == |body| + if tail == "" then 0 else 2
  {
    if body != "" {
      assert (body + tail)[1..] == body[1..] + tail;
      forall i | 0 <= i < |body[1..]|
        ensures !("*/" <= body[1..][i..])
      {
        assert body[1..][i..] == body[i + 1..];
      }
      BlockReaches(body[1..], tail);
      assert !("*/" <= body[0..]);
    } else {
      assert body + tail == tail;
    }
  }

  lemma {:induction false} StringReaches(s: string, tail: string)
    requires Quotable(s) && (tail == "" || tail == "\\" || tail[0] == '"')
    ensures StringLength(s + tail) == |s| + if tail == "" then 0 else 1
  {
    if s == "" {
      assert s + tail == tail;
    } else if s[0] == '\\' {
      assert (s + tail)[2..] == s[2..] + tail;
      StringReaches(s[2..], tail);
    } else {
      assert (s + tail)[1..] == s[1..] + tail;
      StringReaches(s[1..], tail);
    }
  }

  // ----- the laws -----

  /** A line comment reaches to its line feed, which stays, or to the end of the text. */
  lemma LineCommentLaw(line: string, rest: string)
    requires '\n' !in line
    ensures Strip("//" + line + "\n" + rest) == "\n" + Strip(rest)
    ensures Strip("//" + line) == "\n"
  {
    var closed := "//" + line + "\n" + rest;
    LineReaches("//" + line, "\n" + rest);
    assert closed == ("//" + line) + ("\n" + rest);
    assert closed[|line| + 3..] == rest;
    StripStep(closed);
    var open := "//" + line;
    LineReaches(open, "");
    assert open + "" == open;
    StripStep(open);
    NothingToStrip();
  }

  /** A block comment reaches to the first end mark after its opening mark, or to the end of the text; it leaves
      nothing. */
  lemma BlockCommentLaw(body: string, rest: string)
    requires NoEndMark(body)
    ensures Strip("/*" + body + "*/" + rest) == Strip(rest)
    ensures Strip("/*" + body) == ""
  {
    var closed := "/*" + body + "*/" + rest;
    BlockReaches(body, "*/" + rest);
    assert closed[2..] == body + ("*/" + rest);
    assert closed[|body| + 4..] == rest;
    StripStep(closed);
    assert "" + Strip(rest) == Strip(rest);
    var open := "/*" + body;
    BlockReaches(body, "");
    assert open[2..] == body + "";
    assert open[|body| + 2..] == "";
    StripStep(open);
    NothingToStrip();
  }

  lemma ClosedString(s: string, rest: string)
    requires Quotable(s)
    ensures Strip("\"" + s + "\"" + rest) == "\"" + s + "\"" + Strip(rest)
  {
    hide Strip, StringLength, Quotable;
    var closed := "\"" + s + "\"" + rest;
    StringReaches(s, "\"" + rest);
    assert closed[1..] == s + ("\"" + rest);
    assert closed[..|s| + 2] == "\"" + s + "\"" && closed[|s| + 2..] == rest;
    StripStep(closed);
  }

  lemma UnclosedString(s: string, tail: string)
    requires Quotable(s) && (tail == "" || tail == "\\")
    ensures Strip("\"" + s + tail) == "\"" + s + tail
  {
    hide Strip, StringLength, Quotable;
    var open := "\"" + s + tail;
    StringReaches(s, tail);
    assert open[1..] == s + tail;
    assert open[..|open|] == open && open[|open|..] == "";
    StripStep(open);
    NothingToStrip();
    assert open + "" == open;
  }

  /** A string reaches to its first unescaped quote, or to the end of the text; it stays as it is, whatever it holds. */
  lemma StringLaw(s: string, rest: string)
    requires Quotable(s)
    ensures Strip("\"" + s + "\"" + rest) == "\"" + s + "\"" + Strip(rest)
    ensures Strip("\"" + s) == "\"" + s
    ensures Strip("\"" + s + "\\") == "\"" + s + "\\"
  {
    hide *;
    ClosedString(s, rest);
    UnclosedString(s, "");
    UnclosedString(s, "\\");
    assert "\"" + s + "" == "\"" + s;
  }

  /** Every other character stays. */
  lemma PlainLaw(c: char, rest: string)
    requires c != '"' && !("//" <= [c] + rest) && !("/*" <= [c] + rest)
    ensures Strip([c] + rest) == [c] + Strip(rest)
    ensures Strip("") == ""
  {
    NothingToStrip();
    StripStep([c] + rest);
    assert ([c] + rest)[1..] == rest;
  }

  // ----- every text falls apart into such pieces -----

  ghost predicate LineAt(s: string, line: string, tail: string) {
    s == line + tail && '\n' !in line && (tail == "" || tail[0] == '\n')
  }

  ghost predicate BlockAt(s: string, body: string, tail: string) {
    s == body + tail && NoEndMark(body) && (tail == "" || "*/" <= tail)
  }

  ghost predicate StringAt(s: string, text: string, tail: string) {
    s == text + tail && Quotable(text) && (tail == "" || tail == "\\" || tail[0] == '"')
  }

  lemma {:induction false} LineEnds(s: string) returns (line: string, tail: string)
    ensures LineAt(s, line, tail)
  {
    if s == "" || s[0] == '\n' {
      line, tail := "", s;
    } else {
      line, tail := LineEnds(s[1..]);
      line := [s[0]] + line;
    }
  }

  lemma {:induction false} BlockEnds(s: string) returns (body: string, tail: string)
    ensures BlockAt(s, body, tail)
  {
    if s == "" || "*/" <= s {
      body, tail := "", s;
    } else {
      var inside: string;
      inside, tail := BlockEnds(s[1..]);
      body := [s[0]] + inside;
      forall i | 0 <= i < |body|
        ensures !("*/" <= body[i..])
      {
        assert i > 0 ==> body[i..] == inside[i - 1..];
        assert i == 0 ==> body[i..] <= s;
      }
    }
  }

  lemma {:induction false} StringEnds(s: string) returns (text: string, tail: string)
    ensures StringAt(s, text, tail)
  {
    if s == "" || s == "\\" || s[0] == '"' {
      text, tail := "", s;
    } else if s[0] == '\\' {
      text, tail := StringEnds(s[2..]);
      text := s[..2] + text;
      assert text[2..] + tail == s[2..];
    } else {
      text, tail := StringEnds(s[1..]);
      text := [s[0]] + text;
    }
  }

  predicate PlainPiece(head: string, rest: string) {
    |head| == 1 && head != "\"" && !("//" <= head + rest) && !("/*" <= head + rest)
  }

  predicate LinePiece(head: string, line: string, rest: string) {
    '\n' !in line && (head == "//" + line + "\n" || (head == "//" + line && rest == ""))
  }

  predicate BlockPiece(head: string, body: string, rest: string) {
    NoEndMark(body) && (head == "/*" + body + "*/" || (head == "/*" + body && rest == ""))
  }

  predicate StringPiece(head: string, text: string, rest: string) {
    Quotable(text)
    && (head == "\"" + text + "\"" || (rest == "" && (head == "\"" + text || head == "\"" + text + "\\")))
  }

  /** `head` is the first piece of `head + rest`, and `written` is what stays of it. */
  ghost predicate Piece(head: string, written: string, rest: string) {
    || (PlainPiece(head, rest) && written == head)
    || (exists line :: LinePiece(head, line, rest) && written == "\n")
    || (exists body :: BlockPiece(head, body, rest) && written == "")
    || (exists text :: StringPiece(head, text, rest) && written == head)
  }

  /** Stripping writes what stays of a text's first piece and goes on behind it. */
  lemma StripByPieces(head: string, written: string, rest: string)
    requires Piece(head, written, rest)
    ensures Strip(head + rest) == written + Strip(rest)
    ensures Strip("") == ""
  {
    hide Strip, Quotable, NoEndMark;
    NothingToStrip();
    assert rest == "" ==> head + rest == head && written + Strip(rest) == written;
    if PlainPiece(head, rest) && written == head {
      PlainLaw(head[0], rest);
      assert head == [head[0]];
    } else if line :| LinePiece(head, line, rest) && written == "\n" {
      LineCommentLaw(line, rest);
    } else if body :| BlockPiece(head, body, rest) && written == "" {
      BlockCommentLaw(body, rest);
      assert written + Strip(rest) == Strip(rest);
    } else if text :| StringPiece(head, text, rest) && written == head {
      StringLaw(text, rest);
    }
  }

  lemma FirstLine(s: string) returns (head: string, line: string, rest: string)
    requires "//" <= s
    ensures s == head + rest && head != "" && LinePiece(head, line, rest)
  {
    var tail;
    line, tail := LineEnds(s[2..]);
    assert s == "//" + (line + tail);
    head, rest := s, "";
    if tail != "" {
      head, rest := "//" + line + "\n", tail[1..];
      assert tail == "\n" + rest;
    }
  }

  lemma FirstBlock(s: string) returns (head: string, body: string, rest: string)
    requires "/*" <= s
    ensures s == head + rest && head != "" && BlockPiece(head, body, rest)
  {
    hide NoEndMark;
    var tail;
    body, tail := BlockEnds(s[2..]);
    assert s == "/*" + (body + tail);
    head, rest := s, "";
    if tail != "" {
      head, rest := "/*" + body + "*/", tail[2..];
      assert tail == "*/" + rest;
    }
  }

  lemma FirstString(s: string) returns (head: string, text: string, rest: string)
    requires "\"" <= s
    ensures s == head + rest && head != "" && StringPiece(head, text, rest)
  {
    hide Quotable;
    var tail;
    text, tail := StringEnds(s[1..]);
    assert s == "\"" + (text + tail);
    head, rest := s, "";
    if tail != "" && tail[0] == '"' {
      head, rest := "\"" + text + "\"", tail[1..];
      assert tail == "\"" + rest;
    }
  }

  /** Every text has a first piece, so the pieces determine what stripping gives. */
  lemma FirstPiece(s: string) returns (head: string, written: string, rest: string)
    requires s != ""
    ensures s == head + rest && head != "" && Piece(head, written, rest)
  {
    hide LinePiece, BlockPiece, StringPiece;
    var inner: string;
    if "//" <= s {
      head, inner, rest := FirstLine(s);
      written := "\n";
    } else if "/*" <= s {
      head, inner, rest := FirstBlock(s);
      written := "";
    } else if "\"" <= s {
      head, inner, rest := FirstString(s);
      written := head;
    } else {
      head, written, rest := s[..1], s[..1], s[1..];
      assert head + rest == s;
    }
  }

  // ----- the tokens -----

  function Raw(t: Token): string { if t.Plain? then [t.c] else t.raw }

  function Spelled(ts: seq<Token>): string { if ts == [] then "" else Raw(ts[0]) + Spelled(ts[1..]) }

  /** The tokens spell the text: none is lost, none is invented. */
  lemma {:induction false} TokensSpellTheText(s: string)
    ensures Spelled(Lex(s)) == s
    decreases |s|
  {
    if s != "" {
      var n := HeadLength(s);
      TokensSpellTheText(s[n..]);
      assert Lex(s)[1..] == Lex(s[n..]);
      assert s == s[..n] + s[n..];
    }
  }
}
