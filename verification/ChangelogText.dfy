/** What the changelog writer and reader do to the text itself, literally. */
module ChangelogText {
  import opened Prelude
  import opened Text
  import opened Changelog

  /** The needle starts at this place and at none before it. */
  predicate FirstAt(s: string, needle: string, at: nat) {
    at <= |s| && needle <= s[at..] && forall j | 0 <= j < at :: !(needle <= s[j..])
  }

  predicate Absent(s: string, needle: string) { forall j | 0 <= j <= |s| :: !(needle <= s[j..]) }

  lemma FoundFirst(s: string, needle: string, at: nat)
    requires FirstAt(s, needle, at)
    ensures IndexOf(s, needle) == at
  {
    IndexOfUnique(s, needle, at);
  }

  lemma NotFound(s: string, needle: string)
    requires Absent(s, needle)
    ensures IndexOf(s, needle) == -1
  {
    assert forall at | 0 <= at <= |s| :: !(needle <= s[at..]);
  }

  /** The new section: header, blank line, body, blank line; an empty body leaves the header alone. */
  function NewSection(v: string, d: string, body: string): string {
    "## [" + v + "] - " + d + "\n\n" + (if body == "" then "" else body + "\n\n")
  }

  lemma SpacedIs(v: string, d: string, body: string)
    ensures SpacedLines(Header(v) + " - " + d, body) == "\n" + NewSection(v, d, body)
  {
    var h := Header(v) + " - " + d;
    assert h == "## [" + v + "] - " + d;
    if body == "" {
      assert NewSection(v, d, body) == h + "\n\n";
    } else {
      assert NewSection(v, d, body) == h + "\n\n" + body + "\n\n";
      assert "\n" + h + "\n\n" + body + "\n\n" == "\n" + (h + "\n\n" + body + "\n\n");
    }
  }

  lemma LiteralMarks(v: string)
    ensures Header(v) == "## [" + v + "]" && UNRELEASED == "## [Unreleased]" && BREAK == "\n## ["
  {
  }

  /** With an Unreleased line, the section goes right under it behind one blank line, which takes the place of a blank
      line that stood there. */
  lemma InsertedUnderUnreleased(a: string, line: string, rest: string, v: string, d: string, body: string)
    requires '\n' !in line && "## [Unreleased]" <= line
    requires var c := a + line + "\n" + rest; FirstAt(c, "## [Unreleased]", |a|) && Absent(c, "## [" + v + "]")
    ensures InsertSection(a + line + "\n" + rest, v, d, body) ==
            Ok(a + line + "\n" + ("\n" + NewSection(v, d, body)) + (if "\n" <= rest then rest[1..] else rest))
  {
    hide IndexOf, SpacedLines, NewSection, Header;
    var c := a + line + "\n" + rest;
    LiteralMarks(v);
    FoundFirst(c, UNRELEASED, |a|);
    NotFound(c, Header(v));
    assert c[|a|..] == line + "\n" + rest;
    FirstLineIs(line, rest);
    var at := |a| + |line|;
    assert c[..at + 1] == a + line + "\n" && c[at + 1..] == rest;
    SpacedIs(v, d, body);
  }

  /** When that line ends the text, the section goes below it. */
  lemma InsertedAtTheEnd(a: string, line: string, v: string, d: string, body: string)
    requires '\n' !in line && "## [Unreleased]" <= line
    requires FirstAt(a + line, "## [Unreleased]", |a|) && Absent(a + line, "## [" + v + "]")
    ensures InsertSection(a + line, v, d, body) == Ok(a + line + "\n" + ("\n" + NewSection(v, d, body)))
  {
    hide IndexOf, SpacedLines, NewSection, Header;
    LiteralMarks(v);
    FoundFirst(a + line, UNRELEASED, |a|);
    NotFound(a + line, Header(v));
    assert (a + line)[|a|..] == line;
    NoBreakIn(line);
    SpacedIs(v, d, body);
  }

  lemma NoBreakIn(line: string)
    requires '\n' !in line
    ensures IndexOf(line, "\n") == -1
  {
    forall at | 0 <= at <= |line|
      ensures !("\n" <= line[at..])
    {
      assert at < |line| ==> line[at..][0] == line[at];
    }
    NotFound(line, "\n");
  }

  /** Without one, it goes above the first section, behind one blank line after what stands there. */
  lemma InsertedAboveSections(kept: string, blank: string, rest: string, v: string, d: string, body: string)
    requires AllWhite(blank) && (kept == "" || !White(kept[|kept| - 1]))
    requires var c := kept + blank + "\n## [" + rest;
             FirstAt(c, "\n## [", |kept + blank|) && Absent(c, "## [Unreleased]") && Absent(c, "## [" + v + "]")
    ensures InsertSection(kept + blank + "\n## [" + rest, v, d, body) ==
            Ok(kept + "\n\n" + NewSection(v, d, body) + ("## [" + rest))
  {
    hide IndexOf, NewSection, Header, TrimEnd, White;
    var head := kept + blank;
    var c := head + "\n## [" + rest;
    LiteralMarks(v);
    FoundFirst(c, BREAK, |head|);
    NotFound(c, UNRELEASED);
    NotFound(c, Header(v));
    assert c[..|head|] == head && c[|head|..] == "\n## [" + rest;
    assert ("\n## [" + rest)[1..] == "## [" + rest;
    TrimmedAtTheEnd(kept, blank);
    PlainIs(v, d, body);
    var plain := PlainLines(Header(v) + " - " + d, body);
    assert kept + "\n\n" + plain + "\n\n" + ("## [" + rest) == kept + "\n\n" + (plain + "\n\n") + ("## [" + rest);
  }

  lemma TrimmedAtTheEnd(kept: string, blank: string)
    requires AllWhite(blank) && (kept == "" || !White(kept[|kept| - 1]))
    ensures TrimEnd(kept + blank) == kept
  {
    TrimEndPad(kept, blank);
  }

  /** With no section at all, it goes below what stands there. */
  lemma InsertedBelow(kept: string, blank: string, v: string, d: string, body: string)
    requires AllWhite(blank) && (kept == "" || !White(kept[|kept| - 1]))
    requires var c := kept + blank;
             Absent(c, "\n## [") && Absent(c, "## [Unreleased]") && Absent(c, "## [" + v + "]")
    ensures InsertSection(kept + blank, v, d, body) ==
            Ok(kept + "\n\n" + ("## [" + v + "] - " + d + (if body == "" then "" else "\n\n" + body)) + "\n")
  {
    hide IndexOf, TrimEnd, White;
    LiteralMarks(v);
    NotFound(kept + blank, BREAK);
    NotFound(kept + blank, UNRELEASED);
    NotFound(kept + blank, Header(v));
    TrimmedAtTheEnd(kept, blank);
    var plain := "## [" + v + "] - " + d + (if body == "" then "" else "\n\n" + body);
    assert PlainLines(Header(v) + " - " + d, body) == plain;
    assert InsertSection(kept + blank, v, d, body) ==
           Ok(kept + "\n\n" + PlainLines(Header(v) + " - " + d, body) + "\n");
  }

  /** A changelog that names the version already is refused, wherever it does; no other is. */
  lemma RefusedIffPresent(c: string, v: string, d: string, body: string)
    ensures InsertSection(c, v, d, body).Err? <==> !Absent(c, "## [" + v + "]")
  {
    LiteralMarks(v);
    if Absent(c, "## [" + v + "]") {
      NotFound(c, "## [" + v + "]");
    } else {
      var j :| 0 <= j <= |c| && "## [" + v + "]" <= c[j..];
      IndexOfIsFirst(c, "## [" + v + "]", j);
    }
  }

  // ----- the reader -----

  /** A version's section reads as the text under its header line, trimmed, up to the next line that opens one; blank
      text is an error. */
  lemma ReadsItsSection(a: string, line: string, below: string, v: string, p: string, body: string, q: string)
    requires '\n' !in line && "## [" + v + "]" <= line && FirstAt(a + line + "\n" + below, "## [" + v + "]", |a|)
    requires AllWhite(p) && AllWhite(q) && Trimmed(body)
    requires var text := p + body + q;
             || (below == text && Absent(below, "\n## ["))
             || (text <= below && FirstAt(below, "\n## [", |text|))
    ensures ExtractSection(a + line + "\n" + below, v) == if body == "" then Err(EmptySection) else Ok(body)
  {
    hide IndexOf, Trim, Trimmed, White;
    var c, text := a + line + "\n" + below, p + body + q;
    LiteralMarks(v);
    FoundFirst(c, Header(v), |a|);
    assert c[|a|..] == line + "\n" + below;
    FirstLineIs(line, below);
    assert (line + "\n" + below)[|line| + 1..] == below;
    if text <= below && FirstAt(below, "\n## [", |text|) {
      FoundFirst(below, BREAK, |text|);
      assert below[..|text|] == text;
    } else {
      NotFound(below, BREAK);
    }
    TrimPad(p, body, q);
    TrimmedUnchanged(body);
  }

  /** A version that is not there has no section, and one whose header line ends the text an empty one. */
  lemma ReadsNothing(c: string, a: string, line: string, v: string)
    ensures Absent(c, "## [" + v + "]") ==> ExtractSection(c, v) == Err(NoSection)
    ensures c == a + line && '\n' !in line && "## [" + v + "]" <= line && FirstAt(c, "## [" + v + "]", |a|) ==>
            ExtractSection(c, v) == Err(EmptySection)
  {
    hide IndexOf;
    LiteralMarks(v);
    if Absent(c, "## [" + v + "]") {
      NotFound(c, Header(v));
    } else if c == a + line && '\n' !in line && FirstAt(c, "## [" + v + "]", |a|) {
      FoundFirst(c, Header(v), |a|);
      assert c[|a|..] == line;
      NoBreakIn(line);
      NothingThere();
    }
  }

  lemma NothingThere()
    ensures Answer("") == Err(EmptySection)
  {
  }

  lemma PlainIs(v: string, d: string, body: string)
    ensures PlainLines(Header(v) + " - " + d, body) + "\n\n" == NewSection(v, d, body)
  {
  }
}
