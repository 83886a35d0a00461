/**
 * The changelog writer and reader: inserting a release section and extracting
 * one back. `From` and `AfterLine` cut the text the way the reader does.
 */
module Changelog {
  import opened Prelude
  import opened Text

  const MARK := "## ["
  const BREAK := "\n## ["

  function Header(version: string): string { MARK + version + "]" }

  const UNRELEASED := Header("Unreleased")

  // ----- the reader -----

  datatype ExtractError = NoSection | EmptySection

  /** The text from the first occurrence of `needle` on. */
  function From(s: string, needle: string): Option<string> {
    if Contains(s, needle) then Some(s[IndexOf(s, needle)..]) else None
  }

  function AfterLine(s: string): string {
    if IndexOf(s, "\n") == -1 then "" else s[IndexOf(s, "\n") + 1..]
  }

  /** Up to the next line that opens a section. */
  function SectionText(s: string): string {
    if Contains(s, BREAK) then s[..IndexOf(s, BREAK)] else s
  }

  function Answer(afterHeader: string): Result<string, ExtractError> {
    var body := Trim(SectionText(afterHeader));
    if body == "" then Err(EmptySection) else Ok(body)
  }

  function ExtractSection(changelog: string, version: string): Result<string, ExtractError> {
    var found := From(changelog, Header(version));
    if found.None? then Err(NoSection) else Answer(AfterLine(found.value))
  }

  // ----- the writer -----

  datatype InsertError = AlreadyHasSection

  function DropLeadingBreak(s: string): string { if s != "" && s[0] == '\n' then s[1..] else s }

  /** The new section between blank lines, and its lines alone. */
  function SpacedLines(h: string, body: string): string {
    if body != "" then "\n" + h + "\n\n" + body + "\n\n" else "\n" + h + "\n\n"
  }

  function PlainLines(h: string, body: string): string { h + (if body != "" then "\n\n" + body else "") }

  function InsertSection(changelog: string, version: string, date: string, body: string): Result<string, InsertError> {
    var header := Header(version) + " - " + date;
    if Contains(changelog, Header(version)) then Err(AlreadyHasSection)
    else
      var section := SpacedLines(header, body);
      var unreleased := IndexOf(changelog, UNRELEASED);
      if unreleased != -1 then
        var lineEnd := IndexOf(changelog[unreleased..], "\n");
        if lineEnd == -1 then Ok(changelog + "\n" + section)
        else
          var at := unreleased + lineEnd;
          Ok(changelog[..at + 1] + section + DropLeadingBreak(changelog[at + 1..]))
      else
        var firstSection := IndexOf(changelog, BREAK);
        var written := PlainLines(header, body);
        if firstSection == -1 then Ok(TrimEnd(changelog) + "\n\n" + written + "\n")
        else Ok(TrimEnd(changelog[..firstSection]) + "\n\n" + written + "\n\n"
          + DropLeadingBreak(changelog[firstSection..]))
  }

  // ----- one shape for the four branches -----

  /** What stands under the new header line: blank line, body, line feed, rest; an empty body is left out. */
  function Under(body: string, rest: string): string {
    if body == "" then rest else "" + "\n" + (body + "\n" + rest)
  }

  /** Kept text, blank line, header, and what stands under it. */
  function Compose(kept: string, header: string, body: string, rest: string): string {
    kept + "\n" + ("" + "\n" + (header + "\n" + Under(body, rest)))
  }

  function UnreleasedLineEnd(c: string): int
    requires Contains(c, UNRELEASED)
  {
    IndexOf(c[IndexOf(c, UNRELEASED)..], "\n")
  }

  /** What stays above the new section. */
  function Kept(c: string): string {
    if Contains(c, UNRELEASED) then
      if UnreleasedLineEnd(c) == -1 then c else c[..IndexOf(c, UNRELEASED) + UnreleasedLineEnd(c)]
    else if Contains(c, BREAK) then TrimEnd(c[..IndexOf(c, BREAK)])
    else TrimEnd(c)
  }

  /** What follows the new section's body line, or its header line when there is no body. */
  function After(c: string): string {
    if Contains(c, UNRELEASED) then
      if UnreleasedLineEnd(c) == -1 then "\n"
      else "\n" + DropLeadingBreak(c[IndexOf(c, UNRELEASED) + UnreleasedLineEnd(c) + 1..])
    else if Contains(c, BREAK) then c[IndexOf(c, BREAK)..]
    else ""
  }

  lemma ComposeUnreleased(kept: string, h: string, body: string, tail: string)
    ensures kept + "\n" + SpacedLines(h, body) + tail == Compose(kept, h, body, "\n" + tail)
  {
    if body == "" {
      assert kept + "\n" + ("\n" + h + "\n\n") + tail == kept + "\n" + ("" + "\n" + (h + "\n" + ("\n" + tail)));
    } else {
      ComposeWithBody(kept, h, body, tail);
    }
  }

  lemma ComposeWithBody(kept: string, h: string, body: string, tail: string)
    ensures kept + "\n" + ("\n" + h + "\n\n" + body + "\n\n") + tail ==
            kept + "\n" + ("" + "\n" + (h + "\n" + ("" + "\n" + (body + "\n" + ("\n" + tail)))))
  {
  }

  lemma ComposeSection(kept: string, h: string, body: string, rest: string)
    ensures kept + "\n\n" + PlainLines(h, body) + "\n" + rest == Compose(kept, h, body, rest)
  {
  }

  lemma InsertUnderUnreleased(c: string, v: string, d: string, body: string)
    requires !Contains(c, Header(v)) && Contains(c, UNRELEASED)
    ensures InsertSection(c, v, d, body) == Ok(Compose(Kept(c), Header(v) + " - " + d, body, After(c)))
  {
    hide IndexOf, DropLeadingBreak, Compose;
    var h := Header(v) + " - " + d;
    if UnreleasedLineEnd(c) == -1 {
      ComposeUnreleased(c, h, body, "");
      var section := SpacedLines(h, body);
      assert c + "\n" + section + "" == c + "\n" + section && "\n" + "" == "\n";
    } else {
      var from := IndexOf(c, UNRELEASED);
      var at := from + UnreleasedLineEnd(c);
      assert c[from..][UnreleasedLineEnd(c)..] == c[at..];
      BreakAt(c, at);
      assert c[..at + 1] == c[..at] + "\n";
      ComposeUnreleased(c[..at], h, body, DropLeadingBreak(c[at + 1..]));
    }
  }

  lemma InsertAboveSections(c: string, v: string, d: string, body: string)
    requires !Contains(c, Header(v)) && !Contains(c, UNRELEASED)
    ensures InsertSection(c, v, d, body) == Ok(Compose(Kept(c), Header(v) + " - " + d, body, After(c)))
  {
    var h := Header(v) + " - " + d;
    if Contains(c, BREAK) {
      var rest := c[IndexOf(c, BREAK)..];
      assert rest[0] == BREAK[0] == '\n';
      assert rest == "\n" + DropLeadingBreak(rest);
      ComposeSection(Kept(c), h, body, rest);
      var above := Kept(c) + "\n\n" + PlainLines(h, body);
      assert above + "\n\n" + DropLeadingBreak(rest) == above + "\n" + rest;
    } else {
      ComposeSection(Kept(c), h, body, "");
      var above := Kept(c) + "\n\n" + PlainLines(h, body) + "\n";
      assert above + "" == above;
    }
  }

  lemma InsertShape(c: string, v: string, d: string, body: string)
    requires !Contains(c, Header(v))
    ensures InsertSection(c, v, d, body) == Ok(Compose(Kept(c), Header(v) + " - " + d, body, After(c)))
  {
    if Contains(c, UNRELEASED) {
      InsertUnderUnreleased(c, v, d, body);
    } else {
      InsertAboveSections(c, v, d, body);
    }
  }

  // ----- reading across line feeds -----

  lemma FromAcross(a: string, b: string, needle: string)
    requires needle != "" && '\n' !in needle
    ensures From(a + "\n" + b, needle) ==
            if From(a, needle).Some? then Some(From(a, needle).value + "\n" + b) else From(b, needle)
  {
    hide IndexOf, White;
    IndexOfAcrossLine(a, b, needle);
    var s := a + "\n" + b;
    if Contains(a, needle) {
      assert s[IndexOf(a, needle)..] == a[IndexOf(a, needle)..] + "\n" + b;
    } else if Contains(b, needle) {
      assert s[|a| + 1 + IndexOf(b, needle)..] == b[IndexOf(b, needle)..];
    }
  }

  lemma AfterLineAcross(a: string, b: string)
    ensures '\n' in a ==> AfterLine(a + "\n" + b) == AfterLine(a) + "\n" + b
    ensures '\n' !in a ==> AfterLine(a + "\n" + b) == b
  {
    hide IndexOf;
    if '\n' in a {
      AfterLineSplits(a);
      var first, rest := a[..IndexOf(a, "\n")], AfterLine(a);
      assert a + "\n" + b == first + "\n" + (rest + "\n" + b);
      FirstLineIs(first, rest + "\n" + b);
    } else {
      FirstLineIs(a, b);
      assert (a + "\n" + b)[|a| + 1..] == b;
    }
  }

  lemma AfterLineSplits(a: string)
    requires '\n' in a
    ensures 0 <= IndexOf(a, "\n") < |a| && '\n' !in a[..IndexOf(a, "\n")]
    ensures a == a[..IndexOf(a, "\n")] + "\n" + AfterLine(a)
  {
    FirstLineSplits(a);
  }

  lemma TakeAcross(a: string, b: string, n: nat)
    ensures n <= |a| ==> (a + "\n" + b)[..n] == a[..n]
    ensures n <= |b| ==> (a + "\n" + b)[..|a| + 1 + n] == a + "\n" + b[..n]
  {
  }

  lemma SectionAcross(a: string, b: string)
    ensures SectionText(a + "\n" + b) ==
            if Contains(a, BREAK) then SectionText(a) else if MARK <= b then a else a + "\n" + SectionText(b)
  {
    hide IndexOf, White;
    BreakAcrossLine(a, b, MARK);
    assert "\n" + MARK == BREAK;
    hide IndexOf;
    TakeAcross(a, b, |a|);
    if Contains(a, BREAK) {
      TakeAcross(a, b, IndexOf(a, BREAK));
    } else if Contains(b, BREAK) {
      TakeAcross(a, b, IndexOf(b, BREAK));
    }
  }

  lemma NoMarkNoBreak(s: string)
    requires !Contains(s, MARK)
    ensures !Contains(s, BREAK)
  {
    var at := IndexOf(s, BREAK);
    if at >= 0 {
      assert MARK == BREAK[1..];
      assert s[at + 1..] == s[at..][1..];
      IndexOfIsFirst(s, MARK, at + 1);
    }
  }
}
