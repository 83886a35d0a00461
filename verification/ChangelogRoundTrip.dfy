/** What inserting a release section does to every section the reader can extract. */
module ChangelogRoundTrip {
  import opened Prelude
  import opened Text
  import opened Changelog

  /** A version as the section header spells it: one line, no bracket, no hash sign. */
  predicate PlainVersion(v: string) { '\n' !in v && ']' !in v && '#' !in v }

  predicate PlainDate(d: string) { '\n' !in d && '#' !in d }

  /** A release body: trimmed, not empty, opening no section of its own. */
  predicate ReleaseBody(body: string) { body != "" && Trimmed(body) && !Contains(body, MARK) }

  /** Section marks stand at line starts only. */
  predicate MarksAtLineStarts(c: string) {
    forall i | 0 <= i < |c| && MARK <= c[i..] :: i == 0 || c[i - 1] == '\n'
  }

  /** What the reader sees of the text under a line, up to the next section line. */
  function Gap(below: string): string { if MARK <= below then "" else SectionText(below) }

  /** What stands between the Unreleased line and the next section. */
  function UnreleasedText(c: string): string {
    Gap(AfterLine(if Contains(c, UNRELEASED) then c[IndexOf(c, UNRELEASED)..] else ""))
  }

  // ----- small facts -----

  lemma HeaderFacts(v: string)
    requires PlainVersion(v)
    ensures Header(v) != "" && '\n' !in Header(v) && MARK <= Header(v)
    ensures Header(v)[|Header(v)| - 1] == ']'
  {
  }

  lemma HeaderEndsAtBracket(v: string, s: string)
    requires ']' !in v && Header(v) <= s
    ensures |s| >= 4 && v == s[4..4 + |v|] && IndexOf(s[4..], "]") == |v|
  {
    hide IndexOf, White;
    var tail := s[4..];
    assert forall i | 0 <= i <= |v| :: tail[i] == s[4 + i] == Header(v)[4 + i];
    assert tail[|v|..][0] == ']';
    assert forall j | 0 <= j < |v| :: tail[j..][0] == v[j];
    IndexOfUnique(tail, "]", |v|);
  }

  lemma SameHeader(v: string, w: string, s: string)
    requires ']' !in v && ']' !in w && Header(v) <= s && Header(w) <= s
    ensures v == w
  {
    HeaderEndsAtBracket(v, s);
    HeaderEndsAtBracket(w, s);
  }

  /** The new header line carries no other version's header. */
  lemma OtherHeaderAbsent(v: string, d: string, w: string)
    requires PlainVersion(v) && PlainDate(d) && ']' !in w && v != w
    ensures !Contains(Header(v) + " - " + d, Header(w))
  {
    hide IndexOf, White;
    var h := Header(v) + " - " + d;
    var at := IndexOf(h, Header(w));
    if at == 0 {
      assert h[0..] == h;
      SameHeader(v, w, h);
    } else if at > 0 {
      var line := h[at..];
      assert h[at] == line[0] == Header(w)[0] == '#';
      assert h[at + 1] == line[1] == Header(w)[1] == '#';
      HashesOnlyInFront(v, d, at + 1);
    }
  }

  lemma HashesOnlyInFront(v: string, d: string, i: nat)
    requires PlainVersion(v) && PlainDate(d)
    ensures 2 <= i < |Header(v) + " - " + d| ==> (Header(v) + " - " + d)[i] != '#'
  {
  }

  lemma HeaderNotInBody(body: string, w: string)
    requires !Contains(body, MARK)
    ensures !Contains(body, Header(w))
  {
    var at := IndexOf(body, Header(w));
    if at >= 0 {
      assert MARK <= Header(w) <= body[at..];
      IndexOfIsFirst(body, MARK, at);
    }
  }

  /** White text appended changes neither where a needle is found nor what follows it. */
  lemma {:induction false} FromWhite(s: string, ws: string, needle: string)
    requires AllWhite(ws) && needle != "" && !White(needle[|needle| - 1])
    ensures From(s + ws, needle) == if From(s, needle).Some? then Some(From(s, needle).value + ws) else None
  {
    hide IndexOf, White;
    if Contains(s, needle) {
      var at := IndexOf(s, needle);
      assert (s + ws)[at..] == s[at..] + ws;
      IndexOfIsFirst(s + ws, needle, at);
      var first := IndexOf(s + ws, needle);
      PrefixBeforeWhite(s, ws, needle, first);
      IndexOfIsFirst(s, needle, first);
      IndexOfIsFirst(s + ws, needle, at);
    } else if Contains(s + ws, needle) {
      var first := IndexOf(s + ws, needle);
      PrefixBeforeWhite(s, ws, needle, first);
      IndexOfIsFirst(s, needle, first);
    }
  }

  lemma PrefixBeforeWhite(s: string, ws: string, needle: string, at: nat)
    requires AllWhite(ws) && needle != "" && !White(needle[|needle| - 1])
    requires at <= |s + ws| && needle <= (s + ws)[at..]
    ensures at <= |s| && needle <= s[at..]
  {
  }

  lemma AnswerWhite(s: string)
    requires AllWhite(s)
    ensures Answer(s) == Err(EmptySection)
  {
    AllWhiteTrims(SectionText(s));
  }

  lemma AnswerPadded(s: string, ws: string)
    requires AllWhite(ws) && SectionText(s) == s && SectionText(s + ws) == s + ws
    ensures Answer(s + ws) == Answer(s)
  {
    TrimEndCommutes(s, ws);
  }

  lemma InkNotInWhite(s: string, needle: string, i: nat)
    requires i < |needle| && !White(needle[i])
    ensures Contains(s, needle) ==> !AllWhite(s)
  {
  }

  lemma NoBreakInWhite(s: string)
    requires AllWhite(s)
    ensures !Contains(s, BREAK) && SectionText(s) == s
  {
    assert BREAK[1] == '#';
    InkNotInWhite(s, BREAK, 1);
  }

  // ----- the new section -----

  lemma FromSkips(q: string, r: string, needle: string)
    requires needle != "" && '\n' !in needle && !Contains(q, needle)
    ensures From(q + "\n" + ("" + "\n" + r), needle) == From(r, needle)
  {
    FromAcross(q, "" + "\n" + r, needle);
    FromAcross("", r, needle);
    assert !Contains("", needle);
  }

  lemma AnswerAtHeader(h: string, tail: string, v: string)
    requires PlainVersion(v) && Header(v) <= h && '\n' !in h
    ensures From(h + "\n" + tail, Header(v)) == Some(h + "\n" + tail) && AfterLine(h + "\n" + tail) == tail
  {
    HeaderFacts(v);
    FromAcross(h, tail, Header(v));
    assert h[0..] == h;
    IndexOfIsFirst(h, Header(v), 0);
    AfterLineAcross(h, tail);
  }

  lemma ComposedFound(q: string, v: string, d: string, tail: string)
    requires PlainVersion(v) && PlainDate(d) && !Contains(q, Header(v))
    ensures ExtractSection(q + "\n" + ("" + "\n" + (Header(v) + " - " + d + "\n" + tail)), v) == Answer(tail)
  {
    var h := Header(v) + " - " + d;
    HeaderFacts(v);
    FromSkips(q, h + "\n" + tail, Header(v));
    AnswerAtHeader(h, tail, v);
  }

  lemma ComposedText(body: string, rest: string)
    requires ReleaseBody(body)
    ensures SectionText("" + "\n" + (body + "\n" + rest)) ==
            "" + "\n" + body + (if MARK <= rest then "" else "\n" + SectionText(rest))
  {
    SectionAcross("", body + "\n" + rest);
    SectionAcross(body, rest);
    NoMarkNoBreak(body);
    MarkNotAhead(body, rest);
  }

  lemma MarkNotAhead(body: string, rest: string)
    requires !Contains(body, MARK)
    ensures !(MARK <= body + "\n" + rest)
  {
    assert body[0..] == body;
    if MARK <= body + "\n" + rest {
      PrefixAcross(body, rest, MARK);
    }
  }

  function Extra(rest: string): string { if MARK <= rest then "" else "\n" + SectionText(rest) }

  lemma BreakGap(tail: string)
    ensures Extra("" + "\n" + tail) == "\n" + (if MARK <= tail then "" else "\n" + SectionText(tail))
  {
    hide IndexOf, Contains;
    NoMarkInNothing();
    SectionAcross("", tail);
    MarkNotAhead("", tail);
  }

  lemma NoMarkInNothing()
    ensures !Contains("", BREAK) && !Contains("", MARK)
  {
  }

  lemma DropTwice(c: string, i: nat, j: nat)
    requires i + j <= |c|
    ensures c[i..][j..] == c[i + j..]
  {
  }

  lemma EmptyBefore(s: string, t: string)
    ensures "" + s + t == s + t
  {
  }

  lemma AfterUnderUnreleased(c: string)
    requires Contains(c, UNRELEASED) && UnreleasedLineEnd(c) != -1
    ensures After(c) == "" + "\n" + DropLeadingBreak(AfterLine(c[IndexOf(c, UNRELEASED)..]))
  {
    hide IndexOf;
    DropTwice(c, IndexOf(c, UNRELEASED), UnreleasedLineEnd(c) + 1);
    EmptyBefore("\n", DropLeadingBreak(AfterLine(c[IndexOf(c, UNRELEASED)..])));
  }

  lemma GapUnderUnreleased(c: string)
    requires Contains(c, UNRELEASED)
    ensures AllWhite(Extra(After(c))) <==> AllWhite(UnreleasedText(c))
  {
    var below := AfterLine(c[IndexOf(c, UNRELEASED)..]);
    if UnreleasedLineEnd(c) == -1 {
      NoBreakInWhite("\n");
      NoBreakInWhite("");
      assert below == "";
    } else {
      var tail := DropLeadingBreak(below);
      AfterUnderUnreleased(c);
      BreakGap(tail);
      GapWhite(below, tail);
      assert UnreleasedText(c) == if MARK <= below then "" else SectionText(below);
    }
  }

  lemma GapAboveSections(c: string)
    requires !Contains(c, UNRELEASED)
    ensures AllWhite(Extra(After(c))) && UnreleasedText(c) == ""
  {
  }

  /** What the reader would append to the new body: blank exactly when the gap before the next section is. */
  lemma RestGap(c: string)
    ensures AllWhite(Extra(After(c))) <==> AllWhite(UnreleasedText(c))
  {
    if Contains(c, UNRELEASED) {
      GapUnderUnreleased(c);
    } else {
      GapAboveSections(c);
    }
  }

  lemma GapWhite(below: string, tail: string)
    requires tail == DropLeadingBreak(below)
    ensures AllWhite("\n" + (if MARK <= tail then "" else "\n" + SectionText(tail)))
            <==> AllWhite(if MARK <= below then "" else SectionText(below))
  {
    if tail != below {
      assert below == "" + "\n" + tail;
      SectionAcross("", tail);
    }
    WhiteCons("\n" + SectionText(tail));
    WhiteCons(SectionText(tail));
    WhiteCons("");
  }

  lemma WhiteCons(s: string)
    ensures AllWhite("\n" + s) <==> AllWhite(s)
  {
    if AllWhite("\n" + s) {
      assert forall i | 0 <= i < |s| :: s[i] == ("\n" + s)[i + 1];
    }
  }

  lemma KeptHasNoHeader(c: string, v: string)
    requires !Contains(c, Header(v))
    ensures !Contains(Kept(c), Header(v))
  {
    KeptIsPrefix(c);
    if Contains(Kept(c), Header(v)) {
      var at := IndexOf(Kept(c), Header(v));
      assert Header(v) <= Kept(c)[at..] <= c[at..];
      IndexOfIsFirst(c, Header(v), at);
    }
  }

  /**
   * Extracting the version just inserted gives back its body exactly when
   * nothing but blank text stood between the Unreleased line and the next
   * section; a second insert of the same version is always refused.
   */
  lemma RoundTrip(c: string, v: string, d: string, body: string)
    requires PlainVersion(v) && PlainDate(d) && ReleaseBody(body) && !Contains(c, Header(v))
    ensures var inserted := InsertSection(c, v, d, body);
            && inserted.Ok?
            && (ExtractSection(inserted.value, v) == Ok(body) <==> AllWhite(UnreleasedText(c)))
            && forall d', body' :: InsertSection(inserted.value, v, d', body') == Err(AlreadyHasSection)
  {
    InsertShape(c, v, d, body);
    KeptHasNoHeader(c, v);
    var tail := "" + "\n" + (body + "\n" + After(c));
    ComposedFound(Kept(c), v, d, tail);
    ComposedText(body, After(c));
    RestGap(c);
    TrimKeepsExtra("" + "\n", body, Extra(After(c)));
  }

  lemma TrimLeadingBreak(s: string)
    ensures Trim("\n" + s) == Trim(s)
  {
    assert "\n" + s + "" == "\n" + s;
    TrimPad("\n", s, "");
  }

  /** Notes read as a section of their own. */
  function AnswerNotes(notes: string): Result<string, ExtractError> {
    if AllWhite(notes) then Err(EmptySection) else Ok(Trim(notes))
  }

  lemma AnswerGap(tail: string)
    ensures Answer("" + "\n" + tail) == AnswerNotes(Gap(tail))
  {
    hide Trim, IndexOf;
    NoMarkInNothing();
    SectionAcross("", tail);
    TrimLeadingBreak(SectionText(tail));
    AllWhiteTrims("");
    AllWhiteTrims(SectionText(tail));
    assert "" + "\n" + SectionText(tail) == "\n" + SectionText(tail);
  }

  lemma GapOfBreak(tail: string)
    ensures Trim(Gap("" + "\n" + tail)) == Trim(Gap(tail)) && (AllWhite(Gap("" + "\n" + tail)) <==> AllWhite(Gap(tail)))
  {
    hide Trim, IndexOf;
    NoMarkInNothing();
    SectionAcross("", tail);
    MarkNotAhead("", tail);
    TrimLeadingBreak(SectionText(tail));
    WhiteCons(SectionText(tail));
    assert "" + "\n" + SectionText(tail) == "\n" + SectionText(tail);
  }

  lemma AnswerUnderUnreleased(below: string)
    ensures Answer("" + "\n" + DropLeadingBreak(below)) == AnswerNotes(Gap(below))
  {
    hide Trim, Gap;
    var tail := DropLeadingBreak(below);
    AnswerGap(tail);
    if tail != below {
      assert below == "" + "\n" + tail;
      GapOfBreak(tail);
    }
  }

  lemma AnswerAfter(c: string)
    ensures Answer(After(c)) == AnswerNotes(UnreleasedText(c))
  {
    hide Trim;
    if !Contains(c, UNRELEASED) {
      GapAboveSections(c);
      RestIsSection(c);
    } else if UnreleasedLineEnd(c) == -1 {
      AnswerWhite("\n");
      NoBreakInWhite("");
    } else {
      AfterUnderUnreleased(c);
      AnswerUnderUnreleased(AfterLine(c[IndexOf(c, UNRELEASED)..]));
    }
  }

  lemma RestIsSection(c: string)
    requires !Contains(c, UNRELEASED)
    ensures Answer(After(c)) == Err(EmptySection)
  {
    if Contains(c, BREAK) {
      assert After(c)[0..] == After(c);
      IndexOfIsFirst(After(c), BREAK, 0);
      assert SectionText(After(c)) == "";
    }
    AnswerWhite("");
  }

  /**
   * An empty release writes a header alone. Extracting it gives the notes that
   * stood under the Unreleased line, which its header now heads, and fails as
   * empty when there were none; a second insert is refused.
   */
  lemma EmptyRelease(c: string, v: string, d: string)
    requires PlainVersion(v) && PlainDate(d) && !Contains(c, Header(v))
    ensures var inserted := InsertSection(c, v, d, "");
            && inserted.Ok?
            && ExtractSection(inserted.value, v) == AnswerNotes(UnreleasedText(c))
            && forall d', body' :: InsertSection(inserted.value, v, d', body') == Err(AlreadyHasSection)
  {
    hide Trim, UnreleasedText, After, Kept;
    InsertShape(c, v, d, "");
    KeptHasNoHeader(c, v);
    ComposedFound(Kept(c), v, d, After(c));
    AnswerAfter(c);
  }

  lemma KeptIsPrefix(c: string)
    ensures Kept(c) <= c
  {
  }
}
