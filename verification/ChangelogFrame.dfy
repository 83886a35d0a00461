/** Inserting a release section leaves every other version's section as it was — and exactly when it does not. */
module ChangelogFrame {
  import opened Prelude
  import opened Text
  import opened Changelog
  import opened ChangelogRoundTrip

  /**
   * The first of two layouts the insert damages: no Unreleased line, and the line
   * carrying the version's header runs straight into the first section break.
   */
  predicate HeaderMeetsSection(c: string, w: string) {
    && !Contains(c, UNRELEASED) && Contains(c, BREAK) && Contains(c, Header(w))
    && IndexOf(c, Header(w)) <= IndexOf(c, BREAK)
    && '\n' !in c[IndexOf(c, Header(w))..IndexOf(c, BREAK)]
  }

  /** The text from a version's header, first met above the new section, to the end of the Unreleased line. */
  function KeptFrom(c: string, w: string): string
    requires Contains(Kept(c), Header(w))
  {
    Kept(c)[IndexOf(Kept(c), Header(w))..]
  }

  /**
   * The second: the reader, starting at the version's header above the new
   * section, meets no section break before the Unreleased line ends, so it reads
   * on into notes that stand there. The line under its own header line is always
   * taken for text, a section line included.
   */
  predicate RunsIntoNotes(c: string, w: string) {
    && Contains(c, UNRELEASED) && UnreleasedLineEnd(c) != -1 && Contains(Kept(c), Header(w))
    && !Contains(AfterLine(KeptFrom(c, w)), BREAK)
    && var below := AfterLine(c[IndexOf(c, UNRELEASED)..]);
       !AllWhite(if '\n' in KeptFrom(c, w) then Gap(below) else SectionText(below))
  }

  /** What the reader answers once it stands at the header, in text that ends a section. */
  function AnswerFrom(t: string): Result<string, ExtractError> { Answer(AfterLine(t)) }

  function ReadFrom(found: Option<string>): Result<string, ExtractError> {
    if found.None? then Err(NoSection) else AnswerFrom(found.value)
  }

  lemma ReadIsExtract(c: string, w: string)
    ensures ExtractSection(c, w) == ReadFrom(From(c, Header(w)))
  {
  }

  // ----- the new text -----

  lemma SectionStops(h: string, x: string)
    requires MARK <= h
    ensures SectionText("" + "\n" + (h + "\n" + x)) == ""
  {
    hide IndexOf;
    var s := "" + "\n" + (h + "\n" + x);
    assert s[0..] == s && BREAK == "\n" + MARK;
    IndexOfIsFirst(s, BREAK, 0);
  }

  lemma AnswerBeforeNewSection(a: string, h: string, x: string)
    requires MARK <= h
    ensures Answer(a + "\n" + ("" + "\n" + (h + "\n" + x))) == Answer(a)
  {
    var r := "" + "\n" + (h + "\n" + x);
    SectionAcross(a, r);
    SectionStops(h, x);
    MarkNotAhead("", h + "\n" + x);
    if !Contains(a, BREAK) {
      assert a + "\n" + "" == a + "\n";
      TrimEndCommutes(a, "\n");
    }
  }

  /** A header in the kept text: its section now ends at the new one. */
  lemma ReadAboveNew(t: string, h: string, x: string)
    requires MARK <= h
    ensures AnswerFrom(t + "\n" + ("" + "\n" + (h + "\n" + x))) == AnswerFrom(t)
  {
    var r := "" + "\n" + (h + "\n" + x);
    AfterLineAcross(t, r);
    if '\n' in t {
      AnswerBeforeNewSection(AfterLine(t), h, x);
    } else {
      SectionStops(h, x);
      FirstLine(t);
      assert AfterLine(t) == "";
      AnswerWhite("");
      assert Answer(r) == Err(EmptySection);
    }
  }

  /** Reading `w` in the new changelog: from the kept text when its header is there, else from the text after the
      body. */
  lemma ReadInserted(q: string, v: string, d: string, body: string, rest: string, w: string)
    requires PlainVersion(v) && PlainDate(d) && Writable(body) && PlainVersion(w) && v != w
    ensures ExtractSection(Compose(q, Header(v) + " - " + d, body, rest), w) ==
            ReadFrom(if From(q, Header(w)).Some? then From(q, Header(w)) else From(rest, Header(w)))
  {
    var h, n := Header(v) + " - " + d, Header(w);
    var x := Under(body, rest);
    HeaderFacts(w);
    FromAcross(q, "" + "\n" + (h + "\n" + x), n);
    if From(q, n).Some? {
      assert MARK <= h;
      ReadAboveNew(From(q, n).value, h, x);
    } else {
      FromSkips(q, h + "\n" + x, n);
      OtherHeaderAbsent(v, d, w);
      if body == "" {
        FromAcross(h, rest, n);
      } else {
        FromSkips(h, body + "\n" + rest, n);
        HeaderNotInBody(body, w);
        FromAcross(body, rest, n);
      }
    }
  }

  // ----- the old text, by the shape the writer saw -----

  lemma NoHeaderInWhite(s: string, w: string)
    requires AllWhite(s)
    ensures From(s, Header(w)).None?
  {
    assert Header(w)[0] == '#';
    InkNotInWhite(s, Header(w), 0);
  }

  lemma SuffixHasNoBreak(a: string, s: string)
    requires !Contains(a + s, BREAK)
    ensures SectionText(s) == s && !Contains(s, BREAK)
  {
    if Contains(s, BREAK) {
      var at := IndexOf(s, BREAK);
      assert (a + s)[|a| + at..] == s[at..];
      IndexOfIsFirst(a + s, BREAK, |a| + at);
    }
  }

  lemma AfterLineIsSuffix(t: string)
    requires '\n' in t
    ensures exists a :: t == a + AfterLine(t)
  {
    AfterLineSplits(t);
    assert t == (t[..IndexOf(t, "\n")] + "\n") + AfterLine(t);
  }

  lemma AfterLineWhite(t: string, ws: string)
    requires AllWhite(ws)
    ensures '\n' in t ==> AfterLine(t + ws) == AfterLine(t) + ws
    ensures '\n' !in t ==> AllWhite(AfterLine(t + ws))
  {
    hide IndexOf, White;
    if '\n' in t {
      AfterLineSplits(t);
      var first := t[..IndexOf(t, "\n")];
      assert t + ws == first + "\n" + (AfterLine(t) + ws);
      FirstLineIs(first, AfterLine(t) + ws);
    } else {
      FirstLine(t + ws);
      var at := IndexOf(t + ws, "\n");
      if at >= 0 {
        assert (t + ws)[at] == (t + ws)[at..][0] == '\n';
        assert AfterLine(t + ws) == ws[at + 1 - |t|..];
      }
    }
  }

  lemma OneLineIsBlank(t: string)
    requires '\n' !in t
    ensures AllWhite(AfterLine(t))
  {
    FirstLine(t);
  }

  lemma AnswerFromIs(t: string)
    ensures AnswerFrom(t) == Answer(AfterLine(t))
  {
  }

  /** Text that ends without a section break reads the same with white text after it. */
  lemma ReadAtEnd(t: string, ws: string)
    requires AllWhite(ws) && !Contains(t + ws, BREAK)
    ensures AnswerFrom(t + ws) == AnswerFrom(t)
  {
    hide *;
    AfterLineWhite(t, ws);
    AnswerFromIs(t);
    AnswerFromIs(t + ws);
    if '\n' in t {
      var a := AfterLine(t);
      AfterLineIsSuffix(t);
      var front :| t == front + a;
      assert t + ws == front + (a + ws);
      SuffixHasNoBreak(front, a + ws);
      PrefixHasNoBreak(a, ws);
      AnswerPadded(a, ws);
    } else {
      AnswerWhite(AfterLine(t + ws));
      OneLineIsBlank(t);
      AnswerWhite(AfterLine(t));
    }
  }

  lemma PrefixHasNoBreak(a: string, b: string)
    requires !Contains(a + b, BREAK)
    ensures SectionText(a) == a && !Contains(a, BREAK)
  {
    if Contains(a, BREAK) {
      var at := IndexOf(a, BREAK);
      assert (a + b)[at..] == a[at..] + b;
      IndexOfIsFirst(a + b, BREAK, at);
    }
  }

  lemma SectionBeforeMark(a: string, tail: string)
    requires !Contains(a, BREAK) && MARK <= tail
    ensures Answer(a + "\n" + tail) == Answer(a)
  {
    SectionAcross(a, tail);
  }

  /** A section opening straight after the header line is not seen as one: the reader answers its text. */
  lemma MarkIsRead(tail: string)
    requires MARK <= tail
    ensures Answer(tail).Ok?
  {
    var text := SectionText(tail);
    assert tail[0] == MARK[0] == '#' && BREAK[0] == '\n';
    assert text != "" && text[0] == '#';
    AllWhiteTrims(text);
  }

  /** Kept text, white text, a break, a section: the header of `w` lies in `t` or its line runs on. */
  lemma ReadAboveFirstSection(t: string, ws: string, tail: string)
    requires AllWhite(ws) && MARK <= tail && !Contains(t + ws, BREAK)
    ensures '\n' in t + ws ==> AnswerFrom(t + ws + "\n" + tail) == AnswerFrom(t)
    ensures '\n' !in t + ws ==> AnswerFrom(t + ws + "\n" + tail).Ok? && AnswerFrom(t) == Err(EmptySection)
  {
    AfterLineAcross(t + ws, tail);
    if '\n' in t + ws {
      AfterLineIsSuffix(t + ws);
      var front :| t + ws == front + AfterLine(t + ws);
      SuffixHasNoBreak(front, AfterLine(t + ws));
      SectionBeforeMark(AfterLine(t + ws), tail);
      ReadAtEnd(t, ws);
    } else {
      MarkIsRead(tail);
      assert forall i | 0 <= i < |t| :: t[i] == (t + ws)[i];
      FirstLine(t);
      AnswerWhite("");
    }
  }

  // ----- the four branches -----

  predicate OtherVersion(v: string, w: string) { PlainVersion(v) && PlainVersion(w) && v != w }

  /** What a release may write: nothing, or a release body. */
  predicate Writable(body: string) { body == "" || ReleaseBody(body) }

  lemma FromWithoutWhite(q: string, ws: string, w: string)
    requires AllWhite(ws)
    ensures From(q + ws, Header(w)) ==
            if From(q, Header(w)).Some? then Some(From(q, Header(w)).value + ws) else None
  {
    assert Header(w)[|Header(w)| - 1] == ']';
    FromWhite(q, ws, Header(w));
  }

  lemma FoundAtEnd(q: string, ws: string, w: string, t: string)
    requires From(q, Header(w)) == Some(t) && !Contains(q + ws, BREAK)
    ensures !Contains(t + ws, BREAK)
  {
    var k := IndexOf(q, Header(w));
    assert q + ws == q[..k] + (t + ws);
    hide IndexOf;
    SuffixHasNoBreak(q[..k], t + ws);
  }

  lemma FrameWithoutSections(c: string, v: string, d: string, body: string, w: string)
    requires OtherVersion(v, w) && PlainDate(d) && Writable(body)
    requires !Contains(c, UNRELEASED) && !Contains(c, BREAK)
    ensures ExtractSection(Compose(Kept(c), Header(v) + " - " + d, body, After(c)), w) == ExtractSection(c, w)
  {
    var ws := TrimEndShape(c);
    var q := TrimEnd(c);
    ReadInserted(q, v, d, body, "", w);
    NoHeaderInWhite("", w);
    FromWithoutWhite(q, ws, w);
    ReadIsExtract(c, w);
    assert Kept(c) == q && After(c) == "" && c == q + ws;
    hide *;
    if From(q, Header(w)).Some? {
      var t := From(q, Header(w)).value;
      FoundAtEnd(q, ws, w, t);
      ReadAtEnd(t, ws);
    }
  }

  lemma NoBreakBeforeFirst(c: string)
    requires Contains(c, BREAK)
    ensures !Contains(c[..IndexOf(c, BREAK)], BREAK)
  {
    var at := IndexOf(c, BREAK);
    var head := c[..at];
    if Contains(head, BREAK) {
      var j := IndexOf(head, BREAK);
      assert c[j..] == head[j..] + c[at..];
      IndexOfIsFirst(c, BREAK, j);
    }
  }

  lemma MarkAfterBreak(c: string, at: nat)
    requires at <= |c| && BREAK <= c[at..]
    ensures "\n" <= c[at..] && at < |c| && c == c[..at] + "\n" + c[at + 1..] && MARK <= c[at + 1..]
  {
  }

  lemma BeforeFirstBreak(c: string)
    requires Contains(c, BREAK)
    ensures !Contains(c[..IndexOf(c, BREAK)], BREAK)
    ensures var at := IndexOf(c, BREAK); at < |c| && c == c[..at] + "\n" + c[at + 1..] && MARK <= c[at + 1..]
  {
    var at := IndexOf(c, BREAK);
    hide *;
    FirstBreak(c);
    NoBreakBeforeFirst(c);
    MarkAfterBreak(c, at);
  }

  lemma FirstBreak(c: string)
    requires Contains(c, BREAK)
    ensures 0 <= IndexOf(c, BREAK) <= |c| && BREAK <= c[IndexOf(c, BREAK)..]
  {
  }

  /** Where a header found in the kept text stands in the whole changelog. */
  lemma HeaderAboveBreak(head: string, ws: string, tail: string, w: string)
    requires AllWhite(ws) && PlainVersion(w) && From(head, Header(w)).Some?
    ensures From(head + ws + "\n" + tail, Header(w)) == Some(From(head, Header(w)).value + ws + "\n" + tail)
  {
    HeaderFacts(w);
    FromWithoutWhite(head, ws, w);
    FromAcross(head + ws, tail, Header(w));
  }

  lemma SliceUpTo(c: string, k: nat, at: nat, text: string, tail: string)
    requires k <= |c| && at < |c| && c[k..] == text + "\n" + tail && tail == c[at + 1..]
    ensures k <= at && c[k..at] == text
  {
  }

  /** When the header stands in the kept text, the damaged layout is the one whose header line never ends before the
      break. */
  lemma MeetsWhenLineRunsOn(c: string, w: string, t: string, ws: string)
    requires !Contains(c, UNRELEASED) && Contains(c, BREAK)
    requires var q := TrimEnd(c[..IndexOf(c, BREAK)]); q + ws == c[..IndexOf(c, BREAK)] && From(q, Header(w)) == Some(t)
    requires AllWhite(ws) && PlainVersion(w)
    ensures HeaderMeetsSection(c, w) <==> '\n' !in t + ws
  {
    var at := IndexOf(c, BREAK);
    MarkAfterBreak(c, at);
    HeaderAboveBreak(TrimEnd(c[..at]), ws, c[at + 1..], w);
    SliceUpTo(c, IndexOf(c, Header(w)), at, t + ws, c[at + 1..]);
  }

  lemma HeaderBelowDoesNotMeet(c: string, w: string)
    requires !Contains(c, UNRELEASED) && Contains(c, BREAK) && PlainVersion(w)
    requires From(TrimEnd(c[..IndexOf(c, BREAK)]), Header(w)).None?
    ensures !HeaderMeetsSection(c, w)
    ensures From(c, Header(w)) == From(c[IndexOf(c, BREAK) + 1..], Header(w))
  {
    var at := IndexOf(c, BREAK);
    var head := c[..at];
    var ws := TrimEndShape(head);
    BeforeFirstBreak(c);
    HeaderFacts(w);
    FromWithoutWhite(TrimEnd(head), ws, w);
    FromAcross(head, c[at + 1..], Header(w));
    IndexOfAcrossLine(head, c[at + 1..], Header(w));
  }

  lemma FoundTextHasNoBreak(q: string, ws: string, needle: string)
    requires !Contains(q + ws, BREAK) && Contains(q, needle)
    ensures !Contains(q[IndexOf(q, needle)..] + ws, BREAK)
  {
    var k := IndexOf(q, needle);
    assert q + ws == q[..k] + (q[k..] + ws);
    SuffixHasNoBreak(q[..k], q[k..] + ws);
  }

  lemma HeaderAboveFirstSection(c: string, w: string, ws: string)
    requires PlainVersion(w) && !Contains(c, UNRELEASED) && Contains(c, BREAK) && AllWhite(ws)
    requires c[..IndexOf(c, BREAK)] == TrimEnd(c[..IndexOf(c, BREAK)]) + ws
    requires From(TrimEnd(c[..IndexOf(c, BREAK)]), Header(w)).Some?
    ensures ReadFrom(From(TrimEnd(c[..IndexOf(c, BREAK)]), Header(w))) == ReadFrom(From(c, Header(w)))
            <==> !HeaderMeetsSection(c, w)
    ensures HeaderMeetsSection(c, w) ==> ReadFrom(From(c, Header(w))).Ok?
    ensures HeaderMeetsSection(c, w) ==>
              ReadFrom(From(TrimEnd(c[..IndexOf(c, BREAK)]), Header(w))) == Err(EmptySection)
  {
    var at := IndexOf(c, BREAK);
    var q := TrimEnd(c[..at]);
    var t := From(q, Header(w)).value;
    MeetsWhenLineRunsOn(c, w, t, ws);
    NoBreakBeforeFirst(c);
    FoundTextHasNoBreak(q, ws, Header(w));
    MarkAfterBreak(c, at);
    HeaderAboveBreak(q, ws, c[at + 1..], w);
    ReadAboveFirstSection(t, ws, c[at + 1..]);
  }

  lemma FromPastBreak(s: string, needle: string)
    requires s != "" && s[0] == '\n' && needle != "" && '\n' !in needle
    ensures From(s, needle) == From(s[1..], needle)
  {
  }

  lemma FromBreakAt(c: string, at: nat, needle: string)
    requires at <= |c| && "\n" <= c[at..] && needle != "" && '\n' !in needle
    ensures at < |c| && From(c[at..], needle) == From(c[at + 1..], needle)
  {
    assert c[at..][0] == "\n"[0];
    assert c[at..][1..] == c[at + 1..];
    FromPastBreak(c[at..], needle);
  }

  lemma AfterIsRest(c: string)
    requires !Contains(c, UNRELEASED) && Contains(c, BREAK)
    ensures 0 <= IndexOf(c, BREAK) && BREAK <= c[IndexOf(c, BREAK)..] && After(c) == c[IndexOf(c, BREAK)..]
  {
  }

  lemma AfterAboveSections(c: string, w: string)
    requires PlainVersion(w) && !Contains(c, UNRELEASED) && Contains(c, BREAK)
    ensures IndexOf(c, BREAK) < |c| && From(After(c), Header(w)) == From(c[IndexOf(c, BREAK) + 1..], Header(w))
  {
    hide *;
    AfterIsRest(c);
    HeaderFacts(w);
    MarkAfterBreak(c, IndexOf(c, BREAK));
    FromBreakAt(c, IndexOf(c, BREAK), Header(w));
  }

  lemma FrameAboveSections(c: string, v: string, d: string, body: string, w: string)
    requires OtherVersion(v, w) && PlainDate(d) && Writable(body)
    requires !Contains(c, UNRELEASED) && Contains(c, BREAK)
    ensures ExtractSection(Compose(Kept(c), Header(v) + " - " + d, body, After(c)), w) == ExtractSection(c, w)
            <==> !HeaderMeetsSection(c, w)
    ensures HeaderMeetsSection(c, w) ==>
              && ExtractSection(c, w).Ok?
              && ExtractSection(Compose(Kept(c), Header(v) + " - " + d, body, After(c)), w) == Err(EmptySection)
  {
    var at := IndexOf(c, BREAK);
    var q := TrimEnd(c[..at]);
    ReadInserted(q, v, d, body, After(c), w);
    ReadIsExtract(c, w);
    if From(q, Header(w)).Some? {
      var ws := TrimEndShape(c[..at]);
      HeaderAboveFirstSection(c, w, ws);
    } else {
      HeaderBelowDoesNotMeet(c, w);
      AfterAboveSections(c, w);
    }
  }

  /** A header inside one line that opens a section is that line's own header. */
  lemma OneHeaderPerLine(c: string, u: nat, k: nat, e: nat)
    requires MarksAtLineStarts(c) && u <= e <= |c| && k <= e && '\n' !in c[u..e] && '\n' !in c[k..e]
    requires u < |c| && k < |c| && MARK <= c[u..] && MARK <= c[k..]
    ensures k == u
  {
  }

  lemma HeaderOnUnreleasedLine(c: string, u: nat, k: nat, e: nat, w: string)
    requires MarksAtLineStarts(c) && u <= e <= |c| && k <= e && '\n' !in c[u..e] && '\n' !in c[k..e]
    requires UNRELEASED <= c[u..] && Header(w) <= c[k..] && PlainVersion(w)
    ensures w == "Unreleased"
  {
    assert MARK <= UNRELEASED && MARK <= Header(w);
    OneHeaderPerLine(c, u, k, e);
    SameHeader("Unreleased", w, c[u..]);
  }

  lemma FoundInPrefix(c: string, e: nat, needle: string)
    requires e <= |c| && Contains(c[..e], needle)
    ensures var k := IndexOf(c[..e], needle); 0 <= k <= e && c[..e][k..] == c[k..e] && needle <= c[k..]
  {
    hide IndexOf;
  }

  lemma LineSlice(c: string, u: nat)
    requires u <= |c| && IndexOf(c[u..], "\n") >= 0
    ensures u + IndexOf(c[u..], "\n") <= |c| && '\n' !in c[u..u + IndexOf(c[u..], "\n")]
  {
    FirstLine(c[u..]);
    assert c[u..u + IndexOf(c[u..], "\n")] == c[u..][..IndexOf(c[u..], "\n")];
  }

  lemma KeptEndsTheLine(c: string)
    requires Contains(c, UNRELEASED) && UnreleasedLineEnd(c) != -1
    ensures 0 <= IndexOf(c, UNRELEASED) && UNRELEASED <= c[IndexOf(c, UNRELEASED)..]
    ensures UnreleasedLineEnd(c) == IndexOf(c[IndexOf(c, UNRELEASED)..], "\n") >= 0
    ensures var e := IndexOf(c, UNRELEASED) + UnreleasedLineEnd(c); e <= |c| && Kept(c) == c[..e]
  {
    hide IndexOf, Header;
  }

  lemma NothingIsWhite()
    ensures AllWhite("")
  {
  }

  /** A section break in the text hides what follows; without one, notes below are read on into. */
  lemma AnswerWithGap(a: string, below: string)
    ensures Answer(a + "\n" + below) == Answer(a) <==> Contains(a, BREAK) || AllWhite(Gap(below))
  {
    hide Trim, IndexOf, AllWhite;
    SectionAcross(a, below);
    if !Contains(a, BREAK) {
      NothingIsWhite();
      var extra := if MARK <= below then "" else "\n" + SectionText(below);
      TrimExtra(a, extra);
      WhiteCons(SectionText(below));
      assert a + "\n" + SectionText(below) == a + ("\n" + SectionText(below)) && a + "" == a;
    }
  }

  /** Standing at a header, in text that ends where the new section goes: the answer stays unless it reads on. */
  lemma ReadOn(t: string, below: string)
    ensures AnswerFrom(t + "\n" + below) == AnswerFrom(t) <==>
            Contains(AfterLine(t), BREAK) || AllWhite(if '\n' in t then Gap(below) else SectionText(below))
  {
    hide IndexOf, Trim, SectionText;
    AfterLineAcross(t, below);
    if '\n' in t {
      AnswerWithGap(AfterLine(t), below);
    } else {
      NoSecondLine(t);
      AnswerWhite("");
      AllWhiteTrims(SectionText(below));
    }
  }

  lemma NoSecondLine(t: string)
    requires '\n' !in t
    ensures AfterLine(t) == "" && !Contains(AfterLine(t), BREAK)
  {
    FirstLine(t);
  }

  // ----- the line above the Unreleased line -----

  lemma AfterLineAt(c: string, k: nat, p: nat, e: nat)
    requires k <= p < e <= |c| && '\n' !in c[k..p] && c[p] == '\n'
    ensures AfterLine(c[k..e]) == c[p + 1..e]
  {
    assert c[k..e] == c[k..p] + "\n" + c[p + 1..e];
    FirstLineIs(c[k..p], c[p + 1..e]);
  }

  lemma {:induction false} FirstFeed(c: string, k: nat, m: nat) returns (p: nat)
    requires k <= m <= |c| && '\n' in c[k..m]
    ensures k <= p < m && c[p] == '\n' && '\n' !in c[k..p]
    decreases m - k
  {
    if c[k] == '\n' {
      p := k;
    } else {
      assert c[k..m] == [c[k]] + c[k + 1..m];
      p := FirstFeed(c, k + 1, m);
      assert c[k..p] == [c[k]] + c[k + 1..p];
    }
  }

  lemma BreakInside(c: string, from: nat, u: nat, e: nat)
    requires from < u && u + |MARK| <= e <= |c| && c[u - 1] == '\n' && MARK <= c[u..]
    ensures Contains(c[from..e], BREAK)
  {
    var s := c[from..e];
    assert s[u - 1 - from..] == c[u - 1..e];
    assert c[u - 1..e] == "\n" + c[u..e] && MARK <= c[u..e];
    IndexOfIsFirst(s, BREAK, u - 1 - from);
  }

  lemma PrefixOfSlice(c: string, u: nat, e: nat)
    requires u + |MARK| <= e <= |c| && MARK <= c[u..]
    ensures MARK <= c[u..e]
  {
    hide *;
    assert c[u..][..e - u] == c[u..e];
  }

  /** What follows the header's line, when that line ends above `u`: the Unreleased line alone, or text with a
      section break. */
  lemma TextAboveLastLine(c: string, k: nat, u: nat, e: nat)
    requires k < u && u + |MARK| <= e <= |c| && c[u - 1] == '\n' && MARK <= c[u..] && '\n' !in c[u..e]
    ensures '\n' !in c[k..u - 1] ==> AfterLine(c[k..e]) == c[u..e] && MARK <= c[u..e] && !Contains(c[u..e], BREAK)
    ensures '\n' in c[k..u - 1] ==> Contains(AfterLine(c[k..e]), BREAK)
  {
    hide *;
    if '\n' in c[k..u - 1] {
      var p := FirstFeed(c, k, u - 1);
      AfterLineAt(c, k, p, e);
      BreakInside(c, p + 1, u, e);
    } else {
      AfterLineAt(c, k, u - 1, e);
      BreakNeedsLineFeed(c[u..e]);
      PrefixOfSlice(c, u, e);
    }
  }

  lemma UnreleasedLine(c: string)
    requires Contains(c, UNRELEASED) && UnreleasedLineEnd(c) != -1
    ensures var u := IndexOf(c, UNRELEASED);
            var e := u + UnreleasedLineEnd(c);
            && 0 <= u && UNRELEASED <= c[u..] && MARK <= c[u..]
            && u + |MARK| <= e <= |c| && Kept(c) == c[..e] && '\n' !in c[u..e]
  {
    hide *;
    KeptEndsTheLine(c);
    UnreleasedIsLong(c[IndexOf(c, UNRELEASED)..]);
    LineSlice(c, IndexOf(c, UNRELEASED));
  }

  lemma UnreleasedIsLong(s: string)
    requires UNRELEASED <= s
    ensures MARK <= s && (IndexOf(s, "\n") >= 0 ==> IndexOf(s, "\n") >= |MARK|)
  {
    hide IndexOf, White;
    assert MARK <= UNRELEASED && s[..|MARK|] == MARK;
    var at := IndexOf(s, "\n");
    if at >= 0 {
      assert s[at] == s[at..][0] == '\n';
    }
  }

  /** A version header kept above the new section, and where it stands in the whole changelog. */
  lemma HeaderAboveUnreleased(c: string, w: string)
    requires PlainVersion(w) && w != "Unreleased" && MarksAtLineStarts(c)
    requires Contains(c, UNRELEASED) && UnreleasedLineEnd(c) != -1 && Contains(Kept(c), Header(w))
    ensures var u, k := IndexOf(c, UNRELEASED), IndexOf(Kept(c), Header(w));
            k == IndexOf(c, Header(w)) && k < u && c[u - 1] == '\n'
  {
    hide *;
    UnreleasedLine(c);
    var u, k, e := IndexOf(c, UNRELEASED), IndexOf(Kept(c), Header(w)), IndexOf(c, UNRELEASED) + UnreleasedLineEnd(c);
    FoundInKept(c, w);
    HeaderFacts(w);
    FoundInPrefix(c, e, Header(w));
    LastLineHolds(c, u, k, e, w);
  }

  lemma FoundInKept(c: string, w: string)
    requires PlainVersion(w) && Contains(c, UNRELEASED) && UnreleasedLineEnd(c) != -1
    ensures Contains(Kept(c), Header(w)) ==> IndexOf(Kept(c), Header(w)) == IndexOf(c, Header(w))
    ensures !Contains(Kept(c), Header(w)) ==>
            IndexOf(c, Header(w)) == -1 || IndexOf(c, Header(w)) > IndexOf(c, UNRELEASED)
  {
    hide IndexOf, Header, White;
    HeaderFacts(w);
    UnreleasedLine(c);
    UnreleasedSplits(c);
    IndexOfAcrossLine(Kept(c), AfterLine(c[IndexOf(c, UNRELEASED)..]), Header(w));
  }

  lemma LastLineHolds(c: string, u: nat, k: nat, e: nat, w: string)
    requires PlainVersion(w) && w != "Unreleased" && MarksAtLineStarts(c)
    requires u + |MARK| <= e <= |c| && '\n' !in c[u..e] && UNRELEASED <= c[u..] && k <= e
    requires k < |c| && Header(w) <= c[k..]
    ensures k < u && c[u - 1] == '\n'
  {
    HeaderFacts(w);
    HeaderFacts("Unreleased");
    assert MARK <= UNRELEASED <= c[u..] && MARK <= Header(w) <= c[k..];
    if k >= u {
      assert forall i | 0 <= i < |c[k..e]| :: c[k..e][i] == c[u..e][k - u + i];
      HeaderOnUnreleasedLine(c, u, k, e, w);
    }
  }

  lemma UnreleasedSplits(c: string)
    requires Contains(c, UNRELEASED) && UnreleasedLineEnd(c) != -1
    ensures c == Kept(c) + "\n" + AfterLine(c[IndexOf(c, UNRELEASED)..])
  {
    hide IndexOf, Header;
    var u := IndexOf(c, UNRELEASED);
    var e := u + UnreleasedLineEnd(c);
    assert c[u..][UnreleasedLineEnd(c)..] == c[e..];
    BreakAt(c, e);
    assert c[e + 1..] == c[u..][UnreleasedLineEnd(c) + 1..];
  }

  lemma LeadingBreakHidesNothing(below: string, w: string)
    requires PlainVersion(w)
    ensures From("" + "\n" + DropLeadingBreak(below), Header(w)) == From(below, Header(w))
  {
    var tail := DropLeadingBreak(below);
    HeaderFacts(w);
    FromAcross("", tail, Header(w));
    if tail != below {
      assert below == "" + "\n" + tail;
    }
  }

  /** The text after the Unreleased line, seen from below it, is the text after the new body. */
  lemma SameBelowUnreleased(c: string, w: string)
    requires Contains(c, UNRELEASED) && UnreleasedLineEnd(c) != -1 && PlainVersion(w)
    ensures From(After(c), Header(w)) == From(AfterLine(c[IndexOf(c, UNRELEASED)..]), Header(w))
  {
    AfterUnderUnreleased(c);
    LeadingBreakHidesNothing(AfterLine(c[IndexOf(c, UNRELEASED)..]), w);
  }

  lemma NotesReadAsText(c: string)
    requires Contains(c, UNRELEASED) && UnreleasedLineEnd(c) != -1
    ensures UnreleasedText(c) == Gap(AfterLine(c[IndexOf(c, UNRELEASED)..]))
  {
  }

  lemma NothingUnderLastLine(c: string)
    requires Contains(c, UNRELEASED) && UnreleasedLineEnd(c) == -1
    ensures AllWhite(UnreleasedText(c))
  {
    NoBreakInWhite("");
  }

  lemma FoundText(c: string, w: string)
    requires Contains(Kept(c), Header(w))
    ensures From(Kept(c), Header(w)) == Some(KeptFrom(c, w))
  {
  }

  lemma FrameUnderUnreleased(c: string, v: string, d: string, body: string, w: string)
    requires OtherVersion(v, w) && PlainDate(d) && Writable(body) && Contains(c, UNRELEASED)
    ensures ExtractSection(Compose(Kept(c), Header(v) + " - " + d, body, After(c)), w) == ExtractSection(c, w)
            <==> !RunsIntoNotes(c, w)
  {
    hide IndexOf, Compose, Header, AfterLine, Answer, SectionText, KeptFrom;
    HeaderFacts(w);
    ReadInserted(Kept(c), v, d, body, After(c), w);
    ReadIsExtract(c, w);
    if UnreleasedLineEnd(c) == -1 {
      NoHeaderInWhite("\n", w);
    } else {
      UnreleasedSplits(c);
      SameBelowUnreleased(c, w);
      FromAcross(Kept(c), AfterLine(c[IndexOf(c, UNRELEASED)..]), Header(w));
      if Contains(Kept(c), Header(w)) {
        FoundText(c, w);
        ReadOn(KeptFrom(c, w), AfterLine(c[IndexOf(c, UNRELEASED)..]));
      }
    }
  }

  /**
   * Every other version's section extracts as before, in all four placements
   * and with an empty body too, exactly when its header line does not run
   * straight into the first section break of a changelog without an Unreleased
   * line and the reader does not run from it into notes under one.
   */
  lemma OtherSectionsUnchanged(c: string, v: string, d: string, body: string, w: string)
    requires OtherVersion(v, w) && PlainDate(d) && Writable(body) && !Contains(c, Header(v))
    ensures InsertSection(c, v, d, body).Ok?
    ensures ExtractSection(InsertSection(c, v, d, body).value, w) == ExtractSection(c, w)
            <==> !HeaderMeetsSection(c, w) && !RunsIntoNotes(c, w)
    ensures HeaderMeetsSection(c, w) ==>
              ExtractSection(c, w).Ok? && ExtractSection(InsertSection(c, v, d, body).value, w) == Err(EmptySection)
  {
    InsertShape(c, v, d, body);
    if Contains(c, UNRELEASED) {
      FrameUnderUnreleased(c, v, d, body, w);
    } else if Contains(c, BREAK) {
      FrameAboveSections(c, v, d, body, w);
    } else {
      FrameWithoutSections(c, v, d, body, w);
    }
  }

  // ----- the second layout when every section mark starts a line -----

  /**
   * The line carrying the version's header ends right above the
   * Unreleased line, with notes under that.
   */
  predicate HeaderMeetsUnreleased(c: string, w: string) {
    && Contains(c, UNRELEASED) && Contains(c, Header(w))
    && IndexOf(c, Header(w)) < IndexOf(c, UNRELEASED)
    && c[IndexOf(c, UNRELEASED) - 1] == '\n'
    && '\n' !in c[IndexOf(c, Header(w))..IndexOf(c, UNRELEASED) - 1]
    && !AllWhite(UnreleasedText(c))
  }

  /** Then running into notes is one layout: a header line right above the Unreleased line. */
  lemma RunsIntoNotesLayout(c: string, w: string)
    requires PlainVersion(w) && w != "Unreleased" && MarksAtLineStarts(c)
    ensures RunsIntoNotes(c, w) <==> HeaderMeetsUnreleased(c, w)
  {
    hide IndexOf, White, Header, Answer, AfterLine, SectionText, Kept, UnreleasedText, UnreleasedLineEnd;
    if Contains(c, UNRELEASED) {
      if UnreleasedLineEnd(c) == -1 {
        NothingUnderLastLine(c);
      } else if Contains(Kept(c), Header(w)) {
        var u, k := IndexOf(c, UNRELEASED), IndexOf(Kept(c), Header(w));
        var e := u + UnreleasedLineEnd(c);
        HeaderAboveUnreleased(c, w);
        UnreleasedLine(c);
        NotesReadAsText(c);
        FoundInPrefix(c, e, Header(w));
        TextAboveLastLine(c, k, u, e);
        var t := c[k..e];
        assert KeptFrom(c, w) == t;
        assert t[u - 1 - k] == '\n';
      } else {
        FoundInKept(c, w);
      }
    }
  }

  lemma BreakNeedsLineFeed(s: string)
    ensures Contains(s, BREAK) ==> '\n' in s
  {
    if Contains(s, BREAK) {
      assert s[IndexOf(s, BREAK)] == s[IndexOf(s, BREAK)..][0] == BREAK[0] == '\n';
    }
  }

  lemma PrefixIsFirst(a: string, more: string)
    requires a != ""
    ensures IndexOf(a + more, a) == 0 && (a + more)[0..|a|] == a
  {
  }

  lemma BreakAfterLine(a: string, b: string)
    requires '\n' !in a && MARK <= b
    ensures IndexOf(a + "\n" + b, BREAK) == |a|
  {
    hide IndexOf, White;
    BreakNeedsLineFeed(a);
    BreakAcrossLine(a, b, MARK);
    assert "\n" + MARK == BREAK;
  }

  lemma LineThenSection(a: string, b: string)
    requires a != "" && '\n' !in a && MARK <= b
    ensures var c := a + "\n" + b; IndexOf(c, a) == 0 && IndexOf(c, BREAK) == |a| && c[0..|a|] == a
  {
    assert a + "\n" + b == a + ("\n" + b);
    PrefixIsFirst(a, "\n" + b);
    BreakAfterLine(a, b);
  }

  /** The damaged layout exists: one bare header line straight above another. */
  lemma TwoBareHeadersMeet(w: string, x: string)
    requires PlainVersion(w) && PlainVersion(x)
    requires !Contains(Header(w) + "\n" + Header(x), UNRELEASED)
    ensures HeaderMeetsSection(Header(w) + "\n" + Header(x), w)
  {
    HeaderFacts(w);
    HeaderFacts(x);
    LineThenSection(Header(w), Header(x));
  }

  // ----- both damaged layouts exist -----

  lemma MarksAcross(a: string, b: string)
    requires MarksAtLineStarts(a) && MarksAtLineStarts(b)
    ensures MarksAtLineStarts(a + "\n" + b)
  {
    var c := a + "\n" + b;
    forall i | 0 <= i < |c| && MARK <= c[i..]
      ensures i == 0 || c[i - 1] == '\n'
    {
      if i <= |a| {
        assert c[i..] == a[i..] + "\n" + b;
        PrefixAcross(a[i..], b, MARK);
      } else {
        assert c[i..] == b[i - |a| - 1..];
      }
    }
  }

  lemma MarkIsTwoHashes(s: string, i: nat)
    requires i <= |s| && MARK <= s[i..]
    ensures i + 1 < |s| && s[i] == '#' && s[i + 1] == '#'
  {
    assert MARK[0] == '#' && MARK[1] == '#';
    assert s[i] == s[i..][0] && s[i + 1] == s[i..][1];
  }

  lemma HashPlaces(v: string, i: nat)
    requires PlainVersion(v) && i + 1 < |Header(v)| && Header(v)[i] == '#' && Header(v)[i + 1] == '#'
    ensures i == 0
  {
    var h := Header(v);
    assert h[2] == ' ' && h[3] == '[' && h[4 + |v|] == ']';
    assert forall j | 0 <= j < |v| :: h[4 + j] == v[j] && v[j] in v;
  }

  lemma HeaderMarks(v: string)
    requires PlainVersion(v)
    ensures MarksAtLineStarts(Header(v))
  {
    forall i | 0 <= i < |Header(v)| && MARK <= Header(v)[i..]
      ensures i == 0
    {
      MarkIsTwoHashes(Header(v), i);
      HashPlaces(v, i);
    }
  }

  lemma NoMarks(s: string)
    requires !Contains(s, MARK)
    ensures MarksAtLineStarts(s)
  {
    forall i | 0 <= i < |s|
      ensures !(MARK <= s[i..])
    {
      if MARK <= s[i..] {
        IndexOfIsFirst(s, MARK, i);
      }
    }
  }

  /** Two bare header lines, one above the other: the first section read before the insert is gone after it. */
  lemma DamagedChangelog(w: string, x: string, v: string, d: string, body: string)
    requires OtherVersion(v, w) && PlainVersion(x) && PlainDate(d) && ReleaseBody(body)
    requires !Contains(Header(w) + "\n" + Header(x), UNRELEASED) && !Contains(Header(w) + "\n" + Header(x), Header(v))
    ensures var c := Header(w) + "\n" + Header(x);
            && MarksAtLineStarts(c) && HeaderMeetsSection(c, w)
            && ExtractSection(c, w).Ok? && InsertSection(c, v, d, body).Ok?
            && ExtractSection(InsertSection(c, v, d, body).value, w) == Err(EmptySection)
  {
    HeaderMarks(w);
    HeaderMarks(x);
    MarksAcross(Header(w), Header(x));
    TwoBareHeadersMeet(w, x);
    OtherSectionsUnchanged(Header(w) + "\n" + Header(x), v, d, body, w);
  }

  lemma HeaderHoldsNoOther(v: string, w: string)
    requires PlainVersion(v) && PlainVersion(w) && v != w
    ensures !Contains(Header(v), Header(w))
  {
    hide IndexOf, White;
    OtherHeaderAbsent(v, "", w);
    if Contains(Header(v), Header(w)) {
      var at := IndexOf(Header(v), Header(w));
      assert (Header(v) + " - " + "")[at..] == Header(v)[at..] + " - ";
      IndexOfIsFirst(Header(v) + " - " + "", Header(w), at);
    }
  }

  /** Where the writer cuts a changelog that opens with a bare header and the Unreleased line. */
  lemma CutUnderUnreleased(w: string, notes: string)
    requires PlainVersion(w) && w != "Unreleased"
    ensures var c := Header(w) + "\n" + (UNRELEASED + "\n" + notes);
            && Contains(c, UNRELEASED) && Kept(c) == Header(w) + "\n" + UNRELEASED
  {
    hide IndexOf, White;
    var tail := UNRELEASED + "\n" + notes;
    HeaderFacts(w);
    HeaderFacts("Unreleased");
    HeaderHoldsNoOther(w, "Unreleased");
    IndexOfAcrossLine(Header(w), tail, UNRELEASED);
    assert tail == UNRELEASED + ("\n" + notes);
    PrefixIsFirst(UNRELEASED, "\n" + notes);
    FirstLineIs(UNRELEASED, notes);
    var c := Header(w) + "\n" + tail;
    assert c[|Header(w)| + 1..] == tail;
    assert c[..|Header(w)| + 1 + |UNRELEASED|] == Header(w) + "\n" + UNRELEASED;
  }

  lemma UnreleasedIsTrimmed()
    ensures UNRELEASED != "" && Trimmed(UNRELEASED) && !White('#') && !White(']')
    ensures '\n' !in UNRELEASED && !Contains(UNRELEASED, BREAK) && SectionText(UNRELEASED) == UNRELEASED
  {
    hide IndexOf;
    HeaderFacts("Unreleased");
    BreakNeedsLineFeed(UNRELEASED);
  }

  lemma NotesAreRead(notes: string)
    requires ReleaseBody(notes)
    ensures Answer(UNRELEASED + "\n" + notes) == Ok(UNRELEASED + "\n" + notes) && Answer(UNRELEASED) == Ok(UNRELEASED)
  {
    hide IndexOf, White;
    UnreleasedIsTrimmed();
    SectionAcross(UNRELEASED, notes);
    NoMarkNoBreak(notes);
    assert notes[0..] == notes;
    if MARK <= notes {
      IndexOfIsFirst(notes, MARK, 0);
    }
    TrimmedUnchanged(UNRELEASED);
    TrimmedUnchanged(UNRELEASED + "\n" + notes);
  }

  /** A bare header right above the Unreleased line: its section reads as that line and the notes before the insert,
      and as that line alone after it. */
  lemma DamagedAboveUnreleased(w: string, notes: string, v: string, d: string, body: string)
    requires OtherVersion(v, w) && w != "Unreleased" && PlainDate(d) && ReleaseBody(body) && ReleaseBody(notes)
    requires !Contains(Header(w) + "\n" + (UNRELEASED + "\n" + notes), Header(v))
    ensures var c := Header(w) + "\n" + (UNRELEASED + "\n" + notes);
            && MarksAtLineStarts(c) && HeaderMeetsUnreleased(c, w) && RunsIntoNotes(c, w)
            && ExtractSection(c, w) == Ok(UNRELEASED + "\n" + notes)
            && InsertSection(c, v, d, body).Ok?
            && ExtractSection(InsertSection(c, v, d, body).value, w) == Ok(UNRELEASED)
  {
    hide *;
    var tail := UNRELEASED + "\n" + notes;
    var c := Header(w) + "\n" + tail;
    PlainParts(v, w, body, notes);
    HeaderMarks(w);
    HeaderMarks("Unreleased");
    NoMarks(notes);
    MarksAcross(UNRELEASED, notes);
    MarksAcross(Header(w), tail);
    NotesAreRead(notes);
    HeaderFacts(w);
    AnswerAtHeader(Header(w), tail, w);
    AnswerAtHeader(Header(w), UNRELEASED, w);
    CutUnderUnreleased(w, notes);
    ReadIsExtract(c, w);
    ReadsAre(c, tail);
    ReadsAre(Header(w) + "\n" + UNRELEASED, UNRELEASED);
    InsertShape(c, v, d, body);
    ReadInserted(Kept(c), v, d, body, After(c), w);
    OtherSectionsUnchanged(c, v, d, body, w);
    RunsIntoNotesLayout(c, w);
    NotBoth(c, w);
  }

  lemma PlainParts(v: string, w: string, body: string, notes: string)
    requires OtherVersion(v, w) && w != "Unreleased" && ReleaseBody(body) && ReleaseBody(notes)
    ensures Writable(body) && PlainVersion(v) && PlainVersion(w) && v != w && w != "Unreleased"
            && PlainVersion("Unreleased")
    ensures body != "" && !Contains(notes, MARK) && UNRELEASED == Header("Unreleased")
  {
  }

  lemma ReadsAre(c: string, tail: string)
    requires AfterLine(c) == tail
    ensures ReadFrom(Some(c)) == Answer(tail)
  {
  }

  lemma NotBoth(c: string, w: string)
    requires Contains(c, UNRELEASED)
    ensures !HeaderMeetsSection(c, w)
  {
  }
}
