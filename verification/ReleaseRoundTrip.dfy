/** The release pipeline end to end: what fragments are written as is what the extractor reads back. */
module ReleaseRoundTrip {
  import opened Prelude
  import opened Text
  import opened Pieces
  import opened Changelog
  import opened ChangelogRoundTrip
  import opened SectionBody
  import opened Semver

  // ----- a release version is a plain version -----

  predicate VersionChar(c: char) { IsIdentChar(c) || c == '.' }

  predicate VersionText(s: string) { forall c | c in s :: VersionChar(c) }

  lemma {:induction false} JoinedText(parts: seq<string>)
    requires parts != [] && forall p | p in parts :: VersionText(p)
    ensures VersionText(Join(parts, '.'))
  {
    assert VersionText(parts[0]);
    if |parts| > 1 {
      JoinedText(parts[1..]);
      assert Join(parts, '.') == parts[0] + ['.'] + Join(parts[1..], '.');
    }
  }

  lemma IdentText(p: string)
    requires Ident(p) || AllDigits(p)
    ensures VersionText(p)
  {
    forall c | c in p
      ensures VersionChar(c)
    {
      var i :| 0 <= i < |p| && p[i] == c;
    }
  }

  lemma PartsText(s: string)
    requires forall p | p in Split(s, '.') :: Ident(p) || AllDigits(p)
    ensures VersionText(s)
  {
    forall p | p in Split(s, '.')
      ensures VersionText(p)
    {
      IdentText(p);
    }
    JoinedText(Split(s, '.'));
    JoinSplit(s, '.');
  }

  lemma ReleaseVersionIsPlain(v: string)
    requires ReleaseVersion(v)
    ensures PlainVersion(v)
  {
    hide Ident, AllDigits, Split, IndexOfDash;
    var (core, prerelease) := SplitVersion(v);
    PartsText(core);
    if prerelease.Some? {
      PartsText(prerelease.value);
      assert v == core + "-" + prerelease.value;
    }
    assert VersionText(v);
    assert !VersionChar('\n') && !VersionChar(']') && !VersionChar('#');
  }

  // ----- a mark in the body is a mark in one of its lines -----

  lemma {:induction false} MarkInLine(lines: seq<string>, needle: string)
    requires lines != [] && needle != "" && '\n' !in needle && Contains(Join(lines, '\n'), needle)
    ensures exists line :: line in lines && Contains(line, needle)
  {
    if |lines| == 1 {
      assert lines[0] in lines;
    } else {
      var rest := Join(lines[1..], '\n');
      assert Join(lines, '\n') == lines[0] + "\n" + rest;
      IndexOfAcrossLine(lines[0], rest, needle);
      if Contains(lines[0], needle) {
        assert lines[0] in lines;
      } else {
        MarkInLine(lines[1..], needle);
        var line :| line in lines[1..] && Contains(line, needle);
        assert line in lines;
      }
    }
  }

  lemma {:induction false} SqueezedPrefix(s: string, needle: string)
    requires '\n' !in needle && needle <= Squeeze(s, 0)
    ensures needle <= s
  {
    if needle != "" {
      assert Squeeze(s, 0)[0] == needle[0];
      assert s[0] == needle[0];
      assert Squeeze(s, 0)[1..] == Squeeze(s[1..], 0);
      assert needle[1..] <= Squeeze(s[1..], 0);
      SqueezedPrefix(s[1..], needle[1..]);
      assert needle == [needle[0]] + needle[1..] && s == [s[0]] + s[1..];
    }
  }

  /** Dropping line feeds from long runs joins no two lines. */
  lemma {:induction false} SqueezedMark(s: string, run: nat, needle: string)
    requires needle != "" && '\n' !in needle && Contains(Squeeze(s, run), needle)
    ensures Contains(s, needle)
  {
    var out := Squeeze(s, run);
    if s == "" {
    } else if s[0] == '\n' {
      var tail := Squeeze(s[1..], run + 1);
      if run < 2 {
        assert needle[0] in needle;
        assert out == "\n" + tail && out[1..] == tail && !(needle <= out);
      } else {
        assert out == tail;
      }
      SqueezedMark(s[1..], run + 1, needle);
      LaterMark(s, needle);
    } else {
      assert out == [s[0]] + Squeeze(s[1..], 0) && out[1..] == Squeeze(s[1..], 0);
      if needle <= out {
        assert out == Squeeze(s, 0);
        SqueezedPrefix(s, needle);
      } else {
        SqueezedMark(s[1..], 0, needle);
        LaterMark(s, needle);
      }
    }
  }

  lemma LaterMark(s: string, needle: string)
    requires s != "" && Contains(s[1..], needle)
    ensures Contains(s, needle)
  {
    var at := IndexOf(s[1..], needle);
    assert s[1..][at..] == s[at + 1..];
    IndexOfIsFirst(s, needle, at + 1);
  }

  lemma TrimmedMark(s: string, needle: string)
    requires Contains(Trim(s), needle)
    ensures Contains(s, needle)
  {
    hide IndexOf, White, TrimStart, TrimEnd;
    var a := TrimStartShape(s);
    var b := TrimEndShape(TrimStart(s));
    assert s == a + (Trim(s) + b);
    var at := IndexOf(Trim(s), needle);
    assert s[|a| + at..] == Trim(s)[at..] + b;
    IndexOfIsFirst(s, needle, |a| + at);
  }

  // ----- the lines a body is made of -----

  /** Neither a category heading nor a bullet opens a section. */
  predicate OpensNoSection(frags: seq<Fragment>, lang: Lang) {
    forall f | f in frags ::
      !Contains(Heading(CategoryOf(f)), MARK) && forall b | b in BulletsOf(f, lang) :: !Contains(b, MARK)
  }

  lemma {:induction false} BulletsFrom(frags: seq<Fragment>, lang: Lang, category: string, b: string)
    requires b in Bullets(frags, lang, category)
    ensures exists f :: f in frags && b in BulletsOf(f, lang)
  {
    var front, last := frags[..|frags| - 1], frags[|frags| - 1];
    if b in Bullets(front, lang, category) {
      BulletsFrom(front, lang, category, b);
      var f :| f in front && b in BulletsOf(f, lang);
      assert f in frags;
    } else {
      assert last in frags && b in BulletsOf(last, lang);
    }
  }

  lemma {:induction false} CategoryFrom(frags: seq<Fragment>, category: string)
    requires category in Categories(frags)
    ensures exists f :: f in frags && CategoryOf(f) == category
  {
    var front, last := frags[..|frags| - 1], frags[|frags| - 1];
    if category in Categories(front) {
      CategoryFrom(front, category);
      var f :| f in front && CategoryOf(f) == category;
      assert f in frags;
    } else {
      assert last in frags && CategoryOf(last) == category;
    }
  }

  lemma {:induction false} LineFrom(groups: seq<Group>, line: string)
    requires line in LinesOf(groups)
    ensures line == "" || exists g :: g in groups && (line == Heading(g.category) || line in g.bullets)
  {
    var front, last := groups[..|groups| - 1], groups[|groups| - 1];
    if line in LinesOf(front) {
      LineFrom(front, line);
      if line != "" {
        var g :| g in front && (line == Heading(g.category) || line in g.bullets);
        assert g in groups;
      }
    } else {
      assert last in groups;
    }
  }

  lemma NoLineOpens(frags: seq<Fragment>, lang: Lang, line: string)
    requires OpensNoSection(frags, lang) && line in LinesOf(GroupsOf(frags, lang))
    ensures !Contains(line, MARK)
  {
    LineFrom(GroupsOf(frags, lang), line);
    if line != "" {
      var g :| g in GroupsOf(frags, lang) && (line == Heading(g.category) || line in g.bullets);
      CategoryFrom(frags, g.category);
      if line in g.bullets {
        BulletsFrom(frags, lang, g.category, line);
      }
    }
  }

  /** A body made from fragments is a release body: trimmed, never empty, and opening no section. */
  lemma RenderedIsReleaseBody(frags: seq<Fragment>, lang: Lang)
    requires frags != [] && OpensNoSection(frags, lang)
    ensures ReleaseBody(Render(GroupsOf(frags, lang)))
  {
    hide IndexOf, GroupsOf, LinesOf, OpensNoSection;
    var groups := GroupsOf(frags, lang);
    var lines := LinesOf(groups);
    FirstGroup(frags, lang);
    HeadingLeads(groups);
    var text := Join(lines, '\n');
    var squeezed := Squeeze(text, 0);
    FirstLineLeads(lines);
    assert squeezed[0] == '#' && !White('#');
    AllWhiteTrims(squeezed);
    TrimmedUnchanged(squeezed);
    if Contains(Trim(squeezed), MARK) {
      TrimmedMark(squeezed, MARK);
      SqueezedMark(text, 0, MARK);
      MarkInLine(lines, MARK);
      var line :| line in lines && Contains(line, MARK);
      NoLineOpens(frags, lang, line);
    }
  }

  lemma FirstGroup(frags: seq<Fragment>, lang: Lang)
    requires frags != []
    ensures Categories(frags) != [] && GroupsOf(frags, lang) != []
  {
  }

  /** Preparing a release from fragments and extracting it gives the written body back exactly when only blank text
      stood under the Unreleased line, and preparing it again is refused. */
  lemma PreparedReleaseReadsBack(c: string, version: string, date: string, frags: seq<Fragment>, lang: Lang)
    requires ReleaseVersion(version) && PlainDate(date) && frags != [] && OpensNoSection(frags, lang)
    requires !Contains(c, Header(version))
    ensures var body := Render(GroupsOf(frags, lang));
            var inserted := InsertSection(c, version, date, body);
            && inserted.Ok?
            && (ExtractSection(inserted.value, version) == Ok(body) <==> AllWhite(UnreleasedText(c)))
            && forall date', body' :: InsertSection(inserted.value, version, date', body') == Err(AlreadyHasSection)
  {
    ReleaseVersionIsPlain(version);
    RenderedIsReleaseBody(frags, lang);
    RoundTrip(c, version, date, Render(GroupsOf(frags, lang)));
  }

  /** Preparing a release from no fragments writes a bare header, and extracting it gives the notes that stood under
      the Unreleased line, or fails as empty when there were none. */
  lemma EmptyReleaseReadsNotes(c: string, version: string, date: string, lang: Lang)
    requires ReleaseVersion(version) && PlainDate(date) && !Contains(c, Header(version))
    ensures var body := Render(GroupsOf([], lang));
            var inserted := InsertSection(c, version, date, body);
            && body == "" && inserted.Ok?
            && ExtractSection(inserted.value, version) == AnswerNotes(UnreleasedText(c))
            && forall date', body' :: InsertSection(inserted.value, version, date', body') == Err(AlreadyHasSection)
  {
    ReleaseVersionIsPlain(version);
    NothingRendered(lang);
    EmptyRelease(c, version, date);
  }

  lemma NothingRendered(lang: Lang)
    ensures Render(GroupsOf([], lang)) == ""
  {
    assert GroupsOf([], lang) == [];
  }
}
