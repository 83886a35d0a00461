/** The written section body read back line by line: squeezing, joining and trimming lose no line. */
module SectionLines {
  import opened Text
  import opened Pieces
  import opened SectionBody

  /** The non-blank lines of a text, right-trimmed. */
  function Kept(s: string): seq<string> { KeptLines(Split(s, '\n')) }

  lemma {:induction false} KeptLinesConcat(a: seq<string>, b: seq<string>)
    ensures KeptLines(a + b) == KeptLines(a) + KeptLines(b)
  {
    if a == [] {
      assert a + b == b;
    } else {
      assert (a + b)[1..] == a[1..] + b;
      KeptLinesConcat(a[1..], b);
    }
  }

  lemma SplitBreak(a: string, b: string)
    ensures Split(a + "\n" + b, '\n') == Split(a, '\n') + Split(b, '\n')
  {
    var sa, sb := Split(a, '\n'), Split(b, '\n');
    SplitFirst("", b, '\n');
    assert "" + ['\n'] + b == "\n" + b;
    SplitConcat(a, "\n" + b, '\n');
    assert a + "\n" + b == a + ("\n" + b);
    assert sa[|sa| - 1] + "" == sa[|sa| - 1] && ([""] + sb)[1..] == sb;
    assert sa == sa[..|sa| - 1] + [sa[|sa| - 1]];
  }

  lemma KeptBreak(a: string, b: string)
    ensures Kept(a + "\n" + b) == Kept(a) + Kept(b)
  {
    SplitBreak(a, b);
    KeptLinesConcat(Split(a, '\n'), Split(b, '\n'));
  }

  lemma NothingKept()
    ensures Kept("") == []
  {
    assert Split("", '\n') == [""];
  }

  // ----- trimming -----

  lemma LinePad(line: string, c: char)
    requires White(c)
    ensures KeptLines([line + [c]]) == KeptLines([line])
  {
    TrimEndPad(line, [c]);
    assert [line][1..] == [] && [line + [c]][1..] == [];
  }

  lemma KeptPad(s: string, c: char)
    requires White(c)
    ensures Kept(s + [c]) == Kept(s)
  {
    if c == '\n' {
      assert s + [c] == s + "\n" + "";
      KeptBreak(s, "");
      NothingKept();
    } else {
      hide TrimEnd, KeptLines, Split;
      var lines := Split(s, '\n');
      var front, last := lines[..|lines| - 1], lines[|lines| - 1];
      SplitConcat(s, [c], '\n');
      SplitPlain([c], '\n');
      assert lines == front + [last] && Split(s + [c], '\n') == front + [last + [c]];
      KeptLinesConcat(front, [last]);
      KeptLinesConcat(front, [last + [c]]);
      LinePad(last, c);
    }
  }

  lemma {:induction false} KeptTrimEnd(s: string)
    ensures Kept(TrimEnd(s)) == Kept(s)
  {
    if s != "" && White(s[|s| - 1]) {
      KeptTrimEnd(s[..|s| - 1]);
      KeptPad(s[..|s| - 1], s[|s| - 1]);
      assert s == s[..|s| - 1] + [s[|s| - 1]];
    }
  }

  // ----- squeezing -----

  lemma {:induction false} SqueezeLine(line: string, t: string, run: nat)
    requires '\n' !in line
    ensures Squeeze(line + t, run) == line + Squeeze(t, if line == "" then run else 0)
  {
    if line == "" {
      assert line + t == t;
      assert "" + Squeeze(t, run) == Squeeze(t, run);
    } else {
      assert (line + t)[1..] == line[1..] + t;
      SqueezeLine(line[1..], t, 0);
      assert [line[0]] + line[1..] == line;
    }
  }

  /** A line feed is written unless two stand there already; after an empty line that loses nothing. */
  lemma SqueezeBreak(line: string, rest: string, run: nat)
    requires '\n' !in line
    ensures var fed := if line == "" then run else 0;
            Kept(Squeeze(line + "\n" + rest, run)) == Kept(line) + Kept(Squeeze(rest, fed + 1))
  {
    hide Kept;
    var fed := if line == "" then run else 0;
    var tail := Squeeze(rest, fed + 1);
    assert line + "\n" + rest == line + ("\n" + rest);
    SqueezeLine(line, "\n" + rest, run);
    assert ("\n" + rest)[1..] == rest;
    if fed < 2 {
      assert line + ("\n" + tail) == line + "\n" + tail;
      KeptBreak(line, tail);
    } else {
      assert "" + ("" + tail) == tail && [] + Kept(tail) == Kept(tail);
      NothingKept();
    }
  }

  lemma KeptHead(lines: seq<string>)
    requires lines != [] && '\n' !in lines[0]
    ensures KeptLines(lines) == Kept(lines[0]) + KeptLines(lines[1..])
  {
    SplitPlain(lines[0], '\n');
    assert lines == [lines[0]] + lines[1..];
    KeptLinesConcat([lines[0]], lines[1..]);
  }

  lemma {:induction false} SqueezeKeepsLines(lines: seq<string>, run: nat)
    requires lines != [] && forall l | l in lines :: '\n' !in l
    ensures Kept(Squeeze(Join(lines, '\n'), run)) == KeptLines(lines)
  {
    hide Kept, KeptLines, Squeeze;
    var line := lines[0];
    KeptHead(lines);
    if |lines| == 1 {
      assert line + "" == line;
      SqueezeLine(line, "", run);
      EmptyTail(lines, if line == "" then run else 0);
    } else {
      SqueezeBreak(line, Join(lines[1..], '\n'), run);
      SqueezeKeepsLines(lines[1..], (if line == "" then run else 0) + 1);
    }
  }

  lemma EmptyTail(lines: seq<string>, run: nat)
    requires |lines| == 1
    ensures Kept(lines[0]) + KeptLines(lines[1..]) == Kept(lines[0]) && lines[0] + Squeeze("", run) == lines[0]
  {
    hide Kept;
  }

  lemma KeptSqueeze(s: string)
    ensures Kept(Squeeze(s, 0)) == Kept(s)
  {
    JoinSplit(s, '\n');
    SqueezeKeepsLines(Split(s, '\n'), 0);
  }

  // ----- joining -----

  function KeptOfEach(lines: seq<string>): seq<string> {
    if lines == [] then [] else KeptOfEach(lines[..|lines| - 1]) + Kept(lines[|lines| - 1])
  }

  lemma {:induction false} KeptOfEachConcat(a: seq<string>, b: seq<string>)
    ensures KeptOfEach(a + b) == KeptOfEach(a) + KeptOfEach(b)
  {
    hide Kept;
    if b == [] {
      assert a + b == a;
    } else {
      assert (a + b)[..|a + b| - 1] == a + b[..|b| - 1];
      KeptOfEachConcat(a, b[..|b| - 1]);
    }
  }

  lemma {:induction false} KeptJoin(lines: seq<string>)
    ensures Kept(JoinLines(lines)) == KeptOfEach(lines)
  {
    hide Kept;
    if lines == [] {
      NothingKept();
    } else {
      var front, last := lines[..|lines| - 1], lines[|lines| - 1];
      KeptJoin(front);
      if front != [] {
        JoinSnoc(front, last, '\n');
        assert lines == front + [last];
        KeptBreak(Join(front, '\n'), last);
      } else {
        assert lines == [last] && [] + Kept(last) == Kept(last);
      }
    }
  }

  // ----- bullets are lines of their own -----

  predicate IsBullet(b: string) { '\n' !in b && TrimEnd(b) == b && Trim(b) != "" }

  lemma BulletIsKept(b: string)
    requires IsBullet(b)
    ensures Kept(b) == [b]
  {
    SplitPlain(b, '\n');
    assert [b][1..] == [] && [b] + KeptLines([]) == [b];
  }

  lemma {:induction false} BulletsAreKept(bullets: seq<string>)
    requires forall b | b in bullets :: IsBullet(b)
    ensures KeptOfEach(bullets) == bullets
  {
    hide Kept, IsBullet;
    if bullets != [] {
      BulletsAreKept(bullets[..|bullets| - 1]);
      BulletIsKept(bullets[|bullets| - 1]);
      assert bullets == bullets[..|bullets| - 1] + [bullets[|bullets| - 1]];
    }
  }

  lemma TrimEndTwice(s: string)
    ensures TrimEnd(TrimEnd(s)) == TrimEnd(s)
  {
    var b := TrimEndShape(s);
    TrimEndPad(TrimEnd(s), b);
  }

  lemma PrefixHoldsLess(a: string, s: string, c: char)
    requires a <= s && c !in s
    ensures c !in a
  {
    assert forall i | 0 <= i < |a| :: a[i] == s[i];
  }

  lemma {:induction false} KeptLinesAreBullets(lines: seq<string>)
    requires forall l | l in lines :: '\n' !in l
    ensures forall b | b in KeptLines(lines) :: IsBullet(b)
  {
    if lines != [] {
      KeptLinesAreBullets(lines[1..]);
      TrimEndTwice(lines[0]);
      PrefixHoldsLess(TrimEnd(lines[0]), lines[0], '\n');
    }
  }

  lemma {:induction false} BulletsAreBullets(frags: seq<Fragment>, lang: Lang, c: string)
    ensures forall b | b in Bullets(frags, lang, c) :: IsBullet(b)
  {
    hide IsBullet, BodyOf, CategoryOf;
    if frags != [] {
      BulletsAreBullets(frags[..|frags| - 1], lang, c);
      KeptLinesAreBullets(Split(BodyOf(frags[|frags| - 1], lang), '\n'));
    }
  }

  // ----- the whole body -----

  /** What a reader of the body finds: each group's heading, then its bullets. */
  function Outline(groups: seq<Group>): seq<string> {
    if groups == [] then []
    else
      var last := groups[|groups| - 1];
      Outline(groups[..|groups| - 1]) + Kept(Heading(last.category)) + last.bullets
  }

  lemma GroupKept(g: Group)
    requires forall b | b in g.bullets :: IsBullet(b)
    ensures KeptOfEach([Heading(g.category), ""] + g.bullets + [""]) == Kept(Heading(g.category)) + g.bullets
  {
    hide IsBullet, Kept;
    var head := [Heading(g.category), ""];
    NothingKept();
    BulletsAreKept(g.bullets);
    KeptOfEachConcat(head, g.bullets);
    KeptOfEachConcat(head + g.bullets, [""]);
    assert head[..1] == [Heading(g.category)] && [Heading(g.category)][..0] == [] && [""][..0] == [];
  }

  lemma {:induction false} LinesKept(groups: seq<Group>)
    requires forall g, b | g in groups && b in g.bullets :: IsBullet(b)
    ensures KeptOfEach(LinesOf(groups)) == Outline(groups)
  {
    hide IsBullet, Kept;
    if groups != [] {
      var front, g := groups[..|groups| - 1], groups[|groups| - 1];
      LinesKept(front);
      GroupKept(g);
      KeptOfEachConcat(LinesOf(front), [Heading(g.category), ""] + g.bullets + [""]);
    }
  }

  lemma NothingTrimmedInFront(groups: seq<Group>)
    ensures var squeezed := Squeeze(JoinLines(LinesOf(groups)), 0); Render(groups) == TrimEnd(squeezed)
  {
    if groups != [] {
      HeadingLeads(groups);
      FirstLineLeads(LinesOf(groups));
    }
  }

  /** Read back, the body is exactly its groups: no heading and no bullet is lost, joined, split or reordered. */
  lemma RenderedLines(groups: seq<Group>)
    requires forall g, b | g in groups && b in g.bullets :: IsBullet(b)
    ensures Kept(Render(groups)) == Outline(groups)
  {
    hide IsBullet, Kept, Render, Squeeze, LinesOf;
    var joined := JoinLines(LinesOf(groups));
    NothingTrimmedInFront(groups);
    KeptTrimEnd(Squeeze(joined, 0));
    KeptSqueeze(joined);
    KeptJoin(LinesOf(groups));
    LinesKept(groups);
  }

  function Headings(categories: seq<string>): seq<string> {
    if categories == [] then []
    else Headings(categories[..|categories| - 1]) + Kept(Heading(categories[|categories| - 1]))
  }

  lemma {:induction false} OutlineHolds(frags: seq<Fragment>, lang: Lang, groups: seq<Group>, cs: seq<string>)
    requires |groups| == |cs| && forall i | 0 <= i < |cs| :: groups[i] == Group(cs[i], Bullets(frags, lang, cs[i]))
    ensures multiset(Outline(groups)) == multiset(Headings(cs)) + multiset(Collected(frags, lang, cs))
    decreases |cs|
  {
    hide Bullets, Kept;
    if cs != [] {
      OutlineHolds(frags, lang, groups[..|cs| - 1], cs[..|cs| - 1]);
    }
  }

  /** From fragments to text: the body's lines are the groups in order, and they hold every
      fragment's non-blank lines and the headings, counted with repetition, and nothing else. */
  lemma BodyKeepsEveryLine(frags: seq<Fragment>, lang: Lang)
    ensures Kept(Render(GroupsOf(frags, lang))) == Outline(GroupsOf(frags, lang))
    ensures multiset(Kept(Render(GroupsOf(frags, lang)))) ==
            multiset(Headings(Categories(frags))) + multiset(AllBullets(frags, lang))
  {
    hide IsBullet, Kept, Render, Bullets;
    var groups := GroupsOf(frags, lang);
    forall g, b | g in groups && b in g.bullets
      ensures IsBullet(b)
    {
      BulletsAreBullets(frags, lang, g.category);
    }
    RenderedLines(groups);
    OutlineHolds(frags, lang, groups, Categories(frags));
    GroupingLosesNothing(frags, lang);
  }
}
