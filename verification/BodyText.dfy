/** The text of a section body, literally: which lines it takes from the fragments, and how they are set. */
module BodyText {
  import opened Prelude
  import opened Text
  import opened Pieces
  import opened SectionBody
  import opened SectionLines

  // ----- the lines taken -----

  /** A fragment without a category goes under `Changed`. */
  lemma CategoryMeans(f: Fragment, c: string)
    ensures CategoryOf(f) == c <==> f.category == Some(c) || (f.category.None? && c == "Changed")
  {
  }

  /** The English text gives the English bullets; the Chinese one its own, or the English where there is none. */
  lemma BulletSource(f: Fragment)
    ensures BulletsOf(f, En) == Kept(f.en)
    ensures BulletsOf(f, Cn) == if f.cn == "" then Kept(f.en) else Kept(f.cn)
  {
  }

  /** Of a line its text is taken, without the white space at its end; a blank line gives nothing. */
  lemma LineTaken(line: string, blank: string)
    requires AllWhite(blank) && (line == "" || !White(line[|line| - 1]))
    ensures KeptLines([line + blank]) == if line == "" then [] else [line]
  {
    TrimEndPad(line, blank);
    assert [line + blank][1..] == [];
    if line != "" {
      InkStays(line);
    }
  }

  lemma {:induction false} InkStays(line: string)
    requires line != "" && !White(line[|line| - 1])
    ensures Trim(line) != ""
  {
    if White(line[0]) {
      assert line[1..][|line| - 2] == line[|line| - 1];
      InkStays(line[1..]);
    }
  }

  /** Bullets and categories are in the order of the fragments: what more fragments add comes behind. */
  lemma {:induction false} InFragmentOrder(frags: seq<Fragment>, more: seq<Fragment>, lang: Lang, c: string)
    ensures Bullets(frags, lang, c) <= Bullets(frags + more, lang, c) && Categories(frags) <= Categories(frags + more)
  {
    if more == [] {
      assert frags + more == frags;
    } else {
      assert (frags + more)[..|frags + more| - 1] == frags + more[..|more| - 1];
      InFragmentOrder(frags, more[..|more| - 1], lang, c);
    }
  }

  // ----- how they are set -----

  /** A heading, and the bullets below a blank line. */
  function Block(g: Group): string {
    "### " + g.category + if g.bullets == [] then "" else "\n\n" + Join(g.bullets, '\n')
  }

  /** A blank line between each two groups. */
  function Blocks(groups: seq<Group>): string {
    if groups == [] then ""
    else if |groups| == 1 then Block(groups[0])
    else Blocks(groups[..|groups| - 1]) + "\n\n" + Block(groups[|groups| - 1])
  }

  /** A group as the fragments give it: a one-line category without white space at its end, and such bullets. */
  predicate PlainGroup(g: Group) {
    && g.category != "" && '\n' !in g.category && !White(g.category[|g.category| - 1])
    && forall b | b in g.bullets :: IsBullet(b)
  }

  /** How many line feeds in a row stand at the end. */
  function RunAfter(s: string, run: nat): nat {
    if s == "" then run else if s[|s| - 1] == '\n' then RunAfter(s[..|s| - 1], run) + 1 else 0
  }

  lemma {:induction false} RunAfterStep(s: string, run: nat)
    requires s != ""
    ensures RunAfter(s, run) == RunAfter(s[1..], if s[0] == '\n' then run + 1 else 0)
  {
    if |s| > 1 {
      assert s[1..][|s| - 2] == s[|s| - 1];
      assert s[..|s| - 1][1..] == s[1..][..|s| - 2];
      RunAfterStep(s[..|s| - 1], run);
    }
  }

  lemma {:induction false} SqueezeConcat(a: string, b: string, run: nat)
    ensures Squeeze(a + b, run) == Squeeze(a, run) + Squeeze(b, RunAfter(a, run))
  {
    if a == "" {
      assert a + b == b;
    } else {
      assert (a + b)[1..] == a[1..] + b;
      RunAfterStep(a, run);
      SqueezeConcat(a[1..], b, if a[0] == '\n' then run + 1 else 0);
    }
  }

  lemma {:induction false} RunAfterConcat(a: string, b: string, run: nat)
    ensures RunAfter(a + b, run) == RunAfter(b, RunAfter(a, run))
  {
    if b == "" {
      assert a + b == a;
    } else {
      assert (a + b)[..|a + b| - 1] == a + b[..|b| - 1];
      RunAfterConcat(a, b[..|b| - 1], run);
    }
  }

  lemma {:induction false} JoinConcat(a: seq<string>, b: seq<string>)
    requires a != [] && b != []
    ensures JoinLines(a + b) == JoinLines(a) + "\n" + JoinLines(b)
  {
    if |b| == 1 {
      JoinSnoc(a, b[0], '\n');
      assert a + b == a + [b[0]];
    } else {
      var front, last := b[..|b| - 1], b[|b| - 1];
      JoinConcat(a, front);
      JoinSnoc(a + front, last, '\n');
      JoinSnoc(front, last, '\n');
      assert a + b == a + front + [last] && b == front + [last];
      assert JoinLines(a) + "\n" + JoinLines(front) + "\n" + last ==
             JoinLines(a) + "\n" + (JoinLines(front) + "\n" + last);
    }
  }

  /** The line feeds behind a group before any are dropped or trimmed. */
  function Feeds(g: Group): string { if g.bullets == [] then "\n\n" else "\n" }

  lemma GroupText(g: Group)
    ensures JoinLines([Heading(g.category), ""] + g.bullets + [""]) == Block(g) + Feeds(g)
  {
    var h := Heading(g.category);
    JoinSnoc([h], "", '\n');
    assert [h] + [""] == [h, ""] && h + "\n" + "" == h + "\n";
    if g.bullets == [] {
      assert [h, ""] + g.bullets + [""] == [h, ""] + [""];
      JoinConcat([h, ""], [""]);
      assert h + "\n" + "\n" + "" == h + "\n\n";
    } else {
      JoinConcat([h, ""], g.bullets);
      JoinConcat([h, ""] + g.bullets, [""]);
      var bullets := JoinLines(g.bullets);
      assert h + "\n" + "\n" + bullets + "\n" + "" == h + ("\n\n" + bullets) + "\n";
    }
  }

  lemma BulletLine(b: string)
    requires IsBullet(b)
    ensures b != "" && '\n' !in b && !White(b[|b| - 1])
  {
  }

  lemma {:induction false} BulletsStand(bullets: seq<string>, run: nat)
    requires bullets != [] && forall b | b in bullets :: IsBullet(b)
    ensures Squeeze(Join(bullets, '\n') + "\n", run) == Join(bullets, '\n') + "\n"
  {
    hide IsBullet;
    var b := bullets[0];
    BulletLine(b);
    if |bullets| == 1 {
      SqueezeLine(b, "\n", run);
    } else {
      var rest := Join(bullets[1..], '\n') + "\n";
      assert Join(bullets, '\n') + "\n" == b + ("\n" + rest);
      SqueezeLine(b, "\n" + rest, run);
      assert ("\n" + rest)[1..] == rest;
      BulletsStand(bullets[1..], 1);
    }
  }

  lemma {:induction false} JoinedEnd(lines: seq<string>)
    requires lines != [] && lines[|lines| - 1] != ""
    ensures var s, last := Join(lines, '\n'), lines[|lines| - 1]; s != "" && s[|s| - 1] == last[|last| - 1]
  {
    if |lines| > 1 {
      JoinedEnd(lines[1..]);
    }
  }

  lemma BlockEnd(g: Group)
    requires PlainGroup(g)
    ensures Block(g) != "" && !White(Block(g)[|Block(g)| - 1])
  {
    hide IsBullet;
    if g.bullets != [] {
      BulletLine(g.bullets[|g.bullets| - 1]);
      JoinedEnd(g.bullets);
    }
  }

  lemma GroupStands(g: Group, run: nat)
    requires PlainGroup(g)
    ensures Squeeze(Block(g) + Feeds(g), run) == Block(g) + Feeds(g)
    ensures RunAfter(Block(g) + Feeds(g), run) == |Feeds(g)|
  {
    hide IsBullet;
    BlockEnd(g);
    RunAfterConcat(Block(g), Feeds(g), run);
    assert RunAfter(Block(g), run) == 0;
    FeedsRun(g);
    var h := "### " + g.category;
    if g.bullets == [] {
      SqueezeLine(h, "\n\n", run);
      assert Squeeze("\n\n", 0) == "\n\n";
      assert h + "" == h;
    } else {
      var lines := Join(g.bullets, '\n') + "\n";
      assert Block(g) + Feeds(g) == h + ("\n\n" + lines);
      SqueezeLine(h, "\n\n" + lines, run);
      TwoFeeds(lines);
      BulletsStand(g.bullets, 2);
    }
  }

  lemma FeedsRun(g: Group)
    ensures RunAfter(Feeds(g), 0) == |Feeds(g)|
  {
    assert "\n\n"[..1] == "\n" && "\n"[..0] == "";
  }

  lemma TwoFeeds(t: string)
    ensures Squeeze("\n\n" + t, 0) == "\n\n" + Squeeze(t, 2)
  {
    assert ("\n\n" + t)[1..] == "\n" + t && ("\n" + t)[1..] == t;
    assert "\n" + ("\n" + Squeeze(t, 2)) == "\n\n" + Squeeze(t, 2);
  }

  lemma FeedFirst(here: string, run: nat)
    ensures Squeeze("\n" + here, run) == (if run < 2 then "\n" else "") + Squeeze(here, run + 1)
    ensures RunAfter("\n", run) == run + 1
  {
    assert ("\n" + here)[1..] == here;
    assert "\n"[..0] == "";
  }

  lemma NextText(text: string, run: nat, here: string)
    requires RunAfter(text, 0) == run && Squeeze(here, run + 1) == here
    ensures Squeeze(text + "\n" + here, 0) == Squeeze(text, 0) + ((if run < 2 then "\n" else "") + here)
    ensures RunAfter(text + "\n" + here, 0) == RunAfter(here, run + 1)
  {
    hide *;
    assert text + "\n" + here == text + ("\n" + here);
    SqueezeConcat(text, "\n" + here, 0);
    RunAfterConcat(text, "\n" + here, 0);
    RunAfterConcat("\n", here, run);
    FeedFirst(here, run);
  }

  lemma {:induction false} Squeezed(groups: seq<Group>)
    requires groups != [] && forall g | g in groups :: PlainGroup(g)
    ensures var text, last := JoinLines(LinesOf(groups)), groups[|groups| - 1];
            Squeeze(text, 0) == Blocks(groups) + Feeds(last) && RunAfter(text, 0) == |Feeds(last)|
  {
    hide PlainGroup, Block, Squeeze, RunAfter;
    var front, g := groups[..|groups| - 1], groups[|groups| - 1];
    var lines, here := [Heading(g.category), ""] + g.bullets + [""], Block(g) + Feeds(g);
    GroupText(g);
    if front == [] {
      assert LinesOf(groups) == lines;
      GroupStands(g, 0);
    } else {
      var before := front[|front| - 1];
      Squeezed(front);
      LinesNotEmpty(front);
      JoinConcat(LinesOf(front), lines);
      GroupStands(g, |Feeds(before)| + 1);
      NextText(JoinLines(LinesOf(front)), |Feeds(before)|, here);
      FeedsFill(before);
      assert Blocks(front) + Feeds(before) + ((if |Feeds(before)| < 2 then "\n" else "") + here) ==
             Blocks(front) + (Feeds(before) + (if |Feeds(before)| < 2 then "\n" else "")) + Block(g) + Feeds(g);
    }
  }

  lemma LinesNotEmpty(groups: seq<Group>)
    requires groups != []
    ensures LinesOf(groups) != []
  {
  }

  lemma FeedsFill(g: Group)
    ensures Feeds(g) + (if |Feeds(g)| < 2 then "\n" else "") == "\n\n"
  {
  }

  lemma {:induction false} BlocksEnd(groups: seq<Group>)
    requires groups != [] && forall g | g in groups :: PlainGroup(g)
    ensures Blocks(groups) != "" && !White(Blocks(groups)[|Blocks(groups)| - 1])
  {
    hide PlainGroup, Block, White;
    BlockEnd(groups[|groups| - 1]);
  }

  /** The body is its groups' blocks with one blank line between each two. */
  lemma RenderedBlocks(groups: seq<Group>)
    requires forall g | g in groups :: PlainGroup(g)
    ensures Render(groups) == Blocks(groups)
  {
    hide PlainGroup, Block, White, Squeeze, LinesOf;
    NothingTrimmedInFront(groups);
    if groups == [] {
      NothingRendered();
    } else {
      Squeezed(groups);
      BlocksEnd(groups);
      FeedsAreWhite(groups[|groups| - 1]);
      TrimEndPad(Blocks(groups), Feeds(groups[|groups| - 1]));
    }
  }

  lemma FeedsAreWhite(g: Group)
    ensures AllWhite(Feeds(g))
  {
  }

  lemma NothingRendered()
    ensures Render([]) == ""
  {
  }

  /** A fragment's category as it is parsed: one line, trimmed, not empty. */
  predicate PlainCategory(f: Fragment) {
    f.category.Some? ==> f.category.value != "" && '\n' !in f.category.value && Trimmed(f.category.value)
  }

  /** From fragments to text: the body is the blocks of their groups. */
  lemma BodyIsBlocks(frags: seq<Fragment>, lang: Lang)
    requires forall f | f in frags :: PlainCategory(f)
    ensures Render(GroupsOf(frags, lang)) == Blocks(GroupsOf(frags, lang))
  {
    hide White, IsBullet, Bullets, Categories, Render, Blocks;
    var cs, groups := Categories(frags), GroupsOf(frags, lang);
    forall g | g in groups
      ensures PlainGroup(g)
    {
      var i :| 0 <= i < |groups| && groups[i] == g;
      BulletsAreBullets(frags, lang, cs[i]);
      CategoriesArePlain(frags, cs[i]);
    }
    RenderedBlocks(groups);
  }

  lemma {:induction false} CategoriesArePlain(frags: seq<Fragment>, c: string)
    requires (forall f | f in frags :: PlainCategory(f)) && c in Categories(frags)
    ensures c != "" && '\n' !in c && !White(c[|c| - 1])
  {
    hide White;
    var front, f := frags[..|frags| - 1], frags[|frags| - 1];
    if c in Categories(front) {
      CategoriesArePlain(front, c);
    } else {
      assert f in frags && PlainCategory(f);
      ChangedIsPlain();
    }
  }

  lemma ChangedIsPlain()
    ensures DEFAULT_CATEGORY != "" && '\n' !in DEFAULT_CATEGORY && !White(DEFAULT_CATEGORY[|DEFAULT_CATEGORY| - 1])
  {
  }
}
