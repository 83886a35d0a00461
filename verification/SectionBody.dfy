/** Building one release's changelog body from fragments: grouped by category, nothing lost. */
module SectionBody {
  import opened Prelude
  import opened Text
  import opened Pieces

  const DEFAULT_CATEGORY := "Changed"

  datatype Lang = En | Cn
  datatype Fragment = Fragment(category: Option<string>, en: string, cn: string)
  datatype Group = Group(category: string, bullets: seq<string>)

  function CategoryOf(f: Fragment): string { if f.category.None? then DEFAULT_CATEGORY else f.category.value }

  /** The Chinese changelog falls back to the English bullets. */
  function BodyOf(f: Fragment, lang: Lang): string { if lang.Cn? && f.cn != "" then f.cn else f.en }

  function KeptLines(lines: seq<string>): seq<string> {
    if lines == [] then []
    else (if Trim(TrimEnd(lines[0])) != "" then [TrimEnd(lines[0])] else []) + KeptLines(lines[1..])
  }

  /** The non-blank lines of one fragment, right-trimmed. */
  function BulletsOf(f: Fragment, lang: Lang): seq<string> { KeptLines(Split(BodyOf(f, lang), '\n')) }

  // ----- the grouping, stated per category -----

  function Bullets(frags: seq<Fragment>, lang: Lang, category: string): seq<string> {
    if frags == [] then []
    else
      var last := frags[|frags| - 1];
      Bullets(frags[..|frags| - 1], lang, category)
        + (if CategoryOf(last) == category then BulletsOf(last, lang) else [])
  }

  /** Categories in order of first appearance. */
  function Categories(frags: seq<Fragment>): seq<string> {
    if frags == [] then []
    else
      var before := Categories(frags[..|frags| - 1]);
      var c := CategoryOf(frags[|frags| - 1]);
      if c in before then before else before + [c]
  }

  function GroupsOf(frags: seq<Fragment>, lang: Lang): seq<Group> {
    var cs := Categories(frags);
    seq(|cs|, i requires 0 <= i < |cs| => Group(cs[i], Bullets(frags, lang, cs[i])))
  }

  predicate IsGroupOf(groups: seq<Group>, category: string, at: int) {
    && -1 <= at < |groups|
    && (at >= 0 ==> groups[at].category == category)
    && (at == -1 ==> forall j | 0 <= j < |groups| :: groups[j].category != category)
  }

  method FindGroup(groups: seq<Group>, category: string) returns (at: int)
    ensures IsGroupOf(groups, category, at)
  {
    for i := 0 to |groups|
      invariant forall j | 0 <= j < i :: groups[j].category != category
    {
      if groups[i].category == category { return i; }
    }
    at := -1;
  }

  /** Appends one fragment's bullets to a group. */
  method AddLines(group: Group, lines: seq<string>) returns (grown: Group)
    ensures grown == Group(group.category, group.bullets + KeptLines(lines))
  {
    grown := group;
    assert lines[0..] == lines;
    for k := 0 to |lines|
      invariant grown.category == group.category
      invariant group.bullets + KeptLines(lines) == grown.bullets + KeptLines(lines[k..])
    {
      var t := TrimEnd(lines[k]);
      assert lines[k..][1..] == lines[k + 1..];
      if Trim(t) != "" {
        assert grown.bullets + ([t] + KeptLines(lines[k + 1..])) == (grown.bullets + [t]) + KeptLines(lines[k + 1..]);
        grown := Group(grown.category, grown.bullets + [t]);
      } else {
        assert [] + KeptLines(lines[k + 1..]) == KeptLines(lines[k + 1..]);
      }
    }
    assert grown.bullets + [] == grown.bullets;
  }

  /** What one more fragment does to the grouping. */
  function AddFragment(groups: seq<Group>, at: int, f: Fragment, lang: Lang): seq<Group>
    requires -1 <= at < |groups|
  {
    if at == -1 then groups + [Group(CategoryOf(f), BulletsOf(f, lang))]
    else groups[at := Group(groups[at].category, groups[at].bullets + BulletsOf(f, lang))]
  }

  lemma GroupsStep(frags: seq<Fragment>, lang: Lang, f: Fragment, at: int)
    requires IsGroupOf(GroupsOf(frags, lang), CategoryOf(f), at)
    ensures GroupsOf(frags + [f], lang) == AddFragment(GroupsOf(frags, lang), at, f, lang)
  {
    var c, cs := CategoryOf(f), Categories(frags);
    assert (frags + [f])[..|frags|] == frags;
    NewCategoryHasNoBullets(frags, lang, c);
    CategoriesDistinct(frags);
    var before := GroupsOf(frags, lang);
    assert forall j | 0 <= j < |before| :: before[j].category == cs[j];
    var after := GroupsOf(frags + [f], lang);
    assert at == -1 ==> c !in cs;
    assert at >= 0 ==> cs[at] == c;
    forall j | 0 <= j < |after|
      ensures after[j] == AddFragment(before, at, f, lang)[j]
    {
      assert j < |cs| ==>
               after[j] == Group(cs[j], Bullets(frags, lang, cs[j]) + (if cs[j] == c then BulletsOf(f, lang) else []));
      assert forall b: seq<string> :: b + [] == b && [] + b == b;
    }
  }

  method BuildGroups(lang: Lang, frags: seq<Fragment>) returns (groups: seq<Group>)
    ensures groups == GroupsOf(frags, lang)
  {
    groups := [];
    for i := 0 to |frags|
      invariant groups == GroupsOf(frags[..i], lang)
    {
      var f := frags[i];
      var at := FindGroup(groups, CategoryOf(f));
      GroupsStep(frags[..i], lang, f, at);
      assert frags[..i + 1] == frags[..i] + [f];
      ghost var before, found := groups, at;
      if at == -1 {
        groups := groups + [Group(CategoryOf(f), [])];
        at := |groups| - 1;
      }
      var grown := AddLines(groups[at], Split(BodyOf(f, lang), '\n'));
      groups := groups[at := grown];
      assert [] + BulletsOf(f, lang) == BulletsOf(f, lang);
      assert groups == AddFragment(before, found, f, lang);
    }
    assert frags[..|frags|] == frags;
  }

  lemma {:induction false} NewCategoryHasNoBullets(frags: seq<Fragment>, lang: Lang, category: string)
    ensures category !in Categories(frags) ==> Bullets(frags, lang, category) == []
  {
    if frags != [] {
      NewCategoryHasNoBullets(frags[..|frags| - 1], lang, category);
    }
  }

  lemma {:induction false} CategoriesDistinct(frags: seq<Fragment>)
    ensures forall i, j | 0 <= i < j < |Categories(frags)| :: Categories(frags)[i] != Categories(frags)[j]
  {
    if frags != [] {
      CategoriesDistinct(frags[..|frags| - 1]);
    }
  }

  // ----- nothing lost -----

  function AllBullets(frags: seq<Fragment>, lang: Lang): seq<string> {
    if frags == [] then [] else AllBullets(frags[..|frags| - 1], lang) + BulletsOf(frags[|frags| - 1], lang)
  }

  function Collected(frags: seq<Fragment>, lang: Lang, categories: seq<string>): seq<string> {
    if categories == [] then []
    else Collected(frags, lang, categories[..|categories| - 1]) + Bullets(frags, lang, categories[|categories| - 1])
  }

  lemma BulletsStep(frags: seq<Fragment>, lang: Lang, c: string)
    requires frags != []
    ensures var last := frags[|frags| - 1];
            multiset(Bullets(frags, lang, c)) ==
            multiset(Bullets(frags[..|frags| - 1], lang, c))
              + (if CategoryOf(last) == c then multiset(BulletsOf(last, lang)) else multiset{})
  {
  }

  lemma {:induction false} CollectedGrows(frags: seq<Fragment>, lang: Lang, cs: seq<string>)
    requires frags != [] && forall i, j | 0 <= i < j < |cs| :: cs[i] != cs[j]
    ensures var last := frags[|frags| - 1];
            multiset(Collected(frags, lang, cs)) ==
            multiset(Collected(frags[..|frags| - 1], lang, cs)) +
            (if CategoryOf(last) in cs then multiset(BulletsOf(last, lang)) else multiset{})
  {
    hide CategoryOf, BulletsOf, Bullets;
    if cs != [] {
      var front, c := cs[..|cs| - 1], cs[|cs| - 1];
      BulletsStep(frags, lang, c);
      CollectedGrows(frags, lang, front);
      assert cs == front + [c];
      assert c !in front;
    }
  }

  /** Grouping only reorders: the groups hold exactly the fragments' non-blank lines. */
  lemma {:induction false} GroupingLosesNothing(frags: seq<Fragment>, lang: Lang)
    ensures multiset(Collected(frags, lang, Categories(frags))) == multiset(AllBullets(frags, lang))
    decreases |frags|
  {
    hide CategoryOf, BulletsOf, Bullets;
    if frags != [] {
      var front := frags[..|frags| - 1];
      var c := CategoryOf(frags[|frags| - 1]);
      GroupingLosesNothing(front, lang);
      CategoriesDistinct(frags);
      CollectedGrows(frags, lang, Categories(frags));
      if c !in Categories(front) {
        NewCategoryHasNoBullets(front, lang, c);
        assert Categories(frags)[..|Categories(frags)| - 1] == Categories(front);
      }
    }
  }

  // ----- rendering -----

  function Heading(category: string): string { "### " + category }

  function LinesOf(groups: seq<Group>): seq<string> {
    if groups == [] then []
    else LinesOf(groups[..|groups| - 1]) +
         ([Heading(groups[|groups| - 1].category), ""] + groups[|groups| - 1].bullets + [""])
  }

  function JoinLines(lines: seq<string>): string { if lines == [] then "" else Join(lines, '\n') }

  /** Runs of three or more line feeds become two; `run` counts the feeds just written. */
  function Squeeze(s: string, run: nat): string {
    if s == "" then ""
    else if s[0] == '\n' then (if run < 2 then "\n" else "") + Squeeze(s[1..], run + 1)
    else [s[0]] + Squeeze(s[1..], 0)
  }

  lemma FirstLineLeads(lines: seq<string>)
    requires lines != [] && lines[0] != "" && lines[0][0] == '#'
    ensures JoinLines(lines) != "" && JoinLines(lines)[0] == '#'
  {
  }

  lemma {:induction false} HeadingLeads(groups: seq<Group>)
    requires groups != []
    ensures LinesOf(groups) != [] && LinesOf(groups)[0] == Heading(groups[0].category)
  {
    if |groups| > 1 {
      HeadingLeads(groups[..|groups| - 1]);
    }
  }

  function Render(groups: seq<Group>): string { Trim(Squeeze(JoinLines(LinesOf(groups)), 0)) }

  /** Groups in order of first appearance, each with its own bullets in order; the text is trimmed at both ends. */
  method BuildSectionBody(lang: Lang, frags: seq<Fragment>) returns (body: string)
    ensures body == Render(GroupsOf(frags, lang))
    ensures Trimmed(body)
  {
    var groups := BuildGroups(lang, frags);
    var lines: seq<string> := [];
    for i := 0 to |groups|
      invariant lines == LinesOf(groups[..i])
    {
      assert groups[..i + 1][..i] == groups[..i];
      lines := lines + ([Heading(groups[i].category), ""] + groups[i].bullets + [""]);
    }
    assert groups[..|groups|] == groups;
    body := Trim(Squeeze(JoinLines(lines), 0));
    TrimmedUnchanged(Squeeze(JoinLines(lines), 0));
  }
}
