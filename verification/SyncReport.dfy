/** The two sweeps put together, and what `ok` decides. */
module SyncReport {
  import opened Prelude
  import opened Frontmatter
  import opened DocumentSync

  datatype Report = Report(
    ok: bool, compared: nat, divergences: seq<Divergence>, stale: seq<Stale>, collisions: seq<Collision>,
    unexpressed: map<string, nat>)

  function Route(t: Token): (c: Claim)
    ensures c.token == t && (c.slot.Path? ==> c.slot.keys != [])
  {
    TypoHasKeys(t.name, TYPO_PROPS);
    Claim(t, DocumentSlot(t.layer, t.name, t.theme))
  }

  function LayerClaims(theme: Theme, l: Layer): seq<Claim> {
    seq(|l.tokens|, i requires 0 <= i < |l.tokens| => Route(Token(theme, l.name, l.tokens[i].0, l.tokens[i].1)))
  }

  function ThemeClaims(theme: Theme, layers: seq<Layer>): seq<Claim> {
    if layers == [] then [] else ThemeClaims(theme, layers[..|layers| - 1]) + LayerClaims(theme, layers[|layers| - 1])
  }

  type Fixture = map<Theme, seq<Layer>>

  function AllClaims(fixture: Fixture): seq<Claim>
    requires Dark in fixture && Light in fixture
  {
    ThemeClaims(Dark, fixture[Dark]) + ThemeClaims(Light, fixture[Light])
  }

  method SweepLayer(doc: Node, theme: Theme, l: Layer, s: Sweep, ghost before: seq<Claim>) returns (next: Sweep)
    requires Swept(doc, before, s)
    ensures Swept(doc, before + LayerClaims(theme, l), next)
  {
    next := s;
    assert before + LayerClaims(theme, l)[..0] == before;
    for i := 0 to |l.tokens|
      invariant Swept(doc, before + LayerClaims(theme, l)[..i], next)
    {
      ghost var done := before + LayerClaims(theme, l)[..i];
      var c := Route(Token(theme, l.name, l.tokens[i].0, l.tokens[i].1));
      assert before + LayerClaims(theme, l)[..i + 1] == done + [c];
      next := MakeClaim(doc, c, next, done);
    }
    assert LayerClaims(theme, l)[..|l.tokens|] == LayerClaims(theme, l);
  }

  method SweepTheme(doc: Node, theme: Theme, layers: seq<Layer>, s: Sweep, ghost before: seq<Claim>)
    returns (next: Sweep)
    requires Swept(doc, before, s)
    ensures Swept(doc, before + ThemeClaims(theme, layers), next)
  {
    hide Swept, LayerClaims;
    next := s;
    assert before + ThemeClaims(theme, layers[..0]) == before;
    for i := 0 to |layers|
      invariant Swept(doc, before + ThemeClaims(theme, layers[..i]), next)
    {
      ghost var done := before + ThemeClaims(theme, layers[..i]);
      assert layers[..i + 1][..i] == layers[..i];
      assert before + ThemeClaims(theme, layers[..i + 1]) == done + LayerClaims(theme, layers[i]);
      next := SweepLayer(doc, theme, layers[i], next, done);
    }
    assert layers[..|layers|] == layers;
  }

  // ----- the reverse sweep -----

  const GROUPS := ["typography", "spacing", "rounded", "motion", "elevation"]
  const DOCUMENT_ONLY := {"spacing.base", "motion.reduced-motion"}

  function ColorsKeys(theme: Theme): seq<string> { ["themes", ThemeName(theme), "colors"] }

  function PrintedText(n: Option<Node>): string { if TextOf(n).Some? then TextOf(n).value else "undefined" }

  /** Declared colours no live token carries. */
  function StaleColors(fs: Fields, theme: Theme, live: set<string>): seq<Stale> {
    match fs
    case End => []
    case Field(key, node, rest) =>
      (if key in live then [] else [Stale(Dotted(ColorsKeys(theme) + [key]), PrintedText(Some(node)))])
        + StaleColors(rest, theme, live)
  }

  function StaleIn(doc: Node, paths: seq<string>, emitted: map<string, Token>): seq<Stale> {
    if paths == [] then []
    else
      var p := paths[|paths| - 1];
      StaleIn(doc, paths[..|paths| - 1], emitted)
      + (if p in emitted || p in DOCUMENT_ONLY then [] else [Stale(p, PrintedText(At(doc, p)))])
  }

  /** Only a declared object carries names. */
  function ThemeStale(doc: Node, theme: Theme, live: set<string>): seq<Stale> {
    var declared := At(doc, Dotted(ColorsKeys(theme)));
    if declared.Some? && declared.value.Obj? then StaleColors(declared.value.fields, theme, live) else []
  }

  function GroupStale(doc: Node, group: string, emitted: map<string, Token>): seq<Stale> {
    var declared := At(doc, group);
    if declared.Some? && declared.value.Obj? then StaleIn(doc, Leaves(declared.value, group), emitted) else []
  }

  function GroupsStale(doc: Node, groups: seq<string>, emitted: map<string, Token>): seq<Stale> {
    if groups == [] then []
    else GroupsStale(doc, groups[..|groups| - 1], emitted) + GroupStale(doc, groups[|groups| - 1], emitted)
  }

  method SweepColors(doc: Node, theme: Theme, live: set<string>, stale: seq<Stale>) returns (next: seq<Stale>)
    ensures next == stale + ThemeStale(doc, theme, live)
  {
    hide At, PrintedText, Dotted;
    next := stale;
    var declared := At(doc, Dotted(ColorsKeys(theme)));
    if declared.None? || declared.value.Leaf? {
      return;
    }
    var rest := declared.value.fields;
    while rest.Field?
      invariant next + StaleColors(rest, theme, live) == stale + StaleColors(declared.value.fields, theme, live)
      decreases rest
    {
      if rest.key !in live {
        next := next + [Stale(Dotted(ColorsKeys(theme) + [rest.key]), PrintedText(Some(rest.node)))];
      }
      rest := rest.rest;
    }
  }

  method SweepGroup(doc: Node, group: string, emitted: map<string, Token>, stale: seq<Stale>) returns (next: seq<Stale>)
    ensures next == stale + GroupStale(doc, group, emitted)
  {
    next := stale;
    var declared := At(doc, group);
    if declared.None? || declared.value.Leaf? {
      return;
    }
    var paths := Leaves(declared.value, group);
    for i := 0 to |paths|
      invariant next == stale + StaleIn(doc, paths[..i], emitted)
    {
      assert paths[..i + 1][..i] == paths[..i];
      if paths[i] in emitted || paths[i] in DOCUMENT_ONLY {
        continue;
      }
      next := next + [Stale(paths[i], PrintedText(At(doc, paths[i])))];
    }
    assert paths[..|paths|] == paths;
  }

  function StaleFrom(doc: Node, s: Sweep, groups: seq<string>): seq<Stale> {
    ThemeStale(doc, Dark, s.darkColors) + ThemeStale(doc, Light, s.lightColors) + GroupsStale(doc, groups, s.emitted)
  }

  function StaleOf(doc: Node, s: Sweep): seq<Stale> { StaleFrom(doc, s, GROUPS) }

  method SweepGroups(doc: Node, groups: seq<string>, emitted: map<string, Token>, stale: seq<Stale>)
    returns (next: seq<Stale>)
    ensures next == stale + GroupsStale(doc, groups, emitted)
  {
    hide GroupStale;
    next := stale;
    for i := 0 to |groups|
      invariant next == stale + GroupsStale(doc, groups[..i], emitted)
    {
      assert groups[..i + 1][..i] == groups[..i];
      next := SweepGroup(doc, groups[i], emitted, next);
    }
    assert groups[..|groups|] == groups;
  }

  method SweepBack(doc: Node, s: Sweep) returns (stale: seq<Stale>)
    ensures stale == StaleOf(doc, s)
  {
    hide ThemeStale, GroupsStale;
    stale := SweepColors(doc, Dark, s.darkColors, []);
    stale := SweepColors(doc, Light, s.lightColors, stale);
    stale := SweepGroups(doc, GROUPS, s.emitted, stale);
  }

  /** A report is the forward sweep over every fixture token and the reverse sweep of what it left. */
  ghost predicate Reports(fixture: Fixture, doc: Node, r: Report)
    requires Dark in fixture && Light in fixture
  {
    exists s: Sweep ::
      && Swept(doc, AllClaims(fixture), s)
      && r == Report(s.divergences == [] && StaleOf(doc, s) == [] && s.collisions == [],
                     |s.emitted|, s.divergences, StaleOf(doc, s), s.collisions, s.unexpressed)
  }

  /** A missing theme is the one error. */
  method CheckDocument(fixture: Fixture, doc: Node) returns (r: Result<Report, Theme>)
    ensures r.Ok? <==> Dark in fixture && Light in fixture
    ensures r.Ok? ==> Reports(fixture, doc, r.value)
  {
    if Dark !in fixture {
      return Err(Dark);
    }
    assert [] + ThemeClaims(Dark, fixture[Dark]) == ThemeClaims(Dark, fixture[Dark]);
    assert forall p: string :: Lookup(EMPTY.emitted, p) == FirstClaim([], p);
    assert forall p: string :: Tally(EMPTY.unexpressed, p) == Reasons([], p);
    var s := SweepTheme(doc, Dark, fixture[Dark], EMPTY, []);
    if Light !in fixture {
      return Err(Light);
    }
    s := SweepTheme(doc, Light, fixture[Light], s, ThemeClaims(Dark, fixture[Dark]));
    var stale := SweepBack(doc, s);
    assert Swept(doc, AllClaims(fixture), s);
    r := Ok(Report(|s.divergences| == 0 && |stale| == 0 && |s.collisions| == 0,
                   |s.emitted|, s.divergences, stale, s.collisions, s.unexpressed));
  }
}
