/** `ok` decides the two-way specification, stated on key paths and without the claim map. */
module SyncDecision {
  import opened Prelude
  import opened Frontmatter
  import opened Pieces
  import opened DocumentSync
  import opened SyncReport
  import opened TokenSlots

  // ----- forward -----

  lemma {:induction false} FirstClaimFound(claims: seq<Claim>, path: string)
    ensures FirstClaim(claims, path).Some? <==> exists c :: c in claims && Expressed(c) && PathOf(c) == path
    ensures FirstClaim(claims, path).Some? ==>
              exists c :: c in claims && Expressed(c) && PathOf(c) == path && c.token == FirstClaim(claims, path).value
  {
    if claims != [] {
      var front, last := claims[..|claims| - 1], claims[|claims| - 1];
      FirstClaimFound(front, path);
      assert claims == front + [last];
      assert forall c | c in front :: c in claims;
      assert last in claims;
    }
  }

  predicate Matches(doc: Node, c: Claim) { Expressed(c) ==> TextOf(At(doc, PathOf(c))) == Some(c.token.value) }

  lemma LastMatches(doc: Node, front: seq<Claim>, c: Claim)
    requires forall x | x in front :: Matches(doc, x)
    ensures DivergenceOf(doc, front, c) == [] && CollisionOf(front, c) == [] <==> Matches(doc, c)
  {
    if Expressed(c) {
      FirstClaimFound(front, PathOf(c));
      if FirstClaim(front, PathOf(c)).Some? {
        var x :| x in front && Expressed(x) && PathOf(x) == PathOf(c) && x.token == FirstClaim(front, PathOf(c)).value;
        assert Matches(doc, x);
      }
    }
  }

  lemma AllMatchStep(doc: Node, front: seq<Claim>, last: Claim)
    ensures (forall c | c in front + [last] :: Matches(doc, c)) <==>
            (forall c | c in front :: Matches(doc, c)) && Matches(doc, last)
  {
  }

  /** Comparing first claims with the document and later claims with the first compares every claim with the
      document. */
  lemma {:induction false} ForwardDecides(doc: Node, claims: seq<Claim>)
    ensures Diverging(doc, claims) == [] && Colliding(claims) == [] <==> forall c | c in claims :: Matches(doc, c)
  {
    hide Matches, DivergenceOf, CollisionOf, FirstClaim;
    if claims != [] {
      var front, last := claims[..|claims| - 1], claims[|claims| - 1];
      ForwardDecides(doc, front);
      assert claims == front + [last];
      AllMatchStep(doc, front, last);
      if forall x | x in front :: Matches(doc, x) {
        LastMatches(doc, front, last);
      }
    }
  }

  /** Both lists are in claim order: what more claims add comes behind. */
  lemma {:induction false} ListedAsMet(doc: Node, claims: seq<Claim>, more: seq<Claim>)
    ensures Diverging(doc, claims) <= Diverging(doc, claims + more) && Colliding(claims) <= Colliding(claims + more)
  {
    hide DivergenceOf, CollisionOf;
    if more == [] {
      assert claims + more == claims;
    } else {
      assert (claims + more)[..|claims + more| - 1] == claims + more[..|more| - 1];
      ListedAsMet(doc, claims, more[..|more| - 1]);
    }
  }

  /** A reason is counted once for each token it names. */
  lemma {:induction false} ReasonsCount(claims: seq<Claim>, reason: string)
    ensures Reasons(claims, reason) == |set i | 0 <= i < |claims| && claims[i].slot == NoSlot(reason)|
  {
    var named := set i | 0 <= i < |claims| && claims[i].slot == NoSlot(reason);
    if claims == [] {
      assert named == {};
    } else {
      var n := |claims| - 1;
      ReasonsCount(claims[..n], reason);
      var before := set i | 0 <= i < n && claims[..n][i].slot == NoSlot(reason);
      assert named == before + (if claims[n].slot == NoSlot(reason) then {n} else {});
    }
  }

  // ----- slots on key paths -----

  predicate Routed(claims: seq<Claim>) { forall c | c in claims :: c == Route(c.token) && DotFree(c.token.name) }

  lemma {:induction false} TypoDotFree(name: string, props: seq<(string, string)>)
    requires DotFree(name) && forall p | p in props :: DotFree(p.1)
    ensures TypoSlot(name, props).Some? ==> AllDotFree(TypoSlot(name, props).value)
  {
    if props != [] {
      TypoDotFree(name, props[1..]);
    }
  }

  lemma SuffixDotFree(name: string)
    requires DotFree(name)
    ensures StartsWith(name, "spacing-") ==> |name| >= 8 && DotFree(name[8..])
  {
  }

  lemma FixedKeysDotFree(name: string, theme: Theme)
    ensures RadiusKey(name).Some? ==> DotFree(RadiusKey(name).value)
    ensures DotFree(ThemeName(theme))
    ensures DotFree("spacing") && DotFree("rounded") && DotFree("motion")
    ensures DotFree("elevation") && DotFree("themes") && DotFree("colors")
  {
  }

  lemma TypoPropsDotFree(name: string)
    requires DotFree(name)
    ensures TypoSlot(name, TYPO_PROPS).Some? ==> AllDotFree(TypoSlot(name, TYPO_PROPS).value)
  {
    TypoDotFree(name, TYPO_PROPS);
  }

  lemma SlotDotFree(layer: string, name: string, theme: Theme)
    requires DotFree(name)
    ensures DocumentSlot(layer, name, theme).Path? ==> AllDotFree(DocumentSlot(layer, name, theme).keys)
  {
    hide TypoSlot, StartsWith, RadiusKey, ThemeName, DotFree;
    TypoPropsDotFree(name);
    FixedKeysDotFree(name, theme);
    SuffixDotFree(name);
  }

  lemma ReadsByKeys(doc: Node, c: Claim)
    requires c == Route(c.token) && DotFree(c.token.name) && Expressed(c)
    ensures AllDotFree(c.slot.keys) && At(doc, PathOf(c)) == AtKeys(doc, c.slot.keys)
  {
    SlotDotFree(c.token.layer, c.token.name, c.token.theme);
    ReadDotted(doc, c.slot.keys);
  }

  lemma JoinHead(keys: seq<string>)
    requires |keys| > 1
    ensures Dotted(keys) == keys[0] + "." + Dotted(keys[1..])
  {
  }

  /** A path under `themes.` is a colour slot, and carries the token's own theme and name. */
  lemma ColorIs(t: Token)
    ensures IsColor(Route(t)) <==> Route(t).slot == Path(ColorsKeys(t.theme) + [t.name])
  {
    var slot := Route(t).slot;
    TypoHasKeys(t.name, TYPO_PROPS);
    if slot.Path? {
      JoinHead(slot.keys);
      assert slot.keys[0] in ["typography", "spacing", "rounded", "motion", "elevation", "themes"];
      HeadDecides(slot.keys[0], Dotted(slot.keys[1..]));
      assert slot.keys[0] == "themes" ==> slot.keys == ColorsKeys(t.theme) + [t.name];
    }
  }

  lemma HeadDecides(head: string, rest: string)
    requires head in ["typography", "spacing", "rounded", "motion", "elevation", "themes"]
    ensures StartsWith(head + "." + rest, "themes.") <==> head == "themes"
  {
    var s := head + "." + rest;
    assert s[0] == head[0] && s[1] == head[1];
    if head == "themes" {
      assert s[..7] == "themes.";
    }
  }

  // ----- reverse -----

  lemma {:induction false} StaleColorsDecides(fs: Fields, theme: Theme, live: set<string>)
    ensures StaleColors(fs, theme, live) == [] <==> forall key | HasKey(fs, key) :: key in live
    decreases fs
  {
    if fs.Field? {
      StaleColorsDecides(fs.rest, theme, live);
      assert HasKey(fs, fs.key);
      forall key
        ensures HasKey(fs, key) <==> key == fs.key || HasKey(fs.rest, key)
      {
      }
    }
  }

  lemma {:induction false} StaleInDecides(doc: Node, paths: seq<string>, emitted: map<string, Token>)
    ensures StaleIn(doc, paths, emitted) == [] <==> forall p | p in paths :: p in emitted || p in DOCUMENT_ONLY
  {
    if paths != [] {
      StaleInDecides(doc, paths[..|paths| - 1], emitted);
      assert paths == paths[..|paths| - 1] + [paths[|paths| - 1]];
    }
  }

  lemma {:induction false} GroupsStaleDecides(doc: Node, groups: seq<string>, emitted: map<string, Token>)
    ensures GroupsStale(doc, groups, emitted) == [] <==> forall g | g in groups :: GroupStale(doc, g, emitted) == []
  {
    if groups != [] {
      GroupsStaleDecides(doc, groups[..|groups| - 1], emitted);
      assert groups == groups[..|groups| - 1] + [groups[|groups| - 1]];
    }
  }

  lemma {:induction false} FoundIsDotFree(n: Node, keys: seq<string>)
    requires WellKeyed(n) && AtKeys(n, keys).Some?
    ensures AllDotFree(keys)
    decreases |keys|
  {
    if keys != [] {
      FindDotFree(n.fields, keys[0]);
      FoundIsDotFree(Hop(n, keys[0]).value, keys[1..]);
    }
  }

  lemma {:induction false} FindDotFree(fs: Fields, key: string)
    requires WellKeyedIn(fs) && HasKey(fs, key)
    ensures DotFree(key) && WellKeyed(Find(fs, key).value)
    decreases fs
  {
    if fs.key != key {
      FindDotFree(fs.rest, key);
    }
  }

  lemma HopKeyed(n: Node, key: string)
    requires WellKeyed(n) && Hop(n, key).Some?
    ensures WellKeyed(Hop(n, key).value)
  {
    FindDotFree(n.fields, key);
  }

  /** Some token is routed to these keys. */
  predicate Backed(claims: seq<Claim>, keys: seq<string>) { exists c :: c in claims && c.slot == Path(keys) }

  lemma EmittedIsBacked(claims: seq<Claim>, emitted: map<string, Token>, keys: seq<string>)
    requires Routed(claims) && EmittedIs(emitted, claims) && keys != [] && AllDotFree(keys)
    ensures Dotted(keys) in emitted <==> Backed(claims, keys)
  {
    var path := Dotted(keys);
    assert Lookup(emitted, path) == FirstClaim(claims, path);
    FirstClaimFound(claims, path);
    forall c | c in claims && Expressed(c)
      ensures PathOf(c) == path <==> c.slot.keys == keys
    {
      ReadsByKeys(Leaf(""), c);
      JoinInjective(c.slot.keys, keys, '.');
    }
  }

  /** Every declared leaf of the group is backed by a token or listed as document-only. */
  ghost predicate GroupBacked(doc: Node, claims: seq<Claim>, group: string) {
    forall keys | keys != [] && IsLeafAt(doc, [group] + keys) ::
      Backed(claims, [group] + keys) || Dotted([group] + keys) in DOCUMENT_ONLY
  }

  lemma AtGroup(doc: Node, group: string, keys: seq<string>)
    ensures AtKeys(doc, [group] + keys) == if Hop(doc, group).Some? then AtKeys(Hop(doc, group).value, keys) else None
  {
  }

  lemma LeafPathIn(doc: Node, declared: Node, group: string, keys: seq<string>)
    requires WellKeyed(doc) && DotFree(group) && Hop(doc, group) == Some(declared) && IsLeafAt(doc, [group] + keys)
    ensures AllDotFree([group] + keys) && Dotted([group] + keys) in Leaves(declared, group)
  {
    AtGroup(doc, group, keys);
    HopKeyed(doc, group);
    FoundIsDotFree(declared, keys);
    FoundIsDotFree(doc, [group] + keys);
    LeavesAgreeWithAt(declared, [group], Dotted([group] + keys));
  }

  lemma LeafPathOut(doc: Node, declared: Node, group: string, path: string)
    requires WellKeyed(doc) && DotFree(group) && Hop(doc, group) == Some(declared) && declared.Obj?
             && path in Leaves(declared, group)
    ensures exists keys ::
            keys != [] && IsLeafAt(doc, [group] + keys) && AllDotFree([group] + keys) && path == Dotted([group] + keys)
  {
    HopKeyed(doc, group);
    LeavesAgreeWithAt(declared, [group], path);
    var keys :| IsLeafAt(declared, keys) && AllDotFree(keys) && path == Dotted([group] + keys);
    AtGroup(doc, group, keys);
    assert keys != [];
  }

  /** What the reverse sweep prints for a stale name is the leaf's own text. */
  lemma StaleReadsItsLeaf(doc: Node, group: string, path: string)
    requires WellKeyed(doc) && DotFree(group) && Hop(doc, group).Some? && Hop(doc, group).value.Obj?
    requires path in Leaves(Hop(doc, group).value, group)
    ensures At(doc, path).Some? && At(doc, path).value.Leaf? && PrintedText(At(doc, path)) == At(doc, path).value.text
  {
    LeafPathOut(doc, Hop(doc, group).value, group, path);
    var keys :| keys != [] && IsLeafAt(doc, [group] + keys) && AllDotFree([group] + keys)
      && path == Dotted([group] + keys);
    ReadDotted(doc, [group] + keys);
  }

  lemma GroupDecides(doc: Node, claims: seq<Claim>, emitted: map<string, Token>, group: string)
    requires WellKeyed(doc) && Routed(claims) && EmittedIs(emitted, claims) && DotFree(group)
    ensures GroupStale(doc, group, emitted) == [] <==> GroupBacked(doc, claims, group)
  {
    ReadDotted(doc, [group]);
    assert Dotted([group]) == group;
    AtGroup(doc, group, []);
    assert [group] + [] == [group];
    var declared := Hop(doc, group);
    assert At(doc, group) == declared;
    if declared.Some? && declared.value.Obj? {
      var paths := Leaves(declared.value, group);
      StaleInDecides(doc, paths, emitted);
      forall keys | keys != [] && IsLeafAt(doc, [group] + keys)
        ensures Dotted([group] + keys) in paths
                && (Dotted([group] + keys) in emitted <==> Backed(claims, [group] + keys))
      {
        LeafPathIn(doc, declared.value, group, keys);
        EmittedIsBacked(claims, emitted, [group] + keys);
      }
      forall path | path in paths
        ensures exists keys :: keys != [] && IsLeafAt(doc, [group] + keys) && path == Dotted([group] + keys)
      {
        LeafPathOut(doc, declared.value, group, path);
      }
    } else {
      forall keys | keys != []
        ensures !IsLeafAt(doc, [group] + keys)
      {
        AtGroup(doc, group, keys);
      }
    }
  }

  /** Every declared colour of the theme is backed by one of its tokens. */
  ghost predicate ColorsBacked(doc: Node, claims: seq<Claim>, theme: Theme) {
    forall key | AtKeys(doc, ColorsKeys(theme) + [key]).Some? :: Backed(claims, ColorsKeys(theme) + [key])
  }

  lemma {:induction false} AtSnoc(n: Node, keys: seq<string>, key: string)
    ensures AtKeys(n, keys + [key]) == if AtKeys(n, keys).Some? then Hop(AtKeys(n, keys).value, key) else None
    decreases |keys|
  {
    if keys != [] {
      assert (keys + [key])[1..] == keys[1..] + [key];
      if Hop(n, keys[0]).Some? {
        AtSnoc(Hop(n, keys[0]).value, keys[1..], key);
      }
    } else {
      assert [key][1..] == [] && [] + [key] == [key];
    }
  }

  lemma LiveIsBacked(claims: seq<Claim>, theme: Theme, key: string)
    requires Routed(claims)
    ensures key in LiveColors(claims, theme) <==> Backed(claims, ColorsKeys(theme) + [key])
  {
    forall c | c in claims
      ensures c.token.theme == theme && IsColor(c) && c.token.name == key <==> c.slot == Path(ColorsKeys(theme) + [key])
    {
      ColorIs(c.token);
      SlotNamesToken(c.token, theme, key);
    }
  }

  /** Only a colour token of that theme and name is routed to a colour slot. */
  lemma SlotNamesToken(t: Token, theme: Theme, key: string)
    ensures Route(t).slot == Path(ColorsKeys(theme) + [key]) ==> t.theme == theme && t.name == key
  {
    var wanted := ColorsKeys(theme) + [key];
    assert wanted[0] == "themes" && wanted[1] == ThemeName(theme) && wanted[3] == key;
    TypoHasKeys(t.name, TYPO_PROPS);
    if Route(t).slot == Path(wanted) {
      var keys := Route(t).slot.keys;
      assert keys[0] == "themes" && |keys| == 4;
      assert keys[1] == ThemeName(t.theme) && keys[3] == t.name;
    }
  }

  // ----- the decision -----

  /** The two-way specification on the routed claims. */
  ghost predicate ClaimsInSync(doc: Node, claims: seq<Claim>) {
    && (forall c | c in claims && c.slot.Path? :: TextOf(AtKeys(doc, c.slot.keys)) == Some(c.token.value))
    && ColorsBacked(doc, claims, Dark) && ColorsBacked(doc, claims, Light)
    && (forall g | g in GROUPS :: GroupBacked(doc, claims, g))
  }

  lemma ColorsDecide(doc: Node, claims: seq<Claim>, theme: Theme)
    requires Routed(claims)
    ensures ThemeStale(doc, theme, LiveColors(claims, theme)) == [] <==> ColorsBacked(doc, claims, theme)
  {
    ReadDotted(doc, ColorsKeys(theme));
    var declared := AtKeys(doc, ColorsKeys(theme));
    forall key
      ensures AtKeys(doc, ColorsKeys(theme) + [key]) == if declared.Some? then Hop(declared.value, key) else None
    {
      AtSnoc(doc, ColorsKeys(theme), key);
    }
    if declared.Some? && declared.value.Obj? {
      StaleColorsDecides(declared.value.fields, theme, LiveColors(claims, theme));
      forall key
        ensures key in LiveColors(claims, theme) <==> Backed(claims, ColorsKeys(theme) + [key])
      {
        LiveIsBacked(claims, theme, key);
      }
    }
  }

  lemma GroupsDecide(doc: Node, claims: seq<Claim>, emitted: map<string, Token>, groups: seq<string>)
    requires WellKeyed(doc) && Routed(claims) && EmittedIs(emitted, claims) && forall g | g in groups :: DotFree(g)
    ensures GroupsStale(doc, groups, emitted) == [] <==> forall g | g in groups :: GroupBacked(doc, claims, g)
  {
    GroupsStaleDecides(doc, groups, emitted);
    forall g | g in groups
      ensures GroupStale(doc, g, emitted) == [] <==> GroupBacked(doc, claims, g)
    {
      GroupDecides(doc, claims, emitted, g);
    }
  }

  lemma MatchesByKeys(doc: Node, claims: seq<Claim>)
    requires Routed(claims)
    ensures (forall c | c in claims :: Matches(doc, c)) <==>
            forall c | c in claims && c.slot.Path? :: TextOf(AtKeys(doc, c.slot.keys)) == Some(c.token.value)
  {
    forall c | c in claims && c.slot.Path?
      ensures Expressed(c) && At(doc, PathOf(c)) == AtKeys(doc, c.slot.keys)
    {
      assert c == Route(c.token);
      ReadsByKeys(doc, c);
    }
  }

  lemma StaleDecides(doc: Node, claims: seq<Claim>, s: Sweep, groups: seq<string>)
    requires WellKeyed(doc) && Routed(claims) && Swept(doc, claims, s) && forall g | g in groups :: DotFree(g)
    ensures StaleFrom(doc, s, groups) == [] <==>
            && ColorsBacked(doc, claims, Dark) && ColorsBacked(doc, claims, Light)
            && forall g | g in groups :: GroupBacked(doc, claims, g)
  {
    ColorsDecide(doc, claims, Dark);
    ColorsDecide(doc, claims, Light);
    GroupsDecide(doc, claims, s.emitted, groups);
  }

  lemma GroupsDotFree()
    ensures forall g | g in GROUPS :: DotFree(g)
  {
  }

  /** With dot-free token names and keys, the gate passes exactly when document and fixture are in sync both ways. */
  lemma OkDecides(doc: Node, claims: seq<Claim>, s: Sweep)
    requires WellKeyed(doc) && Routed(claims) && Swept(doc, claims, s)
    ensures s.divergences == [] && StaleOf(doc, s) == [] && s.collisions == [] <==> ClaimsInSync(doc, claims)
  {
    ForwardDecides(doc, claims);
    MatchesByKeys(doc, claims);
    GroupsDotFree();
    StaleDecides(doc, claims, s, GROUPS);
  }

  // ----- the decision, without the routing -----

  /** A token of one of the fixture's layers. */
  ghost predicate Declared(fixture: Fixture, t: Token) {
    t.theme in fixture && exists i: nat, j: nat :: DeclaredAt(fixture[t.theme], t, i, j)
  }

  predicate DeclaredAt(layers: seq<Layer>, t: Token, i: nat, j: nat) {
    i < |layers| && j < |layers[i].tokens| && layers[i].name == t.layer && layers[i].tokens[j] == (t.name, t.value)
  }

  /** Some declared token belongs at these keys. */
  ghost predicate HasToken(fixture: Fixture, keys: seq<string>) {
    exists t :: Declared(fixture, t) && BelongsAt(t.layer, t.name, t.theme, keys)
  }

  /** The text a YAML value prints as; an object prints as its class. */
  predicate ReadsAs(held: Option<Node>, value: string) {
    held == Some(Leaf(value)) || (held.Some? && held.value.Obj? && value == "[object Object]")
  }

  /** Every token that belongs somewhere reads as its value there. */
  ghost predicate TokensRead(doc: Node, fixture: Fixture) {
    forall t, keys | Declared(fixture, t) && BelongsAt(t.layer, t.name, t.theme, keys) ::
      ReadsAs(AtKeys(doc, keys), t.value)
  }

  /** Every declared colour of the theme has a token. */
  ghost predicate ColorsHaveTokens(doc: Node, fixture: Fixture, shade: string) {
    forall name | AtKeys(doc, ["themes", shade, "colors", name]).Some? ::
      HasToken(fixture, ["themes", shade, "colors", name])
  }

  /** Every leaf of the group has a token, save the two that only the document has. */
  ghost predicate GroupHasTokens(doc: Node, fixture: Fixture, group: string) {
    forall keys | keys != [] && IsLeafAt(doc, [group] + keys) ::
      HasToken(fixture, [group] + keys) || [group] + keys in {["spacing", "base"], ["motion", "reduced-motion"]}
  }

  /** The two-way specification. */
  ghost predicate InSync(doc: Node, fixture: Fixture) {
    && TokensRead(doc, fixture)
    && ColorsHaveTokens(doc, fixture, "dark") && ColorsHaveTokens(doc, fixture, "light")
    && forall group | group in ["typography", "spacing", "rounded", "motion", "elevation"] ::
         GroupHasTokens(doc, fixture, group)
  }

  lemma {:induction false} ThemeClaimed(theme: Theme, layers: seq<Layer>, c: Claim)
    ensures c in ThemeClaims(theme, layers) <==>
            c == Route(c.token) && c.token.theme == theme && exists i: nat, j: nat :: DeclaredAt(layers, c.token, i, j)
  {
    if layers != [] {
      var front, last := layers[..|layers| - 1], layers[|layers| - 1];
      ThemeClaimed(theme, front, c);
      if i: nat, j: nat :| DeclaredAt(layers, c.token, i, j) {
        if i < |front| {
          assert DeclaredAt(front, c.token, i, j);
        } else if c == Route(c.token) && c.token.theme == theme {
          assert LayerClaims(theme, last)[j] == c;
        }
      }
      if c in LayerClaims(theme, last) {
        var j: nat :| j < |last.tokens| && LayerClaims(theme, last)[j] == c;
        assert DeclaredAt(layers, c.token, |layers| - 1, j);
      }
      if i: nat, j: nat :| DeclaredAt(front, c.token, i, j) {
        assert DeclaredAt(layers, c.token, i, j);
      }
    }
  }

  /** The claims are the declared tokens, each routed. */
  lemma ClaimedIsDeclared(fixture: Fixture, c: Claim)
    requires Dark in fixture && Light in fixture
    ensures c in AllClaims(fixture) <==> c == Route(c.token) && Declared(fixture, c.token)
  {
    ThemeClaimed(Dark, fixture[Dark], c);
    ThemeClaimed(Light, fixture[Light], c);
  }

  lemma RoutedWhereItBelongs(t: Token, keys: seq<string>)
    ensures Route(t).slot == Path(keys) <==> BelongsAt(t.layer, t.name, t.theme, keys)
  {
    SlotIsWhereItBelongs(t.layer, t.name, t.theme, keys);
  }

  lemma BackedHasToken(fixture: Fixture, keys: seq<string>)
    requires Dark in fixture && Light in fixture
    ensures Backed(AllClaims(fixture), keys) <==> HasToken(fixture, keys)
  {
    hide AllClaims, Declared, BelongsAt, Route;
    if c :| c in AllClaims(fixture) && c.slot == Path(keys) {
      ClaimedIsDeclared(fixture, c);
      RoutedWhereItBelongs(c.token, keys);
    }
    if t :| Declared(fixture, t) && BelongsAt(t.layer, t.name, t.theme, keys) {
      ClaimedIsDeclared(fixture, Route(t));
      RoutedWhereItBelongs(t, keys);
    }
  }

  lemma TextIs(held: Option<Node>, value: string)
    ensures TextOf(held) == Some(value) <==> ReadsAs(held, value)
  {
  }

  lemma TokensReadByClaims(doc: Node, fixture: Fixture)
    requires Dark in fixture && Light in fixture && TokensRead(doc, fixture)
    ensures forall c | c in AllClaims(fixture) && c.slot.Path? ::
              TextOf(AtKeys(doc, c.slot.keys)) == Some(c.token.value)
  {
    hide AllClaims, Declared, BelongsAt, TextOf, ReadsAs, AtKeys;
    forall c | c in AllClaims(fixture) && c.slot.Path?
      ensures TextOf(AtKeys(doc, c.slot.keys)) == Some(c.token.value)
    {
      ClaimedIsDeclared(fixture, c);
      RoutedWhereItBelongs(c.token, c.slot.keys);
      TextIs(AtKeys(doc, c.slot.keys), c.token.value);
    }
  }

  lemma ClaimsReadByTokens(doc: Node, fixture: Fixture)
    requires Dark in fixture && Light in fixture
    requires forall c | c in AllClaims(fixture) && c.slot.Path? ::
               TextOf(AtKeys(doc, c.slot.keys)) == Some(c.token.value)
    ensures TokensRead(doc, fixture)
  {
    hide AllClaims, Declared, BelongsAt, TextOf, ReadsAs, AtKeys;
    forall t, keys | Declared(fixture, t) && BelongsAt(t.layer, t.name, t.theme, keys)
      ensures ReadsAs(AtKeys(doc, keys), t.value)
    {
      ClaimedIsDeclared(fixture, Route(t));
      RoutedWhereItBelongs(t, keys);
      TextIs(AtKeys(doc, keys), t.value);
    }
  }

  lemma ColorHalves(doc: Node, fixture: Fixture, theme: Theme, shade: string)
    requires Dark in fixture && Light in fixture && shade == if theme.Dark? then "dark" else "light"
    ensures ColorsBacked(doc, AllClaims(fixture), theme) <==> ColorsHaveTokens(doc, fixture, shade)
  {
    hide AllClaims, Backed, HasToken, AtKeys;
    forall name: string
      ensures ColorsKeys(theme) + [name] == ["themes", shade, "colors", name]
      ensures Backed(AllClaims(fixture), ColorsKeys(theme) + [name]) <==>
              HasToken(fixture, ["themes", shade, "colors", name])
    {
      BackedHasToken(fixture, ColorsKeys(theme) + [name]);
    }
  }

  lemma OnlyInDocument(keys: seq<string>)
    requires keys != [] && AllDotFree(keys)
    ensures Dotted(keys) in DOCUMENT_ONLY <==> keys in {["spacing", "base"], ["motion", "reduced-motion"]}
  {
    assert Dotted(["spacing", "base"]) == "spacing.base";
    assert Dotted(["motion", "reduced-motion"]) == "motion.reduced-motion";
    JoinInjective(keys, ["spacing", "base"], '.');
    JoinInjective(keys, ["motion", "reduced-motion"], '.');
  }

  lemma GroupHalves(doc: Node, fixture: Fixture, group: string)
    requires Dark in fixture && Light in fixture && WellKeyed(doc)
    ensures GroupBacked(doc, AllClaims(fixture), group) <==> GroupHasTokens(doc, fixture, group)
  {
    hide AllClaims, Backed, HasToken, Dotted;
    forall keys | keys != [] && IsLeafAt(doc, [group] + keys)
      ensures Backed(AllClaims(fixture), [group] + keys) <==> HasToken(fixture, [group] + keys)
      ensures Dotted([group] + keys) in DOCUMENT_ONLY <==>
              [group] + keys in {["spacing", "base"], ["motion", "reduced-motion"]}
    {
      BackedHasToken(fixture, [group] + keys);
      FoundIsDotFree(doc, [group] + keys);
      OnlyInDocument([group] + keys);
    }
  }

  lemma SyncHalves(doc: Node, fixture: Fixture)
    requires Dark in fixture && Light in fixture && WellKeyed(doc)
    ensures ClaimsInSync(doc, AllClaims(fixture)) <==> InSync(doc, fixture)
  {
    hide AllClaims, ColorsBacked, GroupBacked, ColorsHaveTokens, GroupHasTokens, TextOf, AtKeys;
    if TokensRead(doc, fixture) {
      TokensReadByClaims(doc, fixture);
    }
    if ClaimsInSync(doc, AllClaims(fixture)) {
      ClaimsReadByTokens(doc, fixture);
    }
    ColorHalves(doc, fixture, Dark, "dark");
    ColorHalves(doc, fixture, Light, "light");
    forall group
      ensures GroupBacked(doc, AllClaims(fixture), group) <==> GroupHasTokens(doc, fixture, group)
    {
      GroupHalves(doc, fixture, group);
    }
  }

  /** The report's verdict on a whole fixture: it passes exactly when document and fixture are in sync both ways. */
  lemma ReportDecides(fixture: Fixture, doc: Node, r: Report)
    requires Dark in fixture && Light in fixture && WellKeyed(doc) && Reports(fixture, doc, r)
    requires forall t | Declared(fixture, t) :: DotFree(t.name)
    ensures r.ok <==> InSync(doc, fixture)
  {
    hide Declared, WellKeyed, DotFree, InSync, ClaimsInSync;
    var claims := AllClaims(fixture);
    var s :| Swept(doc, claims, s)
             && r == Report(s.divergences == [] && StaleOf(doc, s) == [] && s.collisions == [],
                            |s.emitted|, s.divergences, StaleOf(doc, s), s.collisions, s.unexpressed);
    forall c | c in claims
      ensures c == Route(c.token) && DotFree(c.token.name)
    {
      ClaimedIsDeclared(fixture, c);
    }
    OkDecides(doc, claims, s);
    SyncHalves(doc, fixture);
  }
}
