/** The fixture-to-frontmatter gate: every token forward, every declared name in reverse. */
module DocumentSync {
  import opened Prelude
  import opened Frontmatter

  datatype Theme = Dark | Light

  function ThemeName(t: Theme): string { if t.Dark? then "dark" else "light" }

  datatype Token = Token(theme: Theme, layer: string, name: string, value: string)
  datatype Layer = Layer(name: string, tokens: seq<(string, string)>)

  // ----- where a token belongs -----

  datatype Slot = Path(keys: seq<string>) | NoSlot(reason: string)

  const NO_SLOT_COMPONENT := "component layer \U{2014} frontmatter `components:` is variant-shaped, not token-shaped"
  const NO_SLOT_INVARIANT := "font family / breakpoint \U{2014} carried per typography role, or body-only per the spec"
  const NO_SLOT_GEOMETRY := "control / row height \U{2014} the spec has no size group"

  predicate StartsWith(s: string, prefix: string) { |prefix| <= |s| && s[..|prefix|] == prefix }

  predicate NoLineBreak(s: string) {
    forall i | 0 <= i < |s| :: s[i] != '\n' && s[i] != '\r' && s[i] != '\U{2028}' && s[i] != '\U{2029}'
  }

  /** The middle of `<head><middle><tail>`, when it is one non-empty line. */
  function Between(s: string, head: string, tail: string): Option<string> {
    if |s| <= |head| + |tail| || s[..|head|] != head || s[|s| - |tail|..] != tail then None
    else
      var mid := s[|head|..|s| - |tail|];
      if NoLineBreak(mid) then Some(mid) else None
  }

  const TYPO_PROPS := [("-family", "fontFamily"), ("-size", "fontSize"), ("-weight", "fontWeight"),
                       ("-line", "lineHeight"), ("-tracking", "letterSpacing")]

  function TypoSlot(name: string, props: seq<(string, string)>): Option<seq<string>> {
    if props == [] then None
    else
      var mid := Between(name, "typo-", props[0].0);
      if mid.Some? then Some(["typography", mid.value, props[0].1]) else TypoSlot(name, props[1..])
  }

  function RadiusKey(name: string): Option<string> {
    if name == "radius-control" then Some("sm")
    else if name == "radius-container" then Some("md")
    else if name == "radius-pill" then Some("full")
    else None
  }

  /** The dotted path is the keys joined; the order of the tests is the source's. */
  function DocumentSlot(layer: string, name: string, theme: Theme): Slot {
    if layer == "component" then NoSlot(NO_SLOT_COMPONENT)
    else if TypoSlot(name, TYPO_PROPS).Some? then Path(TypoSlot(name, TYPO_PROPS).value)
    else if StartsWith(name, "spacing-") then Path(["spacing", name[8..]])
    else if RadiusKey(name).Some? then Path(["rounded", RadiusKey(name).value])
    else if StartsWith(name, "duration-") || StartsWith(name, "ease-") then Path(["motion", name])
    else if StartsWith(name, "shadow-") then Path(["elevation", name, ThemeName(theme)])
    else if StartsWith(name, "control-h-") || StartsWith(name, "row-h-") then NoSlot(NO_SLOT_GEOMETRY)
    else if layer == "primitive" && (StartsWith(name, "font-") || StartsWith(name, "breakpoint-"))
    then NoSlot(NO_SLOT_INVARIANT)
    else Path(["themes", ThemeName(theme), "colors", name])
  }

  lemma {:induction false} TypoHasKeys(name: string, props: seq<(string, string)>)
    ensures TypoSlot(name, props).Some? ==>
              |TypoSlot(name, props).value| == 3 && TypoSlot(name, props).value[0] == "typography"
  {
    if props != [] {
      TypoHasKeys(name, props[1..]);
    }
  }

  /** A token with the slot it was routed to. */
  datatype Claim = Claim(token: Token, slot: Slot)

  predicate Expressed(c: Claim) { c.slot.Path? && c.slot.keys != [] }

  function PathOf(c: Claim): string
    requires Expressed(c)
  {
    Dotted(c.slot.keys)
  }

  /** `String(held)` of what the document holds there. */
  function TextOf(n: Option<Node>): Option<string> {
    if n.None? then None else if n.value.Leaf? then Some(n.value.text) else Some("[object Object]")
  }

  // ----- the forward pass -----

  datatype Divergence = Divergence(token: Token, at: string, document: Option<string>)
  datatype Collision = Collision(at: string, first: Token, second: Token)
  datatype Stale = Stale(at: string, document: string)

  datatype Sweep = Sweep(
    divergences: seq<Divergence>, collisions: seq<Collision>, unexpressed: map<string, nat>,
    emitted: map<string, Token>, darkColors: set<string>, lightColors: set<string>)

  const EMPTY := Sweep([], [], map[], map[], {}, {})

  function FirstClaim(claims: seq<Claim>, path: string): Option<Token> {
    if claims == [] then None
    else
      var earlier, c := FirstClaim(claims[..|claims| - 1], path), claims[|claims| - 1];
      if earlier.Some? then earlier else if Expressed(c) && PathOf(c) == path then Some(c.token) else None
  }

  function DivergenceOf(doc: Node, earlier: seq<Claim>, c: Claim): seq<Divergence> {
    if !Expressed(c) || FirstClaim(earlier, PathOf(c)).Some? then []
    else
      var held := TextOf(At(doc, PathOf(c)));
      if held == Some(c.token.value) then [] else [Divergence(c.token, PathOf(c), held)]
  }

  function CollisionOf(earlier: seq<Claim>, c: Claim): seq<Collision> {
    if !Expressed(c) then []
    else
      var first := FirstClaim(earlier, PathOf(c));
      if first.Some? && first.value.value != c.token.value then [Collision(PathOf(c), first.value, c.token)] else []
  }

  /** First claims the document does not match, in claim order. */
  function Diverging(doc: Node, claims: seq<Claim>): seq<Divergence> {
    if claims == [] then []
    else
      var front := claims[..|claims| - 1];
      Diverging(doc, front) + DivergenceOf(doc, front, claims[|claims| - 1])
  }

  /** Later claims of a path with another value than the first. */
  function Colliding(claims: seq<Claim>): seq<Collision> {
    if claims == [] then []
    else
      var front := claims[..|claims| - 1];
      Colliding(front) + CollisionOf(front, claims[|claims| - 1])
  }

  predicate IsColor(c: Claim) { Expressed(c) && StartsWith(PathOf(c), "themes.") }

  function LiveColors(claims: seq<Claim>, theme: Theme): set<string> {
    set c | c in claims && c.token.theme == theme && IsColor(c) :: c.token.name
  }

  function Reasons(claims: seq<Claim>, reason: string): nat {
    if claims == [] then 0
    else Reasons(claims[..|claims| - 1], reason) + (if claims[|claims| - 1].slot == NoSlot(reason) then 1 else 0)
  }

  function Lookup<V>(m: map<string, V>, k: string): Option<V> { if k in m then Some(m[k]) else None }
  function Tally(m: map<string, nat>, k: string): nat { if k in m then m[k] else 0 }

  ghost predicate EmittedIs(emitted: map<string, Token>, claims: seq<Claim>) {
    forall p: string :: Lookup(emitted, p) == FirstClaim(claims, p)
  }

  ghost predicate UnexpressedIs(unexpressed: map<string, nat>, claims: seq<Claim>) {
    forall r: string :: Tally(unexpressed, r) == Reasons(claims, r)
  }

  /** Where the forward pass stands after `claims`. */
  ghost predicate Swept(doc: Node, claims: seq<Claim>, s: Sweep) {
    && s.divergences == Diverging(doc, claims) && s.collisions == Colliding(claims)
    && EmittedIs(s.emitted, claims) && UnexpressedIs(s.unexpressed, claims)
    && s.darkColors == LiveColors(claims, Dark) && s.lightColors == LiveColors(claims, Light)
  }

  lemma ColorsStep(claims: seq<Claim>, c: Claim, theme: Theme)
    ensures LiveColors(claims + [c], theme) ==
            LiveColors(claims, theme) + (if c.token.theme == theme && IsColor(c) then {c.token.name} else {})
  {
  }

  lemma EmittedStep(emitted: map<string, Token>, claims: seq<Claim>, c: Claim)
    requires EmittedIs(emitted, claims)
    ensures EmittedIs(if Expressed(c) && PathOf(c) !in emitted then emitted[PathOf(c) := c.token] else emitted,
                      claims + [c])
  {
    var next := if Expressed(c) && PathOf(c) !in emitted then emitted[PathOf(c) := c.token] else emitted;
    assert (claims + [c])[..|claims|] == claims;
    forall p: string
      ensures Lookup(next, p) == FirstClaim(claims + [c], p)
    {
      assert Lookup(emitted, p) == FirstClaim(claims, p);
    }
  }

  lemma UnexpressedStep(unexpressed: map<string, nat>, claims: seq<Claim>, c: Claim)
    requires UnexpressedIs(unexpressed, claims)
    ensures UnexpressedIs(if c.slot.NoSlot?
                          then unexpressed[c.slot.reason := Tally(unexpressed, c.slot.reason) + 1] else unexpressed,
                          claims + [c])
  {
    var next := if c.slot.NoSlot?
                then unexpressed[c.slot.reason := Tally(unexpressed, c.slot.reason) + 1] else unexpressed;
    assert (claims + [c])[..|claims|] == claims;
    forall r: string
      ensures Tally(next, r) == Reasons(claims + [c], r)
    {
      assert Tally(unexpressed, r) == Reasons(claims, r);
    }
  }

  lemma ListsStep(doc: Node, claims: seq<Claim>, c: Claim)
    ensures Diverging(doc, claims + [c]) == Diverging(doc, claims) + DivergenceOf(doc, claims, c)
    ensures Colliding(claims + [c]) == Colliding(claims) + CollisionOf(claims, c)
  {
  }

  /** The colour set of the claim's theme grows by a colour's name. */
  function AddColor(s: Sweep, t: Token): Sweep {
    if t.theme.Dark? then s.(darkColors := s.darkColors + {t.name}) else s.(lightColors := s.lightColors + {t.name})
  }

  method MakeClaim(doc: Node, c: Claim, s: Sweep, ghost claims: seq<Claim>) returns (next: Sweep)
    requires Swept(doc, claims, s) && (c.slot.Path? ==> c.slot.keys != [])
    ensures Swept(doc, claims + [c], next)
  {
    ListsStep(doc, claims, c);
    EmittedStep(s.emitted, claims, c);
    UnexpressedStep(s.unexpressed, claims, c);
    ColorsStep(claims, c, Dark);
    ColorsStep(claims, c, Light);
    next := s;
    if c.slot.NoSlot? {
      next := next.(unexpressed := next.unexpressed[c.slot.reason := Tally(next.unexpressed, c.slot.reason) + 1]);
      return;
    }
    var path := PathOf(c);
    if StartsWith(path, "themes.") {
      next := AddColor(next, c.token);
    }
    assert Lookup(s.emitted, path) == FirstClaim(claims, path);
    if path in next.emitted {
      if next.emitted[path].value != c.token.value {
        next := next.(collisions := next.collisions + [Collision(path, next.emitted[path], c.token)]);
      }
      return;
    }
    next := next.(emitted := next.emitted[path := c.token]);
    var held := TextOf(At(doc, path));
    if held != Some(c.token.value) {
      next := next.(divergences := next.divergences + [Divergence(c.token, path, held)]);
    }
  }
}
