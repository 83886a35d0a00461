/** What each finding of a report says: which token, where, and what stands there. */
module SyncFindings {
  import opened Prelude
  import opened Frontmatter
  import opened DocumentSync
  import opened SyncReport
  import opened SyncDecision

  /** The claim has this path, and no claim before it does. */
  predicate ClaimsFirst(claims: seq<Claim>, i: nat, path: string) {
    i < |claims| && ClaimsPath(claims[i], path) && forall j | 0 <= j < i :: !ClaimsPath(claims[j], path)
  }

  predicate ClaimsPath(c: Claim, path: string) { Expressed(c) && Dotted(c.slot.keys) == path }

  lemma {:induction false} FirstClaimIs(claims: seq<Claim>, path: string, t: Token)
    ensures FirstClaim(claims, path) == Some(t) <==>
            exists i: nat :: ClaimsFirst(claims, i, path) && claims[i].token == t
  {
    if claims != [] {
      var front, n := claims[..|claims| - 1], |claims| - 1;
      FirstClaimIs(front, path, t);
      FirstClaimFound(front, path);
      forall i: nat
        ensures ClaimsFirst(front, i, path) ==> ClaimsFirst(claims, i, path)
        ensures ClaimsFirst(claims, i, path) && i < n ==> ClaimsFirst(front, i, path)
      {
      }
      if FirstClaim(front, path).None? && ClaimsPath(claims[n], path) {
        assert ClaimsFirst(claims, n, path);
      }
    }
  }

  /** Later claims change nothing about which one is first. */
  lemma FirstStays(front: seq<Claim>, last: Claim, i: nat, path: string)
    requires i < |front|
    ensures ClaimsFirst(front, i, path) <==> ClaimsFirst(front + [last], i, path)
  {
    hide ClaimsPath;
    assert forall j | 0 <= j <= i :: (front + [last])[j] == front[j];
  }

  // ----- divergences and collisions -----

  /** The first claim of the path asks for another text than the document holds there. */
  predicate DivergesAt(doc: Node, claims: seq<Claim>, i: nat, d: Divergence) {
    && ClaimsFirst(claims, i, d.at) && claims[i].token == d.token
    && d.document == TextOf(At(doc, d.at)) && d.document != Some(d.token.value)
  }

  lemma DivergesLast(doc: Node, front: seq<Claim>, c: Claim, d: Divergence)
    ensures d in DivergenceOf(doc, front, c) <==> DivergesAt(doc, front + [c], |front|, d)
  {
    var claims := front + [c];
    if Expressed(c) {
      forall t
        ensures FirstClaim(front, PathOf(c)) == Some(t) <==>
                exists i: nat :: ClaimsFirst(front, i, PathOf(c)) && front[i].token == t
      {
        FirstClaimIs(front, PathOf(c), t);
      }
      FirstClaimFound(front, PathOf(c));
      assert FirstClaim(front, PathOf(c)).None? <==> ClaimsFirst(claims, |front|, PathOf(c)) by {
        assert forall j | 0 <= j < |front| :: claims[j] == front[j] && front[j] in front;
      }
    }
  }

  /** A divergence is reported for exactly these claims, with the token and the text that disagree. */
  lemma {:induction false} DivergenceIs(doc: Node, claims: seq<Claim>, d: Divergence)
    ensures d in Diverging(doc, claims) <==> exists i: nat :: DivergesAt(doc, claims, i, d)
  {
    hide DivergenceOf, TextOf, At, ClaimsPath;
    if claims != [] {
      var front, c := claims[..|claims| - 1], claims[|claims| - 1];
      DivergenceIs(doc, front, d);
      DivergesLast(doc, front, c, d);
      assert claims == front + [c];
      forall i: nat | i < |front|
        ensures DivergesAt(doc, front, i, d) <==> DivergesAt(doc, claims, i, d)
      {
        FirstStays(front, c, i, d.at);
      }
      if d in DivergenceOf(doc, front, c) {
        assert DivergesAt(doc, claims, |front|, d);
      }
      if i: nat :| DivergesAt(doc, front, i, d) {
        assert DivergesAt(doc, claims, i, d);
      }
      if i: nat :| DivergesAt(doc, claims, i, d) {
        assert i < |front| ==> DivergesAt(doc, front, i, d);
      }
    }
  }

  /** A later claim of a path has another value than its first. */
  predicate CollidesAt(claims: seq<Claim>, i: nat, j: nat, c: Collision) {
    && i < j < |claims| && ClaimsFirst(claims, i, c.at) && ClaimsPath(claims[j], c.at)
    && c.first == claims[i].token && c.second == claims[j].token && c.first.value != c.second.value
  }

  lemma CollidesLast(front: seq<Claim>, last: Claim, c: Collision)
    ensures c in CollisionOf(front, last) <==> exists i: nat :: CollidesAt(front + [last], i, |front|, c)
  {
    var claims := front + [last];
    forall i: nat | i < |front|
      ensures ClaimsFirst(front, i, c.at) <==> ClaimsFirst(claims, i, c.at)
    {
      FirstStays(front, last, i, c.at);
    }
    FirstClaimIs(front, c.at, c.first);
    if c in CollisionOf(front, last) {
      var i: nat :| ClaimsFirst(front, i, c.at) && front[i].token == c.first;
      assert CollidesAt(claims, i, |front|, c);
    }
    if i: nat :| CollidesAt(claims, i, |front|, c) {
      assert ClaimsFirst(front, i, c.at) && front[i].token == c.first;
    }
  }

  /** A collision is reported for exactly these pairs of claims, the first one named first. */
  lemma {:induction false} CollisionIs(claims: seq<Claim>, c: Collision)
    ensures c in Colliding(claims) <==> exists i: nat, j: nat :: CollidesAt(claims, i, j, c)
  {
    hide CollisionOf, ClaimsPath;
    if claims != [] {
      var front, last := claims[..|claims| - 1], claims[|claims| - 1];
      CollisionIs(front, c);
      CollidesLast(front, last, c);
      assert claims == front + [last];
      forall i: nat, j: nat | i < j < |front|
        ensures CollidesAt(front, i, j, c) <==> CollidesAt(claims, i, j, c)
      {
        FirstStays(front, last, i, c.at);
      }
      if i: nat, j: nat :| CollidesAt(front, i, j, c) {
        assert CollidesAt(claims, i, j, c);
      }
      if i: nat, j: nat :| CollidesAt(claims, i, j, c) {
        assert j < |front| ==> CollidesAt(front, i, j, c);
      }
    }
  }

  // ----- stale names -----

  /** What is printed for a value of the document. */
  lemma PrintedIs(text: string, fields: Fields)
    ensures PrintedText(Some(Leaf(text))) == text
    ensures PrintedText(Some(Obj(fields))) == "[object Object]"
    ensures PrintedText(None) == "undefined"
  {
  }

  /** A leaf is stale when no token has its path and it is not one of the document's own two. */
  lemma {:induction false} StaleIs(doc: Node, paths: seq<string>, emitted: map<string, Token>, s: Stale)
    ensures s in StaleIn(doc, paths, emitted) <==>
            && s.at in paths && s.at !in emitted && s.at != "spacing.base" && s.at != "motion.reduced-motion"
            && s.document == PrintedText(At(doc, s.at))
  {
    hide At, PrintedText;
    if paths != [] {
      StaleIs(doc, paths[..|paths| - 1], emitted, s);
      assert paths == paths[..|paths| - 1] + [paths[|paths| - 1]];
    }
  }

  /** A declared colour is stale when no live token of the theme has its name. */
  lemma {:induction false} StaleColorIs(fs: Fields, theme: Theme, live: set<string>, s: Stale)
    requires WellKeyedIn(fs)
    ensures s in StaleColors(fs, theme, live) <==>
            exists key :: HasKey(fs, key) && key !in live && s == StaleColor(fs, theme, key)
    decreases fs
  {
    hide Dotted, PrintedText;
    if fs.Field? {
      StaleColorIs(fs.rest, theme, live, s);
      assert HasKey(fs, fs.key);
      var shade := if theme.Dark? then "dark" else "light";
      assert ColorsKeys(theme) + [fs.key] == ["themes", shade, "colors", fs.key];
      forall key | HasKey(fs.rest, key)
        ensures HasKey(fs, key) && StaleColor(fs, theme, key) == StaleColor(fs.rest, theme, key)
      {
      }
      forall key | HasKey(fs, key)
        ensures key == fs.key || HasKey(fs.rest, key)
      {
      }
    }
  }

  function StaleColor(fs: Fields, theme: Theme, key: string): Stale {
    Stale(Dotted(["themes", if theme.Dark? then "dark" else "light", "colors", key]), PrintedText(Find(fs, key)))
  }
}
