/** Which frontmatter keys a token belongs to, told by the class of its name, against the routing that tests the
    classes in order. */
module TokenSlots {
  import opened Prelude
  import opened DocumentSync

  // ----- the classes of names -----

  ghost predicate TypographyOf(name: string, scale: string, keys: seq<string>) {
    && scale != "" && '\n' !in scale && '\r' !in scale && '\U{2028}' !in scale && '\U{2029}' !in scale
    && (|| (name == "typo-" + scale + "-family" && keys == ["typography", scale, "fontFamily"])
        || (name == "typo-" + scale + "-size" && keys == ["typography", scale, "fontSize"])
        || (name == "typo-" + scale + "-weight" && keys == ["typography", scale, "fontWeight"])
        || (name == "typo-" + scale + "-line" && keys == ["typography", scale, "lineHeight"])
        || (name == "typo-" + scale + "-tracking" && keys == ["typography", scale, "letterSpacing"]))
  }

  ghost predicate Typography(name: string, keys: seq<string>) { exists scale :: TypographyOf(name, scale, keys) }

  ghost predicate Spacing(name: string, keys: seq<string>) {
    exists step :: name == "spacing-" + step && keys == ["spacing", step]
  }

  predicate Radius(name: string, keys: seq<string>) {
    || (name == "radius-control" && keys == ["rounded", "sm"])
    || (name == "radius-container" && keys == ["rounded", "md"])
    || (name == "radius-pill" && keys == ["rounded", "full"])
  }

  predicate Motion(name: string) { "duration-" <= name || "ease-" <= name }
  predicate Elevation(name: string) { "shadow-" <= name }
  predicate Geometry(name: string) { "control-h-" <= name || "row-h-" <= name }
  predicate Invariant(layer: string, name: string) {
    layer == "primitive" && ("font-" <= name || "breakpoint-" <= name)
  }

  /** Whatever is in no other class is a colour. */
  ghost predicate Color(layer: string, name: string) {
    && !(exists keys :: Typography(name, keys)) && !("spacing-" <= name)
    && name !in {"radius-control", "radius-container", "radius-pill"}
    && !Motion(name) && !Elevation(name) && !Geometry(name) && !Invariant(layer, name)
  }

  /** The keys at which the document holds this token, in this theme. */
  ghost predicate BelongsAt(layer: string, name: string, theme: Theme, keys: seq<string>) {
    var shade := if theme.Dark? then "dark" else "light";
    layer != "component"
    && (|| Typography(name, keys) || Spacing(name, keys) || Radius(name, keys)
        || (Motion(name) && keys == ["motion", name])
        || (Elevation(name) && keys == ["elevation", name, shade])
        || (Color(layer, name) && keys == ["themes", shade, "colors", name]))
  }

  // ----- the routing agrees -----

  lemma BetweenIs(s: string, head: string, tail: string, mid: string)
    ensures Between(s, head, tail) == Some(mid) <==>
            && s == head + mid + tail && mid != ""
            && '\n' !in mid && '\r' !in mid && '\U{2028}' !in mid && '\U{2029}' !in mid
  {
    if s == head + mid + tail && mid != "" {
      assert s[..|head|] == head && s[|s| - |tail|..] == tail && s[|head|..|s| - |tail|] == mid;
    }
    if Between(s, head, tail).Some? {
      var m := s[|head|..|s| - |tail|];
      assert s == s[..|head|] + m + s[|s| - |tail|..];
    }
  }

  lemma EndsAlike(name: string, head: string, tail: string)
    requires |tail| >= 2
    ensures Between(name, head, tail).Some? ==> |name| >= 2 && name[|name| - 2..] == tail[|tail| - 2..]
  {
    if |name| > |head| + |tail| {
      assert name[|name| - 2..] == name[|name| - |tail|..][|tail| - 2..];
    }
  }

  /** No name ends in two of the property words. */
  lemma OneProperty(name: string, i: nat, j: nat)
    requires i < j < |TYPO_PROPS| && Between(name, "typo-", TYPO_PROPS[i].0).Some?
    ensures Between(name, "typo-", TYPO_PROPS[j].0).None?
  {
    var a, b := TYPO_PROPS[i].0, TYPO_PROPS[j].0;
    EndsAlike(name, "typo-", a);
    EndsAlike(name, "typo-", b);
    assert a[|a| - 2..][0] == a[|a| - 2] && a[|a| - 2..][1] == a[|a| - 1];
    assert b[|b| - 2..][0] == b[|b| - 2] && b[|b| - 2..][1] == b[|b| - 1];
  }

  /** The first property that fits is the one that decides. */
  lemma {:induction false} TypoFound(name: string, props: seq<(string, string)>, i: nat)
    requires i <= |props| && forall j | 0 <= j < i :: Between(name, "typo-", props[j].0).None?
    ensures i < |props| && Between(name, "typo-", props[i].0).Some? ==>
              TypoSlot(name, props) == Some(["typography", Between(name, "typo-", props[i].0).value, props[i].1])
    ensures i == |props| ==> TypoSlot(name, props).None?
  {
    if i > 0 {
      forall j | 0 <= j < i - 1
        ensures Between(name, "typo-", props[1..][j].0).None?
      {
        assert props[1..][j] == props[j + 1];
      }
      TypoFound(name, props[1..], i - 1);
    }
  }

  ghost predicate FitsProperty(name: string, scale: string, keys: seq<string>, i: nat) {
    i < |TYPO_PROPS| && Between(name, "typo-", TYPO_PROPS[i].0) == Some(scale)
    && keys == ["typography", scale, TYPO_PROPS[i].1]
  }

  lemma PropertyIs(name: string, scale: string, keys: seq<string>)
    ensures TypographyOf(name, scale, keys) <==> exists i :: FitsProperty(name, scale, keys, i)
  {
    hide Between;
    for i := 0 to 5
      invariant forall j | 0 <= j < i ::
        Between(name, "typo-", TYPO_PROPS[j].0) == Some(scale) <==>
          && name == "typo-" + scale + TYPO_PROPS[j].0 && scale != ""
          && '\n' !in scale && '\r' !in scale && '\U{2028}' !in scale && '\U{2029}' !in scale
    {
      BetweenIs(name, "typo-", TYPO_PROPS[i].0, scale);
    }
    assert TYPO_PROPS == [("-family", "fontFamily"), ("-size", "fontSize"), ("-weight", "fontWeight"),
                          ("-line", "lineHeight"), ("-tracking", "letterSpacing")];
    assert TypographyOf(name, scale, keys) ==>
        FitsProperty(name, scale, keys, 0) || FitsProperty(name, scale, keys, 1) || FitsProperty(name, scale, keys, 2)
        || FitsProperty(name, scale, keys, 3) || FitsProperty(name, scale, keys, 4);
  }

  lemma TypoAt(name: string, i: nat)
    requires i < |TYPO_PROPS| && Between(name, "typo-", TYPO_PROPS[i].0).Some?
    ensures TypoSlot(name, TYPO_PROPS) ==
            Some(["typography", Between(name, "typo-", TYPO_PROPS[i].0).value, TYPO_PROPS[i].1])
  {
    hide Between;
    forall j | 0 <= j < i
      ensures Between(name, "typo-", TYPO_PROPS[j].0).None?
    {
      if Between(name, "typo-", TYPO_PROPS[j].0).Some? {
        OneProperty(name, j, i);
      }
    }
    TypoFound(name, TYPO_PROPS, i);
  }

  lemma TypoIs(name: string, keys: seq<string>)
    ensures TypoSlot(name, TYPO_PROPS) == Some(keys) <==> Typography(name, keys)
  {
    hide Between, TypographyOf;
    if i: nat :| i < |TYPO_PROPS| && Between(name, "typo-", TYPO_PROPS[i].0).Some? {
      TypoAt(name, i);
      var scale := Between(name, "typo-", TYPO_PROPS[i].0).value;
      var found := ["typography", scale, TYPO_PROPS[i].1];
      assert FitsProperty(name, scale, found, i);
      PropertyIs(name, scale, found);
    } else {
      TypoFound(name, TYPO_PROPS, |TYPO_PROPS|);
    }
    if scale :| TypographyOf(name, scale, keys) {
      PropertyIs(name, scale, keys);
      var i: nat :| FitsProperty(name, scale, keys, i);
      TypoAt(name, i);
    }
  }

  /** The first two letters, or all there are: they tell the classes apart. */
  function Opening(name: string): string { if |name| >= 2 then name[..2] else name }

  lemma OpeningIs(name: string, word: string)
    requires |word| >= 2
    ensures StartsWith(name, word) <==> word <= name
    ensures word <= name ==> Opening(name) == [word[0], word[1]]
  {
  }

  lemma TestsArePrefixes(name: string)
    ensures "typo-" <= name ==> Opening(name) == "ty"
    ensures if StartsWith(name, "spacing-") then "spacing-" <= name && Opening(name) == "sp" else !("spacing-" <= name)
    ensures if StartsWith(name, "duration-") then "duration-" <= name && Opening(name) == "du"
            else !("duration-" <= name)
    ensures if StartsWith(name, "ease-") then "ease-" <= name && Opening(name) == "ea" else !("ease-" <= name)
    ensures if StartsWith(name, "shadow-") then "shadow-" <= name && Opening(name) == "sh" else !("shadow-" <= name)
    ensures if StartsWith(name, "control-h-") then "control-h-" <= name && Opening(name) == "co"
            else !("control-h-" <= name)
    ensures if StartsWith(name, "row-h-") then "row-h-" <= name && Opening(name) == "ro" else !("row-h-" <= name)
    ensures if StartsWith(name, "font-") then "font-" <= name && Opening(name) == "fo" else !("font-" <= name)
    ensures if StartsWith(name, "breakpoint-") then "breakpoint-" <= name && Opening(name) == "br"
            else !("breakpoint-" <= name)
  {
    hide StartsWith, Opening;
    OpeningIs(name, "typo-");
    OpeningIs(name, "spacing-");
    OpeningIs(name, "duration-");
    OpeningIs(name, "ease-");
    OpeningIs(name, "shadow-");
    OpeningIs(name, "control-h-");
    OpeningIs(name, "row-h-");
    OpeningIs(name, "font-");
    OpeningIs(name, "breakpoint-");
  }

  lemma RadiusOpening(name: string)
    ensures name in {"radius-control", "radius-container", "radius-pill"} ==> Opening(name) == "ra"
  {
  }

  lemma SpacingIs(name: string, keys: seq<string>)
    ensures Spacing(name, keys) <==> StartsWith(name, "spacing-") && keys == ["spacing", name[8..]]
  {
    if StartsWith(name, "spacing-") {
      assert name == "spacing-" + name[8..];
    }
    if step :| name == "spacing-" + step && keys == ["spacing", step] {
      assert name[..8] == "spacing-" && name[8..] == step;
    }
  }

  /** A typography name opens with `typo-`, so it is in no other class. */
  lemma TypographyHead(name: string, keys: seq<string>)
    requires Typography(name, keys)
    ensures "typo-" <= name
  {
  }

  /** The routing sends a token to these keys exactly when it belongs there. */
  lemma SlotIsWhereItBelongs(layer: string, name: string, theme: Theme, keys: seq<string>)
    ensures DocumentSlot(layer, name, theme) == Path(keys) <==> BelongsAt(layer, name, theme, keys)
  {
    hide TypoSlot, Typography, StartsWith, Spacing, Opening;
    var typo := TypoSlot(name, TYPO_PROPS);
    TypoIs(name, keys);
    if typo.Some? {
      TypoIs(name, typo.value);
      TypographyHead(name, typo.value);
    } else {
      forall ks
        ensures !Typography(name, ks)
      {
        TypoIs(name, ks);
      }
    }
    SpacingIs(name, keys);
    TestsArePrefixes(name);
    RadiusOpening(name);
  }

  /** A token has no slot for three reasons, and each names its own class. */
  lemma ReasonIsItsClass(layer: string, name: string, theme: Theme, reason: string)
    ensures DocumentSlot(layer, name, theme) == NoSlot(reason) <==>
            || (layer == "component" && reason ==
                "component layer \U{2014} frontmatter `components:` is variant-shaped, not token-shaped")
            || (layer != "component" && Geometry(name) && reason ==
                "control / row height \U{2014} the spec has no size group")
            || (layer != "component" && Invariant(layer, name) && reason ==
                "font family / breakpoint \U{2014} carried per typography role, or body-only per the spec")
  {
    hide TypoSlot, Typography, StartsWith, Spacing, Opening;
    var typo := TypoSlot(name, TYPO_PROPS);
    if typo.Some? {
      TypoIs(name, typo.value);
      TypographyHead(name, typo.value);
    }
    TestsArePrefixes(name);
    RadiusOpening(name);
  }
}
