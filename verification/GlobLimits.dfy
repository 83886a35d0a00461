/** Exactly which globs, and which paths, keep the compiled pattern and the glob's meaning together. */
module GlobLimits {
  import opened GlobPattern

  ghost predicate Agrees(glob: string, path: string) { Test(glob, path) <==> GlobMatch(glob, path) }

  // ----- which paths -----

  lemma {:induction false} DotsMatchOneLine(path: string)
    ensures Matches([Many(Dot)], path) <==> SingleLine(path)
    decreases |path|
  {
    if path != "" {
      DotsMatchOneLine(path[1..]);
      assert path == [path[0]] + path[1..];
      assert forall c | c in path :: c == path[0] || c in path[1..];
      assert path[0] in path && forall c | c in path[1..] :: c in path;
      assert [Many(Dot)][1..] == [];
    }
  }

  lemma GlobstarMatchesAll(path: string)
    ensures GlobMatch("**", path) && Items("**") == [Many(Dot)]
  {
    assert "**"[2..] == "" && path[|path|..] == "";
    assert GlobMatch("", path[|path|..]);
  }

  // ----- which globs -----

  /** A character that is no wildcard stands for itself on both sides, except that the pattern does not keep a NUL. */
  lemma {:induction false} GlobLiteral(glob: string, path: string, c: char)
    requires GlobMatch(glob, path) && c in glob && c != '*' && c != '?'
    ensures c in path
    decreases |glob|
  {
    if |glob| >= 2 && glob[0] == '*' && glob[1] == '*' {
      assert glob == [glob[0], glob[1]] + glob[2..];
      var k :| 0 <= k <= |path| && GlobMatch(glob[2..], path[k..]);
      GlobLiteral(glob[2..], path[k..], c);
      assert forall x | x in path[k..] :: x in path;
    } else if glob[0] == '*' {
      assert glob == [glob[0]] + glob[1..];
      var k :| 0 <= k <= |path| && NoSlash(path[..k]) && GlobMatch(glob[1..], path[k..]);
      GlobLiteral(glob[1..], path[k..], c);
      assert forall x | x in path[k..] :: x in path;
    } else if glob[0] != c {
      assert glob == [glob[0]] + glob[1..];
      GlobLiteral(glob[1..], path[1..], c);
      assert forall x | x in path[1..] :: x in path;
    }
  }

  lemma {:induction false} LiteralItem(glob: string, c: char)
    requires c in glob && c != '*' && c != '?' && c != NUL
    ensures One(Literal(c)) in Items(glob)
    decreases |glob|
  {
    if |glob| >= 2 && glob[0] == '*' && glob[1] == '*' {
      assert glob == [glob[0], glob[1]] + glob[2..];
      LiteralItem(glob[2..], c);
    } else if glob[0] != c {
      assert glob == [glob[0]] + glob[1..];
      LiteralItem(glob[1..], c);
    }
  }

  lemma {:induction false} ItemIsMet(items: seq<Item>, path: string, c: char)
    requires Matches(items, path) && One(Literal(c)) in items
    ensures c in path
    decreases |items|, |path|
  {
    assert items == [items[0]] + items[1..];
    if items[0].One? {
      if items[0] != One(Literal(c)) {
        ItemIsMet(items[1..], path[1..], c);
        assert forall x | x in path[1..] :: x in path;
      }
    } else if Matches(items[1..], path) {
      ItemIsMet(items[1..], path, c);
    } else {
      ItemIsMet(items, path[1..], c);
      assert forall x | x in path[1..] :: x in path;
    }
  }

  /** A shortest path the pattern matches: wildcards take nothing, `?` takes a letter. */
  function Shortest(glob: string): string {
    if glob == "" then ""
    else
      (if glob[0] == '*' || glob[0] == NUL then "" else if glob[0] == '?' then "x" else [glob[0]])
      + Shortest(glob[1..])
  }

  lemma {:induction false} ShortestMatches(glob: string)
    ensures Matches(Items(glob), Shortest(glob))
    ensures NUL !in Shortest(glob) && (SingleLine(glob) ==> SingleLine(Shortest(glob)))
    decreases |glob|
  {
    if |glob| >= 2 && glob[0] == '*' && glob[1] == '*' {
      ShortestMatches(glob[2..]);
      assert glob[1..][1..] == glob[2..] && Shortest(glob[1..]) == "" + Shortest(glob[2..]);
      assert "" + ("" + Shortest(glob[2..])) == Shortest(glob[2..]);
      assert forall x | x in glob[2..] :: x in glob;
      SkipMany(Dot, Items(glob[2..]), Shortest(glob));
    } else if glob != "" {
      var rest := Shortest(glob[1..]);
      ShortestMatches(glob[1..]);
      assert glob[0] in glob && forall x | x in glob[1..] :: x in glob;
      if glob[0] == NUL || glob[0] == '*' {
        assert "" + rest == rest;
        SkipMany(if glob[0] == NUL then Dot else NotSlash, Items(glob[1..]), rest);
      } else {
        var c := if glob[0] == '?' then 'x' else glob[0];
        assert Shortest(glob) == [c] + rest;
        TakeOne(if glob[0] == '?' then NotSlash else Literal(glob[0]), Items(glob[1..]), c, rest);
      }
    }
  }

  lemma SkipMany(a: Atom, rest: seq<Item>, path: string)
    requires Matches(rest, path)
    ensures Matches([Many(a)] + rest, path)
  {
    assert ([Many(a)] + rest)[1..] == rest;
  }

  lemma TakeOne(a: Atom, rest: seq<Item>, c: char, path: string)
    requires AtomMatches(a, c) && Matches(rest, path)
    ensures Matches([One(a)] + rest, [c] + path)
  {
    assert ([One(a)] + rest)[1..] == rest && ([c] + path)[1..] == path;
  }

  /** A glob holding a line terminator matches no single-line path, as a pattern or as a glob. */
  lemma BrokenGlobAgrees(glob: string, path: string)
    requires !SingleLine(glob) && SingleLine(path)
    ensures Agrees(glob, path)
  {
    hide Test, Matches, Items, GlobMatch;
    var c :| c in glob && LineTerminator(c);
    TestIsItems(glob, path);
    LiteralItem(glob, c);
    if Matches(Items(glob), path) {
      ItemIsMet(Items(glob), path, c);
    }
    if GlobMatch(glob, path) {
      GlobLiteral(glob, path, c);
    }
  }

  /** A NUL in a one-line glob: the shortest path of the pattern has none, so it does not meet the glob. */
  lemma NulDisagrees(glob: string)
    requires NUL in glob && SingleLine(glob)
    ensures SingleLine(Shortest(glob)) && !Agrees(glob, Shortest(glob))
  {
    hide Test, Matches, Items, GlobMatch, Shortest, SingleLine;
    TestIsItems(glob, Shortest(glob));
    ShortestMatches(glob);
    if GlobMatch(glob, Shortest(glob)) {
      GlobLiteral(glob, Shortest(glob), NUL);
    }
  }

  // ----- the exact limits -----

  /** A path keeps every NUL-free glob's meaning exactly when it is one line. */
  lemma PathLimit(path: string)
    ensures (forall glob | '\0' !in glob :: Agrees(glob, path)) <==> SingleLine(path)
  {
    hide Test, Matches, Items, GlobMatch, SingleLine;
    if SingleLine(path) {
      forall glob | NUL !in glob
        ensures Agrees(glob, path)
      {
        CompiledGlobMeansGlob(glob, path);
      }
    } else {
      TestIsItems("**", path);
      GlobstarMatchesAll(path);
      DotsMatchOneLine(path);
      assert NUL !in "**" && !Agrees("**", path);
    }
  }

  /** A glob keeps its meaning on every one-line path exactly when it has no NUL, or a line terminator that lets it
      match no such path at all. */
  lemma GlobLimit(glob: string)
    ensures (forall path | SingleLine(path) :: Agrees(glob, path)) <==> '\0' !in glob || !SingleLine(glob)
  {
    hide Agrees, SingleLine;
    if NUL !in glob {
      forall path | SingleLine(path)
        ensures Agrees(glob, path)
      {
        AgreesWithoutNul(glob, path);
      }
    } else if !SingleLine(glob) {
      forall path | SingleLine(path)
        ensures Agrees(glob, path)
      {
        BrokenGlobAgrees(glob, path);
      }
    } else {
      NulDisagrees(glob);
    }
  }

  lemma AgreesWithoutNul(glob: string, path: string)
    requires NUL !in glob && SingleLine(path)
    ensures Agrees(glob, path)
  {
    CompiledGlobMeansGlob(glob, path);
  }
}
