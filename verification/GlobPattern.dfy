/**
 * Image-input globs. The compiler rewrites a glob into regular-expression
 * source text in four passes; the theorem is that the text, read back as a
 * regular expression, matches what the glob means. A `char` stands for one
 * UTF-16 code unit.
 */
module GlobPattern {
  import opened Prelude

  const NUL: char := 0 as char

  predicate IsSyntax(c: char) { c in ".+^${}()|[]\\" }

  predicate LineTerminator(c: char) { c == '\n' || c == '\r' || c == '\U{2028}' || c == '\U{2029}' }

  // ----- the four passes -----

  function Escape(s: string): string {
    if s == "" then "" else (if IsSyntax(s[0]) then ['\\', s[0]] else [s[0]]) + Escape(s[1..])
  }

  function MarkGlobstars(s: string): string {
    if |s| >= 2 && s[0] == '*' && s[1] == '*' then [NUL] + MarkGlobstars(s[2..])
    else if s == "" then ""
    else [s[0]] + MarkGlobstars(s[1..])
  }

  function ExpandWildcard(c: char): string {
    if c == '*' then "[^/]*" else if c == '?' then "[^/]" else [c]
  }

  function ExpandWildcards(s: string): string {
    if s == "" then "" else ExpandWildcard(s[0]) + ExpandWildcards(s[1..])
  }

  function ExpandGlobstars(s: string): string {
    if s == "" then "" else (if s[0] == NUL then ".*" else [s[0]]) + ExpandGlobstars(s[1..])
  }

  function Compile(glob: string): string {
    ExpandGlobstars(ExpandWildcards(MarkGlobstars(Escape(glob))))
  }

  // ----- regular expressions: the fragment the compiler can emit, anchored at both ends -----

  /** The characters that a pattern reads as themselves only behind a backslash. */
  predicate NeedsEscape(c: char) { c in "^$\\.*+?()[]{}|" }

  datatype Atom = Literal(c: char) | NotSlash | Dot
  datatype Item = One(atom: Atom) | Many(atom: Atom)

  /** One atom and the text after it; None outside the fragment. */
  function ParseAtom(src: string): (r: Option<(Atom, string)>)
    requires src != ""
    ensures r.Some? ==> |r.value.1| < |src|
  {
    if src[0] == '\\' then
      if |src| >= 2 && NeedsEscape(src[1]) then Some((Literal(src[1]), src[2..])) else None
    else if src[0] == '[' then
      if "[^/]" <= src then Some((NotSlash, src[4..])) else None
    else if src[0] == '.' then Some((Dot, src[1..]))
    else if NeedsEscape(src[0]) then None
    else Some((Literal(src[0]), src[1..]))
  }

  function ParseRegex(src: string): Option<seq<Item>>
    decreases |src|
  {
    if src == "" then Some([])
    else
      var atom := ParseAtom(src);
      if atom.None? then None
      else
        var starred := atom.value.1 != "" && atom.value.1[0] == '*';
        var rest := ParseRegex(if starred then atom.value.1[1..] else atom.value.1);
        if rest.None? then None
        else Some([if starred then Many(atom.value.0) else One(atom.value.0)] + rest.value)
  }

  predicate AtomMatches(a: Atom, c: char) {
    match a
    case Literal(d) => c == d
    case NotSlash => c != '/'
    case Dot => !LineTerminator(c)
  }

  predicate Matches(items: seq<Item>, path: string)
    decreases |items|, |path|
  {
    if items == [] then path == ""
    else if items[0].One? then path != "" && AtomMatches(items[0].atom, path[0]) && Matches(items[1..], path[1..])
    else
      || Matches(items[1..], path)
      || (path != "" && AtomMatches(items[0].atom, path[0]) && Matches(items, path[1..]))
  }

  /** `new RegExp("^" + Compile(glob) + "$").test(path)`. */
  predicate Test(glob: string, path: string) {
    var parsed := ParseRegex(Compile(glob));
    parsed.Some? && Matches(parsed.value, path)
  }

  // ----- what a glob means -----

  predicate NoSlash(s: string) { '/' !in s }

  /** `**` is any text, `*` any text without a slash, `?` one character but a slash, anything else itself. */
  ghost predicate GlobMatch(glob: string, path: string)
    decreases |glob|
  {
    if |glob| >= 2 && glob[0] == '*' && glob[1] == '*' then
      exists k :: 0 <= k <= |path| && GlobMatch(glob[2..], path[k..])
    else if glob == "" then path == ""
    else if glob[0] == '*' then
      exists k :: 0 <= k <= |path| && NoSlash(path[..k]) && GlobMatch(glob[1..], path[k..])
    else
      path != "" && (if glob[0] == '?' then path[0] != '/' else path[0] == glob[0]) && GlobMatch(glob[1..], path[1..])
  }

  predicate SingleLine(path: string) { forall c | c in path :: !LineTerminator(c) }

  /** One line holds neither a line feed nor a carriage return nor either Unicode separator. */
  lemma SingleLineMeans(path: string)
    ensures SingleLine(path) <==>
            '\n' !in path && '\r' !in path && '\U{2028}' !in path && '\U{2029}' !in path
  {
  }

  /** Behind a backslash a pattern reads each character of its own syntax as itself, and no other. */
  lemma EscapesRead(c: char, rest: string)
    ensures ParseAtom(['\\', c] + rest) == if c in "^$\\.*+?()[]{}|" then Some((Literal(c), rest)) else None
  {
    assert (['\\', c] + rest)[2..] == rest;
  }

  // ----- the passes composed, token by token; a NUL already in the glob ends as a globstar -----

  function Emit(glob: string): string {
    if |glob| >= 2 && glob[0] == '*' && glob[1] == '*' then ".*" + Emit(glob[2..])
    else if glob == "" then ""
    else if glob[0] == NUL then ".*" + Emit(glob[1..])
    else if glob[0] == '*' then "[^/]*" + Emit(glob[1..])
    else if glob[0] == '?' then "[^/]" + Emit(glob[1..])
    else if IsSyntax(glob[0]) then ['\\', glob[0]] + Emit(glob[1..])
    else [glob[0]] + Emit(glob[1..])
  }

  function Items(glob: string): seq<Item> {
    if |glob| >= 2 && glob[0] == '*' && glob[1] == '*' then [Many(Dot)] + Items(glob[2..])
    else if glob == "" then []
    else if glob[0] == NUL then [Many(Dot)] + Items(glob[1..])
    else if glob[0] == '*' then [Many(NotSlash)] + Items(glob[1..])
    else if glob[0] == '?' then [One(NotSlash)] + Items(glob[1..])
    else [One(Literal(glob[0]))] + Items(glob[1..])
  }

  lemma {:induction false} WildcardsConcat(a: string, b: string)
    ensures ExpandWildcards(a + b) == ExpandWildcards(a) + ExpandWildcards(b)
  {
    if a == "" {
      assert a + b == b;
    } else {
      assert (a + b)[1..] == a[1..] + b;
      WildcardsConcat(a[1..], b);
    }
  }

  lemma {:induction false} GlobstarsConcat(a: string, b: string)
    ensures ExpandGlobstars(a + b) == ExpandGlobstars(a) + ExpandGlobstars(b)
  {
    if a == "" {
      assert a + b == b;
    } else {
      assert (a + b)[1..] == a[1..] + b;
      GlobstarsConcat(a[1..], b);
    }
  }

  function Finish(s: string): string { ExpandGlobstars(ExpandWildcards(s)) }

  lemma FinishConcat(a: string, b: string)
    ensures Finish(a + b) == Finish(a) + Finish(b)
  {
    WildcardsConcat(a, b);
    GlobstarsConcat(ExpandWildcards(a), ExpandWildcards(b));
  }

  lemma {:induction false} NoNulUnchanged(s: string)
    requires NUL !in s
    ensures ExpandGlobstars(s) == s
  {
    if s != "" {
      NoNulUnchanged(s[1..]);
    }
  }

  lemma FinishChar(c: char)
    ensures c != NUL ==> Finish([c]) == ExpandWildcard(c)
    ensures Finish([NUL]) == ".*"
  {
    assert ExpandWildcards([c]) == ExpandWildcard(c);
    assert ExpandWildcards([NUL]) == [NUL];
    assert ExpandGlobstars([NUL]) == ".*" + ExpandGlobstars([NUL][1..]) == ".*";
    if c != NUL {
      NoNulUnchanged(ExpandWildcard(c));
    }
  }

  lemma FinishTwo(c: char, d: char)
    requires c != NUL && d != NUL
    ensures Finish([c, d]) == ExpandWildcard(c) + ExpandWildcard(d)
  {
    assert [c, d] == [c] + [d];
    FinishConcat([c], [d]);
    FinishChar(c);
    FinishChar(d);
  }

  lemma CompileGlobstar(glob: string)
    requires |glob| >= 2 && glob[0] == '*' && glob[1] == '*'
    ensures Compile(glob) == ".*" + Compile(glob[2..])
  {
    var escaped := Escape(glob);
    assert !IsSyntax('*') && glob[1..][0] == '*' && glob[1..][1..] == glob[2..];
    assert escaped == "*" + Escape(glob[1..]) && Escape(glob[1..]) == "*" + Escape(glob[2..]);
    assert escaped[2..] == Escape(glob[2..]);
    FinishConcat([NUL], MarkGlobstars(escaped[2..]));
    FinishChar(NUL);
  }

  lemma CompileSyntax(glob: string)
    requires glob != "" && IsSyntax(glob[0])
    ensures Compile(glob) == ['\\', glob[0]] + Compile(glob[1..])
  {
    var escaped, rest := Escape(glob), Escape(glob[1..]);
    assert escaped == ['\\', glob[0]] + rest;
    assert escaped[1..] == [glob[0]] + rest && escaped[1..][1..] == rest;
    assert MarkGlobstars(escaped) == ['\\'] + ([glob[0]] + MarkGlobstars(rest));
    assert MarkGlobstars(escaped) == ['\\', glob[0]] + MarkGlobstars(rest);
    FinishConcat(['\\', glob[0]], MarkGlobstars(rest));
    FinishTwo('\\', glob[0]);
  }

  lemma CompilePlain(glob: string)
    requires glob != "" && !IsSyntax(glob[0])
    requires !(|glob| >= 2 && glob[0] == '*' && glob[1] == '*')
    ensures Compile(glob) == (if glob[0] == NUL then ".*" else ExpandWildcard(glob[0])) + Compile(glob[1..])
  {
    var escaped, rest := Escape(glob), Escape(glob[1..]);
    assert escaped == [glob[0]] + rest && escaped[1..] == rest;
    assert MarkGlobstars(escaped) == [glob[0]] + MarkGlobstars(rest);
    FinishConcat([glob[0]], MarkGlobstars(rest));
    FinishChar(glob[0]);
  }

  /** The four whole-string passes are one token-by-token translation. */
  lemma {:induction false} CompileIsEmit(glob: string)
    ensures Compile(glob) == Emit(glob)
    decreases |glob|
  {
    if |glob| >= 2 && glob[0] == '*' && glob[1] == '*' {
      CompileGlobstar(glob);
      CompileIsEmit(glob[2..]);
    } else if glob != "" {
      CompileIsEmit(glob[1..]);
      if IsSyntax(glob[0]) {
        CompileSyntax(glob);
      } else {
        CompilePlain(glob);
      }
    }
  }

  /** Emitted text never starts with a quantifier, so no atom before it is repeated by accident. */
  lemma EmitStartsAtom(glob: string)
    ensures Emit(glob) != "" ==> Emit(glob)[0] != '*'
  {
  }

  lemma ParseStarred(src: string, a: Atom, rest: string)
    requires src != "" && ParseAtom(src) == Some((a, "*" + rest))
    ensures ParseRegex(src) == if ParseRegex(rest).Some? then Some([Many(a)] + ParseRegex(rest).value) else None
  {
    assert ("*" + rest)[1..] == rest;
  }

  lemma ParsePlain(src: string, a: Atom, rest: string)
    requires src != "" && ParseAtom(src) == Some((a, rest)) && (rest == "" || rest[0] != '*')
    ensures ParseRegex(src) == if ParseRegex(rest).Some? then Some([One(a)] + ParseRegex(rest).value) else None
  {
  }

  lemma EmittedAtoms(rest: string, c: char)
    ensures ParseAtom(".*" + rest) == Some((Dot, "*" + rest))
    ensures ParseAtom("[^/]*" + rest) == Some((NotSlash, "*" + rest))
    ensures ParseAtom("[^/]" + rest) == Some((NotSlash, rest))
    ensures IsSyntax(c) ==> ParseAtom(['\\', c] + rest) == Some((Literal(c), rest))
    ensures !IsSyntax(c) && c != '*' && c != '?' ==> ParseAtom([c] + rest) == Some((Literal(c), rest))
  {
    assert (".*" + rest)[1..] == "*" + rest;
    assert "[^/]" <= "[^/]*" + rest && ("[^/]*" + rest)[4..] == "*" + rest;
    assert "[^/]" <= "[^/]" + rest && ("[^/]" + rest)[4..] == rest;
    assert (['\\', c] + rest)[2..] == rest;
    assert ([c] + rest)[1..] == rest;
  }

  lemma {:induction false} EmitParses(glob: string)
    ensures ParseRegex(Emit(glob)) == Some(Items(glob))
    decreases |glob|
  {
    hide ParseRegex, ParseAtom, IsSyntax;
    if |glob| >= 2 && glob[0] == '*' && glob[1] == '*' {
      var rest := Emit(glob[2..]);
      EmitParses(glob[2..]);
      EmittedAtoms(rest, '*');
      ParseStarred(".*" + rest, Dot, rest);
    } else if glob != "" {
      var rest := Emit(glob[1..]);
      EmitStartsAtom(glob[1..]);
      EmitParses(glob[1..]);
      EmittedAtoms(rest, glob[0]);
      if glob[0] == NUL {
        ParseStarred(".*" + rest, Dot, rest);
      } else if glob[0] == '*' {
        ParseStarred("[^/]*" + rest, NotSlash, rest);
      } else if glob[0] == '?' {
        ParsePlain("[^/]" + rest, NotSlash, rest);
      } else if IsSyntax(glob[0]) {
        ParsePlain(['\\', glob[0]] + rest, Literal(glob[0]), rest);
      } else {
        ParsePlain([glob[0]] + rest, Literal(glob[0]), rest);
      }
    } else {
      EmptyParses();
    }
  }

  lemma EmptyParses()
    ensures ParseRegex("") == Some([])
  {
  }

  // ----- matching -----

  /** A repeated atom consumes some prefix all of whose characters it accepts. */
  lemma {:induction false} ManyIsPrefix(a: Atom, rest: seq<Item>, path: string)
    ensures Matches([Many(a)] + rest, path) <==>
            exists k :: 0 <= k <= |path| && (forall j | 0 <= j < k :: AtomMatches(a, path[j]))
              && Matches(rest, path[k..])
    decreases |path|
  {
    var items := [Many(a)] + rest;
    assert items[1..] == rest && path[0..] == path;
    if path != "" {
      var tail := path[1..];
      ManyIsPrefix(a, rest, tail);
      if AtomMatches(a, path[0]) && Matches(items, tail) {
        var k :| 0 <= k <= |tail| && (forall j | 0 <= j < k :: AtomMatches(a, tail[j])) && Matches(rest, tail[k..]);
        assert path[k + 1..] == tail[k..];
        assert forall j | 0 <= j < k + 1 :: j > 0 ==> path[j] == tail[j - 1];
      }
      if k :| 0 < k <= |path| && (forall j | 0 <= j < k :: AtomMatches(a, path[j])) && Matches(rest, path[k..]) {
        assert path[k..] == tail[k - 1..];
        assert forall j | 0 <= j < k - 1 :: tail[j] == path[j + 1];
      }
    }
  }

  lemma {:induction false} ItemsMatchGlob(glob: string, path: string)
    requires NUL !in glob && SingleLine(path)
    ensures Matches(Items(glob), path) <==> GlobMatch(glob, path)
    decreases |glob|
  {
    if |glob| >= 2 && glob[0] == '*' && glob[1] == '*' {
      ManyIsPrefix(Dot, Items(glob[2..]), path);
      forall k | 0 <= k <= |path|
        ensures Matches(Items(glob[2..]), path[k..]) <==> GlobMatch(glob[2..], path[k..])
      {
        ItemsMatchGlob(glob[2..], path[k..]);
      }
    } else if glob != "" && glob[0] == '*' {
      ManyIsPrefix(NotSlash, Items(glob[1..]), path);
      forall k | 0 <= k <= |path|
        ensures Matches(Items(glob[1..]), path[k..]) <==> GlobMatch(glob[1..], path[k..])
        ensures (forall j | 0 <= j < k :: AtomMatches(NotSlash, path[j])) <==> NoSlash(path[..k])
      {
        ItemsMatchGlob(glob[1..], path[k..]);
        assert forall j | 0 <= j < k :: path[j] == path[..k][j];
      }
    } else if glob != "" && path != "" {
      ItemsMatchGlob(glob[1..], path[1..]);
    }
  }

  /** The compiled pattern is the item list of the glob, for every glob and path. */
  lemma TestIsItems(glob: string, path: string)
    ensures Test(glob, path) <==> Matches(Items(glob), path)
  {
    hide Compile, ParseRegex, Emit, Items, Matches;
    CompileIsEmit(glob);
    EmitParses(glob);
  }

  /** For every glob without NUL and every single-line path, the compiled pattern matches exactly what the glob
      means. */
  lemma CompiledGlobMeansGlob(glob: string, path: string)
    requires '\0' !in glob && SingleLine(path)
    ensures Test(glob, path) <==> GlobMatch(glob, path)
  {
    hide Test, Items, Matches, GlobMatch;
    TestIsItems(glob, path);
    ItemsMatchGlob(glob, path);
  }

  predicate Accepts(item: Item, c: char) { AtomMatches(item.atom, c) }

  /** A character no item accepts is in no matching path. */
  lemma {:induction false} UnacceptedChar(items: seq<Item>, path: string, c: char)
    requires Matches(items, path) && forall item | item in items :: !Accepts(item, c)
    ensures c !in path
    decreases |items|, |path|
  {
    if items != [] && path != "" {
      assert items[0] in items && path == [path[0]] + path[1..];
      assert forall item | item in items[1..] :: item in items;
      if items[0].One? {
        UnacceptedChar(items[1..], path[1..], c);
      } else if Matches(items[1..], path) {
        UnacceptedChar(items[1..], path, c);
      } else {
        UnacceptedChar(items, path[1..], c);
      }
    }
  }

  // ----- the families the image copies in -----

  const IMAGE_INPUT_FAMILIES := [
    "packages/runner/src/**",
    "packages/shared/src/**",
    "packages/runner/package.json",
    "packages/runner/bun.lock",
    "packages/runner/verify-synthesis.sh",
    "sandbox-image/**",
    ".dockerignore"
  ]

  predicate Touched(family: string, paths: seq<string>) {
    exists i :: 0 <= i < |paths| && Test(family, paths[i])
  }

  function TouchedAmong(families: seq<string>, paths: seq<string>): seq<string> {
    if families == [] then []
    else (if Touched(families[0], paths) then [families[0]] else []) + TouchedAmong(families[1..], paths)
  }

  function ChangedFamilies(paths: seq<string>): seq<string> { TouchedAmong(IMAGE_INPUT_FAMILIES, paths) }

  predicate TouchesImageInput(paths: seq<string>) { |ChangedFamilies(paths)| > 0 }

  predicate Ordinary(family: string) {
    forall i | 0 <= i < |family| :: family[i] != NUL && family[i] != '*' && family[i] != '?'
  }

  /** The listed families split into directories (prefix, then `**`) and single files. */
  const DIRECTORIES := ["packages/runner/src/", "packages/shared/src/", "sandbox-image/"]
  const FILES := ["packages/runner/package.json", "packages/runner/bun.lock", "packages/runner/verify-synthesis.sh",
    ".dockerignore"]

  /** A glob with no wildcard means itself; with a trailing `**` it means "below this prefix". */
  lemma {:induction false} OrdinaryGlob(family: string, path: string)
    requires Ordinary(family)
    ensures GlobMatch(family, path) <==> path == family
    ensures GlobMatch(family + "**", path) <==> family <= path
    decreases |family|
  {
    if family == "" {
      assert path[|path|..] == "" && GlobMatch("**"[2..], path[|path|..]);
    } else {
      assert (family + "**")[1..] == family[1..] + "**";
      if path != "" {
        OrdinaryGlob(family[1..], path[1..]);
        assert path == [path[0]] + path[1..] && family == [family[0]] + family[1..];
      }
    }
  }

  lemma {:induction false} TouchedAmongExact(families: seq<string>, paths: seq<string>, family: string)
    ensures family in TouchedAmong(families, paths) <==> family in families && Touched(family, paths)
  {
    if families != [] {
      TouchedAmongExact(families[1..], paths, family);
    }
  }

  /** The items of a glob without wildcards, and of one with a trailing `**`, accept no line terminator. */
  lemma {:induction false} OrdinaryItems(family: string, tail: string, c: char)
    requires Ordinary(family) && SingleLine(family) && (tail == "" || tail == "**") && LineTerminator(c)
    ensures forall item | item in Items(family + tail) :: !Accepts(item, c)
    decreases |family|
  {
    if family == "" {
      assert family + tail == tail && "**"[2..] == "";
    } else {
      assert (family + tail)[1..] == family[1..] + tail;
      assert family[0] in family && forall x | x in family[1..] :: x in family;
      OrdinaryItems(family[1..], tail, c);
    }
  }

  /** A path with a line terminator lies in no listed family's pattern. */
  lemma BrokenPathUntouched(family: string, tail: string, path: string)
    requires Ordinary(family) && SingleLine(family) && (tail == "" || tail == "**") && !SingleLine(path)
    ensures !Test(family + tail, path)
  {
    hide Test, Items, Matches, Ordinary;
    var c :| c in path && LineTerminator(c);
    TestIsItems(family + tail, path);
    OrdinaryItems(family, tail, c);
    if Matches(Items(family + tail), path) {
      UnacceptedChar(Items(family + tail), path, c);
    }
  }

  /** What a listed family means in terms of the path alone. */
  predicate InFamily(family: string, path: string) {
    || (family in FILES && path == family)
    || (exists d :: d in DIRECTORIES && family == d + "**" && d <= path)
  }

  lemma FamilyTextsOrdinary()
    ensures Ordinary("packages/runner/src/")
    ensures Ordinary("packages/shared/src/")
    ensures Ordinary("sandbox-image/")
    ensures Ordinary("packages/runner/package.json")
    ensures Ordinary("packages/runner/bun.lock")
    ensures Ordinary("packages/runner/verify-synthesis.sh")
    ensures Ordinary(".dockerignore")
  {
  }

  lemma FamilyTextsOneLine()
    ensures SingleLine("packages/runner/src/")
    ensures SingleLine("packages/shared/src/")
    ensures SingleLine("sandbox-image/")
    ensures SingleLine("packages/runner/package.json")
    ensures SingleLine("packages/runner/bun.lock")
    ensures SingleLine("packages/runner/verify-synthesis.sh")
    ensures SingleLine(".dockerignore")
  {
  }

  lemma DirectoriesOrdinary(d: string)
    requires d in DIRECTORIES || d in FILES
    ensures Ordinary(d) && SingleLine(d) && d != ""
  {
    hide Ordinary, SingleLine;
    FamilyTextsOrdinary();
    FamilyTextsOneLine();
  }

  lemma FamiliesSplit(family: string)
    ensures family in IMAGE_INPUT_FAMILIES <==> family in FILES || exists d :: d in DIRECTORIES && family == d + "**"
  {
    assert "packages/runner/src/" + "**" == IMAGE_INPUT_FAMILIES[0];
    assert "packages/shared/src/" + "**" == IMAGE_INPUT_FAMILIES[1];
    assert "sandbox-image/" + "**" == IMAGE_INPUT_FAMILIES[5];
    assert DIRECTORIES[0] in DIRECTORIES && DIRECTORIES[1] in DIRECTORIES && DIRECTORIES[2] in DIRECTORIES;
  }

  lemma NoWildcardEnding(family: string, d: string)
    requires Ordinary(family)
    ensures family != d + "**"
  {
    assert (d + "**")[|d + "**"| - 1] == '*';
  }

  lemma FileMeaning(family: string, path: string)
    requires family in FILES
    ensures Test(family, path) <==> SingleLine(path) && InFamily(family, path)
  {
    hide Test, GlobMatch, Ordinary, SingleLine;
    DirectoriesOrdinary(family);
    assert family + "" == family;
    if SingleLine(path) {
      OrdinaryGlob(family, path);
      OrdinaryHasNoNul(family);
      CompiledGlobMeansGlob(family, path);
    } else {
      BrokenPathUntouched(family, "", path);
    }
    forall d | d in DIRECTORIES
      ensures family != d + "**"
    {
      NoWildcardEnding(family, d);
    }
  }

  lemma OrdinaryHasNoNul(family: string)
    requires Ordinary(family)
    ensures NUL !in family && NUL !in family + "**"
  {
  }

  lemma DirectoryMeaning(d: string, path: string)
    requires d in DIRECTORIES
    ensures Test(d + "**", path) <==> SingleLine(path) && InFamily(d + "**", path)
  {
    hide Test, GlobMatch, Ordinary, SingleLine;
    var family := d + "**";
    DirectoriesOrdinary(d);
    if SingleLine(path) {
      OrdinaryGlob(d, path);
      OrdinaryHasNoNul(d);
      CompiledGlobMeansGlob(family, path);
    } else {
      BrokenPathUntouched(d, "**", path);
    }
    forall e | e in DIRECTORIES && family == e + "**"
      ensures e == d
    {
      assert e == (e + "**")[..|family| - 2] && d == family[..|family| - 2];
    }
    if family in FILES {
      DirectoriesOrdinary(family);
      NoWildcardEnding(family, d);
    }
  }

  lemma FamilyMeaning(family: string, path: string)
    requires family in IMAGE_INPUT_FAMILIES
    ensures Test(family, path) <==> SingleLine(path) && InFamily(family, path)
  {
    hide Test, InFamily, SingleLine;
    FamiliesSplit(family);
    if family in FILES {
      FileMeaning(family, path);
    } else {
      var d :| d in DIRECTORIES && family == d + "**";
      DirectoryMeaning(d, path);
    }
  }

  /** Some changed path is one line and lies in the family. */
  predicate InSomeFamily(family: string, paths: seq<string>) {
    exists path :: path in paths && SingleLine(path) && InFamily(family, path)
  }

  lemma TouchedMeaning(family: string, paths: seq<string>)
    requires family in IMAGE_INPUT_FAMILIES
    ensures Touched(family, paths) <==> InSomeFamily(family, paths)
  {
    hide Test, InFamily, SingleLine;
    forall i | 0 <= i < |paths|
      ensures Test(family, paths[i]) <==> SingleLine(paths[i]) && InFamily(family, paths[i])
    {
      FamilyMeaning(family, paths[i]);
    }
  }

  /** On any list of paths the gate reports exactly the families some changed path lies in, and fires exactly when
      there is one; a path holding a line terminator counts for no family. */
  lemma ChangedFamiliesExact(paths: seq<string>)
    ensures forall family ::
              family in ChangedFamilies(paths) <==> family in IMAGE_INPUT_FAMILIES && InSomeFamily(family, paths)
    ensures TouchesImageInput(paths) <==> exists family :: family in IMAGE_INPUT_FAMILIES && InSomeFamily(family, paths)
  {
    hide Touched, TouchedAmong, InSomeFamily;
    forall family
      ensures family in ChangedFamilies(paths) <==> family in IMAGE_INPUT_FAMILIES && InSomeFamily(family, paths)
    {
      TouchedAmongExact(IMAGE_INPUT_FAMILIES, paths, family);
      if family in IMAGE_INPUT_FAMILIES {
        TouchedMeaning(family, paths);
      }
    }
    if TouchesImageInput(paths) {
      var family := ChangedFamilies(paths)[0];
      assert family in ChangedFamilies(paths);
    }
  }
}
