/** Parsed frontmatter: a tree of named fields, read by dotted path. */
module Frontmatter {
  import opened Prelude
  import opened Pieces

  /** Everything that is not an object is a leaf, kept as the text it prints as. */
  datatype Node = Leaf(text: string) | Obj(fields: Fields)
  datatype Fields = End | Field(key: string, node: Node, rest: Fields)

  function Find(fs: Fields, key: string): Option<Node> {
    match fs
    case End => None
    case Field(k, n, rest) => if k == key then Some(n) else Find(rest, key)
  }

  /** One hop; a leaf or an absent key reads as nothing. */
  function Hop(n: Node, key: string): Option<Node> { if n.Leaf? then None else Find(n.fields, key) }

  function AtKeys(n: Node, keys: seq<string>): Option<Node>
    decreases |keys|
  {
    if keys == [] then Some(n)
    else
      var next := Hop(n, keys[0]);
      if next.None? then None else AtKeys(next.value, keys[1..])
  }

  // ----- dotted paths -----

  function At(n: Node, dotted: string): Option<Node> { AtKeys(n, Split(dotted, '.')) }

  predicate DotFree(s: string) { '.' !in s }

  predicate AllDotFree(keys: seq<string>) { forall k | k in keys :: DotFree(k) }

  function Dotted(keys: seq<string>): string
    requires keys != []
  {
    Join(keys, '.')
  }

  lemma ReadDotted(n: Node, keys: seq<string>)
    requires keys != [] && AllDotFree(keys)
    ensures At(n, Dotted(keys)) == AtKeys(n, keys)
  {
    SplitJoin(keys, '.');
  }

  // ----- leaves -----

  function Leaves(n: Node, prefix: string): seq<string>
    decreases n
  {
    if n.Leaf? then [prefix] else LeavesIn(n.fields, prefix)
  }

  function LeavesIn(fs: Fields, prefix: string): seq<string>
    decreases fs
  {
    match fs
    case End => []
    case Field(key, node, rest) => Leaves(node, prefix + "." + key) + LeavesIn(rest, prefix)
  }

  predicate HasKey(fs: Fields, key: string) { Find(fs, key).Some? }

  /** Keys are distinct within an object and have no dots. */
  predicate WellKeyed(n: Node)
    decreases n
  {
    n.Obj? ==> WellKeyedIn(n.fields)
  }

  predicate WellKeyedIn(fs: Fields)
    decreases fs
  {
    match fs
    case End => true
    case Field(key, node, rest) => DotFree(key) && !HasKey(rest, key) && WellKeyed(node) && WellKeyedIn(rest)
  }

  function KeysIn(fs: Fields): seq<string>
    decreases fs
  {
    match fs
    case End => []
    case Field(key, _, rest) => [key] + KeysIn(rest)
  }

  lemma {:induction false} KeyIsIn(fs: Fields, key: string)
    ensures HasKey(fs, key) <==> key in KeysIn(fs)
    decreases fs
  {
    if fs.Field? {
      KeyIsIn(fs.rest, key);
    }
  }

  lemma DistinctCons(key: string, keys: seq<string>)
    ensures Distinct([key] + keys) <==> key !in keys && Distinct(keys)
  {
    var all := [key] + keys;
    assert forall i | 0 <= i < |keys| :: all[i + 1] == keys[i];
    if Distinct(all) {
      forall i | 0 <= i < |keys|
        ensures keys[i] != key
      {
        assert all[0] != all[i + 1];
      }
      forall i, j | 0 <= i < j < |keys|
        ensures keys[i] != keys[j]
      {
        assert all[i + 1] != all[j + 1];
      }
    }
  }

  /** No dot in the key, and its value well keyed in turn. */
  predicate GoodKey(fs: Fields, key: string) {
    '.' !in key && Find(fs, key).Some? && WellKeyed(Find(fs, key).value)
  }

  /** An object is well keyed when its keys are distinct and each is dot-free with a well-keyed value. */
  lemma {:induction false} WellKeyedMeans(fs: Fields)
    ensures WellKeyed(Obj(fs)) <==> Distinct(KeysIn(fs)) && forall key | key in KeysIn(fs) :: GoodKey(fs, key)
    decreases fs
  {
    hide Distinct;
    if fs.Field? {
      WellKeyedMeans(fs.rest);
      KeyIsIn(fs.rest, fs.key);
      DistinctCons(fs.key, KeysIn(fs.rest));
      assert fs.key in KeysIn(fs);
      forall key | key in KeysIn(fs.rest)
        ensures key in KeysIn(fs) && (key != fs.key ==> GoodKey(fs, key) == GoodKey(fs.rest, key))
      {
      }
    } else {
      NoKeysDistinct();
    }
  }

  lemma NoKeysDistinct()
    ensures Distinct(KeysIn(End))
  {
  }

  predicate IsLeafAt(n: Node, keys: seq<string>) { AtKeys(n, keys).Some? && AtKeys(n, keys).value.Leaf? }

  /** `path` names a leaf below `n`, reached under `prefix`. */
  ghost predicate NamesLeaf(n: Node, prefix: seq<string>, path: string)
    requires prefix != []
  {
    exists keys :: IsLeafAt(n, keys) && AllDotFree(keys) && path == Dotted(prefix + keys)
  }

  ghost predicate NamesLeafIn(fs: Fields, prefix: seq<string>, path: string)
    requires prefix != []
  {
    exists keys :: keys != [] && IsLeafAt(Obj(fs), keys) && AllDotFree(keys) && path == Dotted(prefix + keys)
  }

  /** The collected paths are exactly the dotted names of the leaves that reading by path finds. */
  lemma {:induction false} LeavesAgreeWithAt(n: Node, prefix: seq<string>, path: string)
    requires prefix != [] && WellKeyed(n)
    ensures path in Leaves(n, Dotted(prefix)) <==> NamesLeaf(n, prefix, path)
    decreases n
  {
    if n.Leaf? {
      assert prefix + [] == prefix;
      assert IsLeafAt(n, []);
      if NamesLeaf(n, prefix, path) {
        var keys :| IsLeafAt(n, keys) && AllDotFree(keys) && path == Dotted(prefix + keys);
        assert keys == [];
      }
    } else {
      LeavesInAgree(n.fields, prefix, path);
      assert Obj(n.fields) == n;
      if NamesLeaf(n, prefix, path) {
        var keys :| IsLeafAt(n, keys) && AllDotFree(keys) && path == Dotted(prefix + keys);
        assert keys != [];
      }
    }
  }

  lemma FieldHop(fs: Fields, keys: seq<string>)
    requires fs.Field? && keys != []
    ensures IsLeafAt(Obj(fs), keys) <==>
            if keys[0] == fs.key then IsLeafAt(fs.node, keys[1..]) else IsLeafAt(Obj(fs.rest), keys)
  {
  }

  lemma LaterKeyDiffers(fs: Fields, keys: seq<string>)
    requires fs.Field? && WellKeyedIn(fs) && keys != [] && IsLeafAt(Obj(fs.rest), keys)
    ensures keys[0] != fs.key
  {
  }

  lemma FieldLeaf(fs: Fields, prefix: seq<string>, path: string)
    requires prefix != [] && fs.Field? && WellKeyedIn(fs)
    ensures NamesLeafIn(fs, prefix, path) <==>
            NamesLeaf(fs.node, prefix + [fs.key], path) || NamesLeafIn(fs.rest, prefix, path)
  {
    hide IsLeafAt, Dotted;
    if keys :| keys != [] && IsLeafAt(Obj(fs), keys) && AllDotFree(keys) && path == Dotted(prefix + keys) {
      FieldHop(fs, keys);
      if keys[0] == fs.key {
        assert prefix + keys == prefix + [fs.key] + keys[1..];
        assert AllDotFree(keys[1..]);
        assert IsLeafAt(fs.node, keys[1..]);
      } else {
        assert IsLeafAt(Obj(fs.rest), keys);
      }
    }
    if keys :| IsLeafAt(fs.node, keys) && AllDotFree(keys) && path == Dotted(prefix + [fs.key] + keys) {
      var all := [fs.key] + keys;
      assert all[1..] == keys && prefix + all == prefix + [fs.key] + keys;
      FieldHop(fs, all);
      assert IsLeafAt(Obj(fs), all);
    }
    if keys :| keys != [] && IsLeafAt(Obj(fs.rest), keys) && AllDotFree(keys) && path == Dotted(prefix + keys) {
      LaterKeyDiffers(fs, keys);
      FieldHop(fs, keys);
      assert IsLeafAt(Obj(fs), keys);
    }
  }

  lemma {:induction false} LeavesInAgree(fs: Fields, prefix: seq<string>, path: string)
    requires prefix != [] && WellKeyedIn(fs)
    ensures path in LeavesIn(fs, Dotted(prefix)) <==> NamesLeafIn(fs, prefix, path)
    decreases fs
  {
    if fs.Field? {
      JoinSnoc(prefix, fs.key, '.');
      LeavesAgreeWithAt(fs.node, prefix + [fs.key], path);
      LeavesInAgree(fs.rest, prefix, path);
      FieldLeaf(fs, prefix, path);
    } else {
      NothingBelow(prefix, path);
    }
  }

  lemma NothingBelow(prefix: seq<string>, path: string)
    requires prefix != []
    ensures !NamesLeafIn(End, prefix, path)
  {
  }
}
