/** Distinct values in the order first met, strictly ascending lists, and sums over a partition. */
module Ordered {
  predicate Ascending(xs: seq<int>) { forall i, j | 0 <= i < j < |xs| :: xs[i] < xs[j] }

  function Insert(xs: seq<int>, x: int): (r: seq<int>)
    requires Ascending(xs)
    ensures Ascending(r) && forall y :: y in r <==> y in xs || y == x
  {
    if xs == [] then [x]
    else if x < xs[0] then [x] + xs
    else if x == xs[0] then xs
    else
      var rest := Insert(xs[1..], x);
      assert forall y | y in xs[1..] :: xs[0] < y;
      assert xs == [xs[0]] + xs[1..];
      assert forall i | 0 <= i < |rest| :: rest[i] in rest && xs[0] < rest[i];
      [xs[0]] + rest
  }

  /** `[...new Set(xs)].sort()`, and the keys of a GROUP BY with ORDER BY. */
  function Sorted(xs: seq<int>): (r: seq<int>)
    ensures Ascending(r) && forall y :: y in r <==> y in xs
  {
    if xs == [] then []
    else
      assert xs == xs[..|xs| - 1] + [xs[|xs| - 1]];
      Insert(Sorted(xs[..|xs| - 1]), xs[|xs| - 1])
  }

  predicate Within(xs: seq<int>, ys: seq<int>) { forall i | 0 <= i < |xs| :: xs[i] in ys }

  lemma NonEmpty(xs: seq<int>, ys: seq<int>)
    requires xs != [] && Within(xs, ys)
    ensures ys != []
  {
    assert xs[0] in ys;
  }

  lemma TailWithin(a: seq<int>, b: seq<int>)
    requires a != [] && b != [] && Ascending(a) && Within(a, b) && a[0] == b[0]
    ensures Within(a[1..], b[1..])
  {
  }

  /** Strictly ascending lists with the same members are the same list. */
  lemma {:induction false} SameMembersSameList(a: seq<int>, b: seq<int>)
    requires Ascending(a) && Ascending(b) && Within(a, b) && Within(b, a)
    ensures a == b
  {
    if a == [] {
      if b != [] {
        NonEmpty(b, a);
      }
    } else {
      NonEmpty(a, b);
      assert a[0] in b && b[0] in a;
      TailWithin(a, b);
      TailWithin(b, a);
      SameMembersSameList(a[1..], b[1..]);
      assert a == [a[0]] + a[1..] && b == [b[0]] + b[1..];
    }
  }

  /** How many of `keys` fall in each group, summed over the groups. */
  function SumOver(keys: seq<int>, groups: seq<int>): nat {
    if groups == [] then 0 else multiset(keys)[groups[0]] + SumOver(keys, groups[1..])
  }

  lemma {:induction false} SumOverStep(keys: seq<int>, k: int, groups: seq<int>)
    requires Ascending(groups)
    ensures SumOver(keys + [k], groups) == SumOver(keys, groups) + (if k in groups then 1 else 0)
  {
    if groups != [] {
      SumOverStep(keys, k, groups[1..]);
      assert k in groups <==> k == groups[0] || k in groups[1..];
      assert k == groups[0] ==> k !in groups[1..];
    }
  }

  lemma {:induction false} SumOverNothing(groups: seq<int>)
    ensures SumOver([], groups) == 0
  {
    if groups != [] {
      SumOverNothing(groups[1..]);
    }
  }

  /** Distinct groups that cover the keys count each key once. */
  lemma {:induction false} PartitionSum(keys: seq<int>, groups: seq<int>)
    requires Ascending(groups) && forall k | k in keys :: k in groups
    ensures SumOver(keys, groups) == |keys|
  {
    if keys == [] {
      SumOverNothing(groups);
    } else {
      var front, last := keys[..|keys| - 1], keys[|keys| - 1];
      assert keys == front + [last];
      PartitionSum(front, groups);
      SumOverStep(front, last, groups);
    }
  }
}
