/** The zero-filled grids, and the conservation laws that tie every aggregation of one read together. */
module InsightsGrid {
  import opened Insights

  type Counts = seq<Count<string>>

  function ZeroFill(keys: seq<string>): Counts { seq(|keys|, i requires 0 <= i < |keys| => Count(keys[i], 0)) }

  lemma {:induction false} ZeroFillIsZero(keys: seq<string>, s: string)
    ensures Get(ZeroFill(keys), s) == 0 && Sum(ZeroFill(keys)) == 0
  {
    if keys != [] {
      ZeroFillIsZero(keys[1..], s);
      assert ZeroFill(keys)[1..] == ZeroFill(keys[1..]);
    }
  }

  // ----- what grouped rows add up to -----

  function CellTotal(rows: seq<Count<Cell>>, c: Cell): nat {
    if rows == [] then 0
    else CellTotal(rows[..|rows| - 1], c) + (if rows[|rows| - 1].key == c then rows[|rows| - 1].count else 0)
  }

  function BucketTotal(rows: seq<Count<Cell>>, b: int): nat {
    if rows == [] then 0
    else BucketTotal(rows[..|rows| - 1], b) + (if rows[|rows| - 1].key.bucket == b then rows[|rows| - 1].count else 0)
  }

  lemma {:induction false} TotalsConcat(x: seq<Count<Cell>>, y: seq<Count<Cell>>, c: Cell)
    ensures CellTotal(x + y, c) == CellTotal(x, c) + CellTotal(y, c)
    ensures BucketTotal(x + y, c.bucket) == BucketTotal(x, c.bucket) + BucketTotal(y, c.bucket)
  {
    if y == [] {
      assert x + y == x;
    } else {
      assert (x + y)[..|x + y| - 1] == x + y[..|y| - 1];
      TotalsConcat(x, y[..|y| - 1], c);
    }
  }

  lemma {:induction false} TotalsAdd(t: seq<Count<Cell>>, k: Cell, n: nat, c: Cell)
    ensures CellTotal(Add(t, k, n), c) == CellTotal(t, c) + (if k == c then n else 0)
    ensures BucketTotal(Add(t, k, n), c.bucket) == BucketTotal(t, c.bucket) + (if k.bucket == c.bucket then n else 0)
  {
    if t != [] {
      TotalsConcat([t[0]], t[1..], c);
      assert t == [t[0]] + t[1..];
      if t[0].key == k {
        TotalsConcat([Count(k, t[0].count + n)], t[1..], c);
      } else {
        TotalsAdd(t[1..], k, n, c);
        TotalsConcat([t[0]], Add(t[1..], k, n), c);
      }
    }
  }

  lemma CellsStep(front: seq<JoinRow>, last: JoinRow, g: Granularity)
    ensures Cells(front + [last], g) ==
            Cells(front, g) + [Cell(BucketOf(g, last.review.reviewedAt), Severities([last])[0])]
    ensures RowBuckets(front + [last], g) == RowBuckets(front, g) + [BucketOf(g, last.review.reviewedAt)]
  {
    assert RowBuckets(front + [last], g) == RowBuckets(front, g) + [BucketOf(g, last.review.reviewedAt)];
    assert Severities(front + [last]) == Severities(front) + Severities([last]);
  }

  /** Grouped by bucket and severity, the rows keep both the cell counts and the bucket counts. */
  lemma {:induction false} GroupedTotals(rows: seq<JoinRow>, g: Granularity, c: Cell)
    ensures CellTotal(GroupCount(Cells(rows, g)), c) == multiset(Cells(rows, g))[c]
    ensures BucketTotal(GroupCount(Cells(rows, g)), c.bucket) == multiset(RowBuckets(rows, g))[c.bucket]
  {
    if rows != [] {
      var front, last := rows[..|rows| - 1], rows[|rows| - 1];
      GroupedTotals(front, g, c);
      CellsStep(front, last, g);
      assert rows == front + [last];
      var keys := Cells(rows, g);
      assert keys[..|keys| - 1] == Cells(front, g);
      TotalsAdd(GroupCount(Cells(front, g)), keys[|keys| - 1], 1, c);
    }
  }

  lemma {:induction false} GroupedKeys<K>(keys: seq<K>, i: nat)
    requires i < |GroupCount(keys)|
    ensures GroupCount(keys)[i].key in keys
  {
    if keys != [] {
      var front := GroupCount(keys[..|keys| - 1]);
      AddKeys(front, keys[|keys| - 1], 1, i);
      if i < |front| && GroupCount(keys)[i].key == front[i].key {
        GroupedKeys(keys[..|keys| - 1], i);
      }
    }
  }

  lemma {:induction false} AddKeys<K>(t: seq<Count<K>>, k: K, n: nat, i: nat)
    requires i < |Add(t, k, n)|
    ensures if i < |t| then Add(t, k, n)[i].key == t[i].key else Add(t, k, n)[i].key == k
  {
    if t != [] && t[0].key != k && i > 0 {
      AddKeys(t[1..], k, n, i - 1);
    }
  }

  /** The four severities come first, worst first, whether or not any finding has them. */
  predicate NamesSeverities(c: Counts) {
    |c| >= 4 && c[0].key == "must-fix" && c[1].key == "should-fix" && c[2].key == "may-fix" && c[3].key == "nit"
  }

  lemma {:induction false} AddGrows<K>(t: seq<Count<K>>, k: K, n: nat)
    ensures |Add(t, k, n)| >= |t|
  {
    if t != [] && t[0].key != k {
      AddGrows(t[1..], k, n);
    }
  }

  lemma AddKeepsNames(c: Counts, s: string, n: nat)
    requires NamesSeverities(c)
    ensures NamesSeverities(Add(c, s, n))
  {
    AddGrows(c, s, n);
    AddKeys(c, s, n, 0);
    AddKeys(c, s, n, 1);
    AddKeys(c, s, n, 2);
    AddKeys(c, s, n, 3);
  }

  // ----- the assembly loops -----

  ghost predicate Holds(buckets: map<int, Counts>, rows: seq<Count<Cell>>, starts: seq<int>) {
    && (forall b :: b in buckets <==> b in starts)
    && (forall b | b in buckets :: Sum(buckets[b]) == BucketTotal(rows, b))
    && (forall b, s | b in buckets :: Get(buckets[b], s) == CellTotal(rows, Cell(b, s)))
    && (forall b | b in buckets :: NamesSeverities(buckets[b]))
  }

  lemma HoldsStep(buckets: map<int, Counts>, rows: seq<Count<Cell>>, starts: seq<int>, row: Count<Cell>)
    requires Holds(buckets, rows, starts) && row.key.bucket in buckets
    ensures var grown := Add(buckets[row.key.bucket], row.key.severity, row.count);
            Holds(buckets[row.key.bucket := grown], rows + [row], starts)
  {
    var next := buckets[row.key.bucket := Add(buckets[row.key.bucket], row.key.severity, row.count)];
    assert (rows + [row])[..|rows|] == rows;
    AddKeepsNames(buckets[row.key.bucket], row.key.severity, row.count);
    forall b, s | b in next
      ensures Sum(next[b]) == BucketTotal(rows + [row], b) && Get(next[b], s) == CellTotal(rows + [row], Cell(b, s))
    {
      AddEffect(buckets[row.key.bucket], row.key.severity, row.count, s);
    }
    forall b | b in next
      ensures Sum(next[b]) == BucketTotal(rows + [row], b)
    {
      AddEffect(buckets[row.key.bucket], row.key.severity, row.count, "");
    }
  }

  /** Zero buckets for every start, then one pass over the grouped rows. */
  method AssembleDistribution(rows: seq<Count<Cell>>, starts: seq<int>) returns (buckets: map<int, Counts>)
    requires forall i | 0 <= i < |rows| :: rows[i].key.bucket in starts
    ensures Holds(buckets, rows, starts)
  {
    buckets := map b | b in starts :: ZeroFill(FINDING_SEVERITIES);
    forall s: string
      ensures Get(ZeroFill(FINDING_SEVERITIES), s) == 0 && Sum(ZeroFill(FINDING_SEVERITIES)) == 0
    {
      ZeroFillIsZero(FINDING_SEVERITIES, s);
    }
    assert Sum(ZeroFill(FINDING_SEVERITIES)) == 0 by {
      ZeroFillIsZero(FINDING_SEVERITIES, "");
    }
    for i := 0 to |rows|
      invariant Holds(buckets, rows[..i], starts)
    {
      var row := rows[i];
      HoldsStep(buckets, rows[..i], starts, row);
      assert rows[..i + 1] == rows[..i] + [row];
      buckets := buckets[row.key.bucket := Add(buckets[row.key.bucket], row.key.severity, row.count)];
    }
    assert rows[..|rows|] == rows;
  }

  /** The row for a day, or a zero row. */
  function RowFor(rows: seq<TrendRow>, b: int): (r: TrendRow)
    ensures r.start == b
  {
    if rows == [] then TrendRow(b, 0, 0)
    else if rows[|rows| - 1].start == b then rows[|rows| - 1]
    else RowFor(rows[..|rows| - 1], b)
  }

  method AssembleDaily(rows: seq<TrendRow>, starts: seq<int>) returns (daily: seq<TrendRow>)
    requires forall i | 0 <= i < |rows| :: rows[i].start in starts
    ensures |daily| == |starts| && forall i | 0 <= i < |starts| :: daily[i] == RowFor(rows, starts[i])
  {
    var buckets := map b | b in starts :: TrendRow(b, 0, 0);
    for i := 0 to |rows|
      invariant forall b :: b in buckets <==> b in starts
      invariant forall b | b in buckets :: buckets[b] == RowFor(rows[..i], b)
    {
      assert rows[..i + 1][..i] == rows[..i];
      var row := rows[i];
      buckets := buckets[row.start := buckets[row.start].(reviews := row.reviews, findings := row.findings)];
      assert RowFor(rows[..i + 1], row.start) == row;
    }
    assert rows[..|rows|] == rows;
    forall i | 0 <= i < |starts|
      ensures starts[i] in buckets
    {
      var b := starts[i];
      assert b in starts;
    }
    daily := seq(|starts|, i requires 0 <= i < |starts| && starts[i] in buckets => buckets[starts[i]]);
  }
}
