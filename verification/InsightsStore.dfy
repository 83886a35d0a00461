/** One insights read, and what all its aggregations agree on. */
module InsightsStore {
  import opened Ordered
  import opened Insights
  import opened InsightsGrid
  import InsightsDates

  datatype Bucket = Bucket(start: int, granularity: Granularity, bySeverity: Counts)

  datatype Report = Report(
    reviewsTotal: nat, findingsBySeverity: seq<Count<string>>, verdictDistribution: seq<Count<string>>,
    weeklyTrend: seq<TrendRow>, dailyTrend: seq<TrendRow>, distribution: seq<Bucket>)

  function GridOf(g: Granularity, today: int, windowDays: nat): seq<int> {
    if g.Week? then InsightsDates.WeekGridOf(today, windowDays) else InsightsDates.DayGridOf(today, windowDays)
  }

  /** Each trend row counts its own bucket's reviews and findings. */
  predicate TrendExact(trend: seq<TrendRow>, reviews: seq<Review>, rows: seq<JoinRow>, g: Granularity) {
    forall i | 0 <= i < |trend| ::
      trend[i].reviews == multiset(Buckets(reviews, g))[trend[i].start]
        && trend[i].findings == multiset(RowBuckets(rows, g))[trend[i].start]
  }

  /** Each bucket names the severities and counts its own findings, in all and per severity. */
  ghost predicate DistributionExact(d: seq<Bucket>, rows: seq<JoinRow>, g: Granularity) {
    forall i | 0 <= i < |d| ::
      && d[i].granularity == g && NamesSeverities(d[i].bySeverity)
      && Sum(d[i].bySeverity) == multiset(RowBuckets(rows, g))[d[i].start]
      && forall s :: Get(d[i].bySeverity, s) == multiset(Cells(rows, g))[Cell(d[i].start, s)]
  }

  function TrendStarts(trend: seq<TrendRow>): seq<int> { seq(|trend|, i requires 0 <= i < |trend| => trend[i].start) }
  function BucketStarts(d: seq<Bucket>): seq<int> { seq(|d|, i requires 0 <= i < |d| => d[i].start) }

  predicate Covers(starts: seq<int>, keys: seq<int>) { Ascending(starts) && Within(keys, starts) }

  // ----- the report -----

  lemma TrendIsExact(reviews: seq<Review>, findings: seq<Finding>, g: Granularity)
    requires DistinctIds(reviews)
    ensures TrendExact(Trend(LeftJoin(reviews, findings), g), reviews, InnerJoin(reviews, findings), g)
    ensures var starts := TrendStarts(Trend(LeftJoin(reviews, findings), g));
            Covers(starts, Buckets(reviews, g)) && Within(starts, Buckets(reviews, g))
  {
    var left := LeftJoin(reviews, findings);
    var trend := Trend(left, g);
    forall i | 0 <= i < |trend|
      ensures trend[i].reviews == multiset(Buckets(reviews, g))[trend[i].start]
      ensures trend[i].findings == multiset(RowBuckets(InnerJoin(reviews, findings), g))[trend[i].start]
    {
      LeftJoinCounts(reviews, findings, g, trend[i].start);
      LeftJoinFindings(reviews, findings, g, trend[i].start);
    }
    var starts := Sorted(RowBuckets(left, g));
    assert TrendStarts(trend) == starts;
    StartsCover(reviews, findings, g);
  }

  lemma StartsCover(reviews: seq<Review>, findings: seq<Finding>, g: Granularity)
    ensures var starts := Sorted(RowBuckets(LeftJoin(reviews, findings), g));
            Within(Buckets(reviews, g), starts) && Within(starts, Buckets(reviews, g))
  {
    var keys := Buckets(reviews, g);
    var starts := Sorted(RowBuckets(LeftJoin(reviews, findings), g));
    forall i | 0 <= i < |keys|
      ensures keys[i] in starts
    {
      var b := keys[i];
      assert b in keys;
      LeftJoinBuckets(reviews, findings, g, b);
    }
    forall i | 0 <= i < |starts|
      ensures starts[i] in keys
    {
      var b := starts[i];
      assert b in starts;
      LeftJoinBuckets(reviews, findings, g, b);
    }
  }

  lemma {:induction false} InnerRows(reviews: seq<Review>, findings: seq<Finding>, row: JoinRow)
    requires row in InnerJoin(reviews, findings)
    ensures row.review in reviews && row.finding.Some?
  {
    var front, last := reviews[..|reviews| - 1], reviews[|reviews| - 1];
    if row in InnerJoin(front, findings) {
      InnerRows(front, findings, row);
    }
  }

  /** A day without a row has no reviews and no findings. */
  lemma {:induction false} RowForExact(trend: seq<TrendRow>, reviews: seq<Review>, rows: seq<JoinRow>, g: Granularity,
      b: int)
    requires TrendExact(trend, reviews, rows, g)
    requires b !in TrendStarts(trend) ==> multiset(Buckets(reviews, g))[b] == 0 && multiset(RowBuckets(rows, g))[b] == 0
    ensures RowFor(trend, b).reviews == multiset(Buckets(reviews, g))[b]
            && RowFor(trend, b).findings == multiset(RowBuckets(rows, g))[b]
  {
    if trend != [] && trend[|trend| - 1].start != b {
      var front := trend[..|trend| - 1];
      assert TrendStarts(trend) == TrendStarts(front) + [trend[|trend| - 1].start];
      RowForExact(front, reviews, rows, g, b);
    }
  }

  lemma NoRowNoCount(reviews: seq<Review>, findings: seq<Finding>, g: Granularity, b: int)
    requires b !in Buckets(reviews, g)
    ensures multiset(Buckets(reviews, g))[b] == 0 && multiset(RowBuckets(InnerJoin(reviews, findings), g))[b] == 0
  {
    var rows := InnerJoin(reviews, findings);
    forall i | 0 <= i < |rows|
      ensures RowBuckets(rows, g)[i] != b
    {
      InnerRows(reviews, findings, rows[i]);
      var j :| 0 <= j < |reviews| && reviews[j] == rows[i].review;
      assert Buckets(reviews, g)[j] == RowBuckets(rows, g)[i];
    }
  }

  /** The trend queries, their LEFT JOIN and the day grid. */
  method DailyTrend(reviews: seq<Review>, findings: seq<Finding>, today: int, windowDays: nat)
    returns (daily: seq<TrendRow>)
    requires DistinctIds(reviews)
    ensures TrendExact(daily, reviews, InnerJoin(reviews, findings), Day)
    ensures TrendStarts(daily) ==
            Sorted(InsightsDates.DayGridOf(today, windowDays) + TrendStarts(Trend(LeftJoin(reviews, findings), Day)))
  {
    var rows := Trend(LeftJoin(reviews, findings), Day);
    var grid := InsightsDates.DayGrid(today, windowDays);
    var starts := Sorted(grid + TrendStarts(rows));
    forall i | 0 <= i < |rows|
      ensures rows[i].start in starts
    {
      var b := rows[i].start;
      assert TrendStarts(rows)[i] == b && b in grid + TrendStarts(rows);
    }
    daily := AssembleDaily(rows, starts);
    TrendIsExact(reviews, findings, Day);
    forall i | 0 <= i < |daily|
      ensures daily[i].reviews == multiset(Buckets(reviews, Day))[daily[i].start]
      ensures daily[i].findings == multiset(RowBuckets(InnerJoin(reviews, findings), Day))[daily[i].start]
    {
      var b := daily[i].start;
      if b !in TrendStarts(rows) {
        AbsentDay(reviews, TrendStarts(rows), b);
        NoRowNoCount(reviews, findings, Day, b);
      }
      RowForExact(rows, reviews, InnerJoin(reviews, findings), Day, b);
    }
    assert TrendStarts(daily) == starts;
  }

  lemma AbsentDay(reviews: seq<Review>, starts: seq<int>, b: int)
    requires Within(Buckets(reviews, Day), starts) && b !in starts
    ensures b !in Buckets(reviews, Day)
  {
  }

  function ObservedStarts(rows: seq<Count<Cell>>): seq<int> {
    seq(|rows|, i requires 0 <= i < |rows| => rows[i].key.bucket)
  }

  method Distribution(rows: seq<JoinRow>, g: Granularity, today: int, windowDays: nat) returns (d: seq<Bucket>)
    ensures DistributionExact(d, rows, g)
    ensures BucketStarts(d) == Sorted(GridOf(g, today, windowDays) + ObservedStarts(GroupCount(Cells(rows, g))))
  {
    var grouped := GroupCount(Cells(rows, g));
    var grid;
    if g.Week? {
      grid := InsightsDates.WeekGrid(today, windowDays);
    } else {
      grid := InsightsDates.DayGrid(today, windowDays);
    }
    var starts := Sorted(grid + ObservedStarts(grouped));
    forall i | 0 <= i < |grouped|
      ensures grouped[i].key.bucket in starts
    {
      var b := grouped[i].key.bucket;
      assert ObservedStarts(grouped)[i] == b && b in grid + ObservedStarts(grouped);
    }
    var buckets := AssembleDistribution(grouped, starts);
    forall i | 0 <= i < |starts|
      ensures starts[i] in buckets
    {
      var b := starts[i];
      assert b in starts;
    }
    d := seq(|starts|, i requires 0 <= i < |starts| && starts[i] in buckets =>
           Bucket(starts[i], g, buckets[starts[i]]));
    forall i | 0 <= i < |d|
      ensures Sum(d[i].bySeverity) == multiset(RowBuckets(rows, g))[d[i].start]
      ensures forall s :: Get(d[i].bySeverity, s) == multiset(Cells(rows, g))[Cell(d[i].start, s)]
    {
      GroupedTotals(rows, g, Cell(d[i].start, ""));
      forall s: string
        ensures Get(d[i].bySeverity, s) == multiset(Cells(rows, g))[Cell(d[i].start, s)]
      {
        GroupedTotals(rows, g, Cell(d[i].start, s));
      }
    }
    assert BucketStarts(d) == starts;
  }

  /** The whole report, each part against the snapshot's own rows. */
  ghost predicate Exact(r: Report, reviews: seq<Review>, findings: seq<Finding>, windowDays: nat, today: int) {
    var g, rows := GranularityOf(windowDays), InnerJoin(reviews, findings);
    && r.reviewsTotal == |reviews|
    && r.findingsBySeverity == GroupCount(Severities(rows)) && r.verdictDistribution == GroupCount(Verdicts(reviews))
    && TrendExact(r.weeklyTrend, reviews, rows, Week)
    && TrendStarts(r.weeklyTrend) == Sorted(RowBuckets(LeftJoin(reviews, findings), Week))
    && (if g.Week? then r.dailyTrend == []
        else TrendExact(r.dailyTrend, reviews, rows, Day)
             && TrendStarts(r.dailyTrend) ==
                Sorted(InsightsDates.DayGridOf(today, windowDays)
                  + TrendStarts(Trend(LeftJoin(reviews, findings), Day))))
    && DistributionExact(r.distribution, rows, g)
    && BucketStarts(r.distribution) == Sorted(GridOf(g, today, windowDays) + ObservedStarts(GroupCount(Cells(rows, g))))
  }

  lemma {:induction false} WhereMatches(reviews: seq<Review>, q: Query, now: int, r: Review)
    ensures r in Where(reviews, q, now) <==> r in reviews && Matches(r, q, now)
  {
    if reviews != [] {
      WhereMatches(reviews[..|reviews| - 1], q, now, r);
      assert reviews == reviews[..|reviews| - 1] + [reviews[|reviews| - 1]];
    }
  }

  lemma {:induction false} WhereDistinct(reviews: seq<Review>, q: Query, now: int)
    requires DistinctIds(reviews)
    ensures DistinctIds(Where(reviews, q, now))
  {
    if reviews != [] {
      var front, last := reviews[..|reviews| - 1], reviews[|reviews| - 1];
      DistinctFront(reviews);
      WhereDistinct(front, q, now);
      forall x | x in Where(front, q, now)
        ensures x.id != last.id
      {
        WhereMatches(front, q, now, x);
      }
      ReviewsApart(Where(front, q, now));
    }
    ReviewsApart(Where(reviews, q, now));
  }

  method CreateInsights(reviews: seq<Review>, findings: seq<Finding>, q: Query, now: int) returns (r: Report)
    requires DistinctIds(reviews)
    ensures Exact(r, Where(reviews, q, now), findings, ClampWindow(q.windowDays), DayOf(now))
  {
    var windowDays := ClampWindow(q.windowDays);
    var g := GranularityOf(windowDays);
    var matching := Where(reviews, q, now);
    WhereDistinct(reviews, q, now);
    var rows := InnerJoin(matching, findings);
    var weekly := Trend(LeftJoin(matching, findings), Week);
    TrendIsExact(matching, findings, Week);
    var distribution := Distribution(rows, g, DayOf(now), windowDays);
    var daily: seq<TrendRow> := [];
    if g.Day? {
      daily := DailyTrend(matching, findings, DayOf(now), windowDays);
    }
    assert TrendStarts(weekly) == Sorted(RowBuckets(LeftJoin(matching, findings), Week));
    r := Report(|matching|, GroupCount(Severities(rows)), GroupCount(Verdicts(matching)), weekly, daily, distribution);
  }

  // ----- conservation -----

  function SumReviews(trend: seq<TrendRow>): nat {
    if trend == [] then 0 else trend[0].reviews + SumReviews(trend[1..])
  }
  function SumFindings(trend: seq<TrendRow>): nat {
    if trend == [] then 0 else trend[0].findings + SumFindings(trend[1..])
  }
  function SumBuckets(d: seq<Bucket>): nat { if d == [] then 0 else Sum(d[0].bySeverity) + SumBuckets(d[1..]) }

  lemma {:induction false} TrendSums(trend: seq<TrendRow>, reviews: seq<Review>, rows: seq<JoinRow>, g: Granularity)
    requires TrendExact(trend, reviews, rows, g)
    ensures SumReviews(trend) == SumOver(Buckets(reviews, g), TrendStarts(trend))
    ensures SumFindings(trend) == SumOver(RowBuckets(rows, g), TrendStarts(trend))
  {
    if trend != [] {
      TrendSums(trend[1..], reviews, rows, g);
      assert TrendStarts(trend)[1..] == TrendStarts(trend[1..]);
    }
  }

  lemma {:induction false} BucketSums(d: seq<Bucket>, rows: seq<JoinRow>, g: Granularity)
    requires DistributionExact(d, rows, g)
    ensures SumBuckets(d) == SumOver(RowBuckets(rows, g), BucketStarts(d))
  {
    if d != [] {
      BucketSums(d[1..], rows, g);
      assert BucketStarts(d)[1..] == BucketStarts(d[1..]);
    }
  }

  lemma {:induction false} AddHasKeys<K>(t: seq<Count<K>>, k: K, n: nat, j: K)
    requires j == k || exists i :: 0 <= i < |t| && t[i].key == j
    ensures exists i :: 0 <= i < |Add(t, k, n)| && Add(t, k, n)[i].key == j
  {
    var a := Add(t, k, n);
    if t == [] || t[0].key == k {
      if j == k {
        assert a[0].key == j;
      } else {
        var i :| 0 <= i < |t| && t[i].key == j;
        assert a[i].key == j;
      }
    } else if t[0].key == j {
      assert a[0].key == j;
    } else {
      if i :| 0 <= i < |t| && t[i].key == j {
        assert t[1..][i - 1].key == j;
      }
      AddHasKeys(t[1..], k, n, j);
      var i :| 0 <= i < |Add(t[1..], k, n)| && Add(t[1..], k, n)[i].key == j;
      assert a[i + 1].key == j;
    }
  }

  lemma {:induction false} GroupedHasKeys<K>(keys: seq<K>, k: K)
    requires k in keys
    ensures exists i :: 0 <= i < |GroupCount(keys)| && GroupCount(keys)[i].key == k
  {
    var front := GroupCount(keys[..|keys| - 1]);
    if k in keys[..|keys| - 1] {
      GroupedHasKeys(keys[..|keys| - 1], k);
    }
    AddHasKeys(front, keys[|keys| - 1], 1, k);
    assert GroupCount(keys) == Add(front, keys[|keys| - 1], 1);
  }

  /** Every finding's bucket is among the observed starts. */
  lemma ObservedCovers(rows: seq<JoinRow>, g: Granularity, grid: seq<int>)
    ensures Within(RowBuckets(rows, g), Sorted(grid + ObservedStarts(GroupCount(Cells(rows, g)))))
  {
    var grouped := GroupCount(Cells(rows, g));
    var starts := Sorted(grid + ObservedStarts(grouped));
    forall i | 0 <= i < |rows|
      ensures RowBuckets(rows, g)[i] in starts
    {
      var c := Cells(rows, g)[i];
      GroupedHasKeys(Cells(rows, g), c);
      var j :| 0 <= j < |grouped| && grouped[j].key == c;
      assert (grid + ObservedStarts(grouped))[|grid| + j] == c.bucket;
      var b := RowBuckets(rows, g)[i];
      assert b in grid + ObservedStarts(grouped);
    }
  }

  lemma FindingsWithin(reviews: seq<Review>, findings: seq<Finding>, g: Granularity, starts: seq<int>)
    requires Within(Buckets(reviews, g), starts)
    ensures Within(RowBuckets(InnerJoin(reviews, findings), g), starts)
  {
    var rows := InnerJoin(reviews, findings);
    forall i | 0 <= i < |rows|
      ensures RowBuckets(rows, g)[i] in starts
    {
      InnerRows(reviews, findings, rows[i]);
      var j :| 0 <= j < |reviews| && reviews[j] == rows[i].review;
      assert Buckets(reviews, g)[j] in starts;
    }
  }

  lemma PartitionWithin(keys: seq<int>, groups: seq<int>)
    requires Ascending(groups) && Within(keys, groups)
    ensures SumOver(keys, groups) == |keys|
  {
    forall k | k in keys
      ensures k in groups
    {
      var i :| 0 <= i < |keys| && keys[i] == k;
      assert keys[i] in groups;
    }
    PartitionSum(keys, groups);
  }

  /** A trend whose starts cover the reviews' buckets counts every review and every finding once. */
  lemma TrendConserves(trend: seq<TrendRow>, reviews: seq<Review>, findings: seq<Finding>, g: Granularity)
    requires TrendExact(trend, reviews, InnerJoin(reviews, findings), g)
    requires Covers(TrendStarts(trend), Buckets(reviews, g))
    ensures SumReviews(trend) == |reviews| && SumFindings(trend) == |InnerJoin(reviews, findings)|
  {
    TrendSums(trend, reviews, InnerJoin(reviews, findings), g);
    PartitionWithin(Buckets(reviews, g), TrendStarts(trend));
    FindingsWithin(reviews, findings, g, TrendStarts(trend));
    PartitionWithin(RowBuckets(InnerJoin(reviews, findings), g), TrendStarts(trend));
  }

  lemma DailyCovers(reviews: seq<Review>, findings: seq<Finding>, grid: seq<int>)
    requires DistinctIds(reviews)
    ensures Within(Buckets(reviews, Day), Sorted(grid + TrendStarts(Trend(LeftJoin(reviews, findings), Day))))
  {
    var starts := TrendStarts(Trend(LeftJoin(reviews, findings), Day));
    TrendIsExact(reviews, findings, Day);
    forall i | 0 <= i < |Buckets(reviews, Day)|
      ensures Buckets(reviews, Day)[i] in Sorted(grid + starts)
    {
      assert Buckets(reviews, Day)[i] in starts;
      var b := Buckets(reviews, Day)[i];
      assert b in grid + starts;
    }
  }

  /** Whatever the window, all aggregations of one read agree: the distribution, the severity counts and the weekly
      trend count the same findings, the verdicts and the weekly trend the same reviews, and so does the daily trend
      whenever there is one. */
  lemma Conservation(r: Report, reviews: seq<Review>, findings: seq<Finding>, windowDays: nat, today: int)
    requires DistinctIds(reviews) && Exact(r, reviews, findings, windowDays, today)
    ensures SumBuckets(r.distribution) == Sum(r.findingsBySeverity) == SumFindings(r.weeklyTrend)
    ensures SumReviews(r.weeklyTrend) == Sum(r.verdictDistribution) == r.reviewsTotal
    ensures windowDays <= 30 ==>
            SumFindings(r.dailyTrend) == Sum(r.findingsBySeverity) && SumReviews(r.dailyTrend) == r.reviewsTotal
  {
    var g, rows := GranularityOf(windowDays), InnerJoin(reviews, findings);
    GroupCountExact(Severities(rows), "");
    GroupCountExact(Verdicts(reviews), "");
    StartsCover(reviews, findings, Week);
    TrendConserves(r.weeklyTrend, reviews, findings, Week);
    ObservedCovers(rows, g, GridOf(g, today, windowDays));
    BucketSums(r.distribution, rows, g);
    PartitionWithin(RowBuckets(rows, g), BucketStarts(r.distribution));
    if g.Day? {
      DailyCovers(reviews, findings, InsightsDates.DayGridOf(today, windowDays));
      TrendConserves(r.dailyTrend, reviews, findings, Day);
    }
  }

  // ----- the grid is complete -----

  lemma GridAscends(g: Granularity, today: int, windowDays: nat)
    ensures Ascending(GridOf(g, today, windowDays))
  {
  }

  lemma BucketInGrid(g: Granularity, now: int, windowDays: nat, at: int)
    requires now - windowDays * SECONDS_PER_DAY <= at <= now
    ensures BucketOf(g, at) in GridOf(g, DayOf(now), windowDays)
  {
    var d := DayOf(at);
    assert DayOf(now) - windowDays <= d <= DayOf(now);
    InsightsDates.DayGridExact(DayOf(now), windowDays);
    InsightsDates.WeekGridExact(DayOf(now), windowDays);
  }

  lemma AddsNothing(grid: seq<int>, observed: seq<int>)
    requires Ascending(grid) && Within(observed, grid)
    ensures Sorted(grid + observed) == grid
  {
    var all := grid + observed;
    var starts := Sorted(all);
    forall i | 0 <= i < |starts|
      ensures starts[i] in grid
    {
      var b := starts[i];
      assert b in starts;
      var j :| 0 <= j < |all| && all[j] == b;
      if j >= |grid| {
        assert observed[j - |grid|] in grid;
      }
    }
    forall i | 0 <= i < |grid|
      ensures grid[i] in starts
    {
      var b := grid[i];
      assert all[i] == b && b in all;
    }
    SameMembersSameList(starts, grid);
  }

  lemma ObservedInGrid(rows: seq<JoinRow>, g: Granularity, grid: seq<int>)
    requires Within(RowBuckets(rows, g), grid)
    ensures Within(ObservedStarts(GroupCount(Cells(rows, g))), grid)
  {
    var grouped := GroupCount(Cells(rows, g));
    forall i | 0 <= i < |grouped|
      ensures grouped[i].key.bucket in grid
    {
      GroupedKeys(Cells(rows, g), i);
      var j :| 0 <= j < |rows| && Cells(rows, g)[j] == grouped[i].key;
      assert RowBuckets(rows, g)[j] in grid;
    }
  }

  /** With no review dated after the read, the union with the observed starts adds nothing:
      the buckets are the grid, and on day windows the chart and the trend have the same days. */
  lemma GridIsComplete(r: Report, reviews: seq<Review>, findings: seq<Finding>, windowDays: nat, now: int)
    requires DistinctIds(reviews) && Exact(r, reviews, findings, windowDays, DayOf(now))
    requires forall x | x in reviews :: now - windowDays * SECONDS_PER_DAY <= x.reviewedAt <= now
    ensures BucketStarts(r.distribution) == GridOf(GranularityOf(windowDays), DayOf(now), windowDays)
    ensures windowDays <= 30 ==> TrendStarts(r.dailyTrend) == BucketStarts(r.distribution)
    ensures windowDays <= 30 ==> forall i | 0 <= i < |r.distribution| && i < |r.dailyTrend| ::
              Sum(r.distribution[i].bySeverity) == r.dailyTrend[i].findings
  {
    var g, rows := GranularityOf(windowDays), InnerJoin(reviews, findings);
    var grid := GridOf(g, DayOf(now), windowDays);
    GridAscends(g, DayOf(now), windowDays);
    forall i | 0 <= i < |reviews|
      ensures Buckets(reviews, g)[i] in grid
    {
      BucketInGrid(g, now, windowDays, reviews[i].reviewedAt);
    }
    FindingsWithin(reviews, findings, g, grid);
    ObservedInGrid(rows, g, grid);
    AddsNothing(grid, ObservedStarts(GroupCount(Cells(rows, g))));
    if g.Day? {
      DailyStartsInGrid(reviews, findings, grid);
      forall i | 0 <= i < |r.distribution| && i < |r.dailyTrend|
        ensures Sum(r.distribution[i].bySeverity) == r.dailyTrend[i].findings
      {
        assert TrendStarts(r.dailyTrend)[i] == BucketStarts(r.distribution)[i];
      }
    }
  }

  lemma DailyStartsInGrid(reviews: seq<Review>, findings: seq<Finding>, grid: seq<int>)
    requires DistinctIds(reviews) && Ascending(grid) && Within(Buckets(reviews, Day), grid)
    ensures Sorted(grid + TrendStarts(Trend(LeftJoin(reviews, findings), Day))) == grid
  {
    TrendIsExact(reviews, findings, Day);
    var starts := TrendStarts(Trend(LeftJoin(reviews, findings), Day));
    forall i | 0 <= i < |starts|
      ensures starts[i] in grid
    {
      assert starts[i] in Buckets(reviews, Day);
      var j :| 0 <= j < |reviews| && Buckets(reviews, Day)[j] == starts[i];
      assert Buckets(reviews, Day)[j] in grid;
    }
    AddsNothing(grid, starts);
  }
}
