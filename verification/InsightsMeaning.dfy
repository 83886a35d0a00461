/** What the numbers of a report count, told by the stored rows alone. */
module InsightsMeaning {
  import opened Prelude
  import opened Insights
  import opened InsightsStore

  // ----- which reviews are read -----

  /** A review counts when it is of the current envelope, of the repository and app asked for, and no older than the
      window: 30 days by default, 90 at most. */
  lemma ReviewsRead(reviews: seq<Review>, q: Query, now: int, r: Review)
    ensures var days := if q.windowDays.None? then 30 else if q.windowDays.value > 90 then 90 else q.windowDays.value;
            r in Where(reviews, q, now) <==>
              && r in reviews && r.v1 && r.reviewedAt >= now - 86400 * days
              && (q.repo.Some? ==> (r.owner, r.repo) == q.repo.value)
              && (q.appId.Some? ==> r.appId.Some? && r.appId.value == q.appId.value)
  {
    WhereMatches(reviews, q, now, r);
  }

  /** A day bucket holds one day's seconds, a week bucket the seven days from a Monday; day 4 was one. */
  lemma BucketHolds(g: Granularity, seconds: int, b: int)
    ensures BucketOf(g, seconds) == b <==>
            if g.Day? then 86400 * b <= seconds < 86400 * (b + 1)
            else b % 7 == 4 && 86400 * b <= seconds < 86400 * (b + 7)
  {
    var d := seconds / 86400;
    assert 86400 * d <= seconds < 86400 * d + 86400;
  }

  /** Up to 30 days are shown by day, more by week. */
  lemma WindowsByDay(windowDays: nat)
    ensures GranularityOf(windowDays) == if windowDays <= 30 then Day else Week
  {
  }

  // ----- counting positions -----

  ghost function Positions<K>(keys: seq<K>, k: K): set<int> { set i | 0 <= i < |keys| && keys[i] == k }

  /** How often a value occurs is at how many positions it stands. */
  lemma {:induction false} OccursAt<K>(keys: seq<K>, k: K)
    ensures multiset(keys)[k] == |Positions(keys, k)|
  {
    var at := Positions(keys, k);
    if keys == [] {
      assert at == {};
    } else {
      var n := |keys| - 1;
      OccursAt(keys[..n], k);
      assert keys == keys[..n] + [keys[n]];
      assert at == Positions(keys[..n], k) + (if keys[n] == k then {n} else {});
    }
  }

  // ----- the findings of the reviews that are read -----

  type Test = (Review, Finding) -> bool

  /** The positions of the findings that belong to one of the reviews and pass the test with it. */
  ghost function Found(reviews: seq<Review>, findings: seq<Finding>, test: Test): set<int> {
    set j | 0 <= j < |findings| && exists r :: r in reviews && r.id == findings[j].reviewId && test(r, findings[j])
  }

  function RowCount(rows: seq<JoinRow>, test: Test): nat {
    if rows == [] then 0
    else
      var last := rows[|rows| - 1];
      RowCount(rows[..|rows| - 1], test)
        + (if last.finding.Some? && test(last.review, last.finding.value) then 1 else 0)
  }

  lemma {:induction false} RowCountConcat(a: seq<JoinRow>, b: seq<JoinRow>, test: Test)
    ensures RowCount(a + b, test) == RowCount(a, test) + RowCount(b, test)
  {
    if b == [] {
      assert a + b == a;
    } else {
      assert (a + b)[..|a + b| - 1] == a + b[..|b| - 1];
      RowCountConcat(a, b[..|b| - 1], test);
    }
  }

  ghost function OwnAt(r: Review, findings: seq<Finding>, test: Test): set<int> {
    set j | 0 <= j < |findings| && findings[j].reviewId == r.id && test(r, findings[j])
  }

  lemma OneMoreFinding(r: Review, front: seq<Finding>, last: Finding, test: Test)
    ensures |OwnAt(r, front + [last], test)| ==
            |OwnAt(r, front, test)| + if last.reviewId == r.id && test(r, last) then 1 else 0
  {
    var n := |front|;
    assert OwnAt(r, front + [last], test) ==
           OwnAt(r, front, test) + (if last.reviewId == r.id && test(r, last) then {n} else {});
    assert n !in OwnAt(r, front, test);
  }

  lemma OneMorePair(r: Review, kept: seq<Finding>, last: Finding, test: Test)
    ensures RowCount(Pair(r, kept + [last]), test) == RowCount(Pair(r, kept), test) + if test(r, last) then 1 else 0
  {
    var row := JoinRow(r, Some(last));
    assert Pair(r, kept + [last]) == Pair(r, kept) + [row];
    assert (Pair(r, kept) + [row])[..|kept|] == Pair(r, kept);
  }

  lemma {:induction false} OwnFindings(r: Review, findings: seq<Finding>, test: Test)
    ensures RowCount(Pair(r, FindingsOf(findings, r.id)), test) == |OwnAt(r, findings, test)|
  {
    hide OwnAt, Pair, RowCount;
    if findings == [] {
      NothingOwned(r, test);
    } else {
      var front, last := findings[..|findings| - 1], findings[|findings| - 1];
      OwnFindings(r, front, test);
      assert findings == front + [last];
      OneMoreFinding(r, front, last, test);
      var kept := FindingsOf(front, r.id);
      if last.reviewId == r.id {
        OneMorePair(r, kept, last, test);
      } else {
        assert kept + [] == kept;
      }
    }
  }

  lemma NothingOwned(r: Review, test: Test)
    ensures RowCount(Pair(r, FindingsOf([], r.id)), test) == |OwnAt(r, [], test)|
  {
    assert OwnAt(r, [], test) == {};
  }

  /** The joined rows that pass a test are as many as the findings that pass it with their review. */
  lemma {:induction false} JoinCounts(reviews: seq<Review>, findings: seq<Finding>, test: Test)
    requires DistinctIds(reviews)
    ensures RowCount(InnerJoin(reviews, findings), test) == |Found(reviews, findings, test)|
  {
    if reviews == [] {
      assert Found(reviews, findings, test) == {};
    } else {
      var front, last := reviews[..|reviews| - 1], reviews[|reviews| - 1];
      DistinctFront(reviews);
      JoinCounts(front, findings, test);
      OwnFindings(last, findings, test);
      RowCountConcat(InnerJoin(front, findings), Pair(last, FindingsOf(findings, last.id)), test);
      var own := OwnAt(last, findings, test);
      assert reviews == front + [last];
      assert Found(reviews, findings, test) == Found(front, findings, test) + own;
      assert Found(front, findings, test) !! own;
    }
  }

  function InBucket(g: Granularity, b: int): Test { (r: Review, f: Finding) => BucketOf(g, r.reviewedAt) == b }
  function OfSeverity(s: string): Test { (r: Review, f: Finding) => f.severity == s }
  function InCell(g: Granularity, b: int, s: string): Test {
    (r: Review, f: Finding) => BucketOf(g, r.reviewedAt) == b && f.severity == s
  }

  lemma KeysStep(front: seq<JoinRow>, last: JoinRow, g: Granularity)
    requires last.finding.Some?
    ensures RowBuckets(front + [last], g) == RowBuckets(front, g) + [BucketOf(g, last.review.reviewedAt)]
    ensures Severities(front + [last]) == Severities(front) + [last.finding.value.severity]
    ensures Cells(front + [last], g) ==
            Cells(front, g) + [Cell(BucketOf(g, last.review.reviewedAt), last.finding.value.severity)]
  {
    var bs, ss := RowBuckets(front + [last], g), Severities(front + [last]);
    assert bs == RowBuckets(front, g) + [BucketOf(g, last.review.reviewedAt)];
    assert ss == Severities(front) + [last.finding.value.severity];
  }

  /** The keys a query groups by occur as often as rows pass the test for that key. */
  lemma {:induction false} KeysCountRows(rows: seq<JoinRow>, g: Granularity, b: int, s: string)
    requires forall row | row in rows :: row.finding.Some?
    ensures multiset(RowBuckets(rows, g))[b] == RowCount(rows, InBucket(g, b))
    ensures multiset(Severities(rows))[s] == RowCount(rows, OfSeverity(s))
    ensures multiset(Cells(rows, g))[Cell(b, s)] == RowCount(rows, InCell(g, b, s))
  {
    hide BucketOf, RowBuckets, Severities, Cells;
    if rows == [] {
      NoKeys(g);
    } else {
      var front, last := rows[..|rows| - 1], rows[|rows| - 1];
      assert rows == front + [last];
      KeysCountRows(front, g, b, s);
      KeysStep(front, last, g);
    }
  }

  lemma NoKeys(g: Granularity)
    ensures RowBuckets([], g) == [] && Severities([]) == [] && Cells([], g) == []
  {
  }

  lemma AllJoined(reviews: seq<Review>, findings: seq<Finding>)
    ensures forall row | row in InnerJoin(reviews, findings) :: row.finding.Some?
  {
    forall row | row in InnerJoin(reviews, findings)
      ensures row.finding.Some?
    {
      InnerRows(reviews, findings, row);
    }
  }

  // ----- the report -----

  ghost function WithVerdict(reviews: seq<Review>, v: string): set<int> {
    set i | 0 <= i < |reviews| && reviews[i].verdict == v
  }

  ghost function ReviewedIn(reviews: seq<Review>, g: Granularity, b: int): set<int> {
    set i | 0 <= i < |reviews| && BucketOf(g, reviews[i].reviewedAt) == b
  }

  lemma VerdictsCount(reviews: seq<Review>, v: string)
    ensures Get(GroupCount(Verdicts(reviews)), v) == |WithVerdict(reviews, v)|
  {
    hide GroupCount, Get;
    var keys := Verdicts(reviews);
    GroupCountExact(keys, v);
    OccursAt(keys, v);
    assert WithVerdict(reviews, v) == Positions(keys, v);
  }

  lemma SeveritiesCount(reviews: seq<Review>, findings: seq<Finding>, s: string)
    requires DistinctIds(reviews)
    ensures Get(GroupCount(Severities(InnerJoin(reviews, findings))), s) == |Found(reviews, findings, OfSeverity(s))|
  {
    hide *;
    var rows := InnerJoin(reviews, findings);
    GroupCountExact(Severities(rows), s);
    AllJoined(reviews, findings);
    KeysCountRows(rows, Day, 0, s);
    JoinCounts(reviews, findings, OfSeverity(s));
  }

  lemma ReviewBucketsCount(reviews: seq<Review>, g: Granularity, b: int)
    ensures multiset(Buckets(reviews, g))[b] == |ReviewedIn(reviews, g, b)|
  {
    hide BucketOf;
    var keys := Buckets(reviews, g);
    OccursAt(keys, b);
    assert ReviewedIn(reviews, g, b) == Positions(keys, b);
  }

  lemma FindingBucketsCount(reviews: seq<Review>, findings: seq<Finding>, g: Granularity, b: int, s: string)
    requires DistinctIds(reviews)
    ensures multiset(RowBuckets(InnerJoin(reviews, findings), g))[b] == |Found(reviews, findings, InBucket(g, b))|
    ensures multiset(Cells(InnerJoin(reviews, findings), g))[Cell(b, s)] == |Found(reviews, findings, InCell(g, b, s))|
  {
    hide *;
    AllJoined(reviews, findings);
    KeysCountRows(InnerJoin(reviews, findings), g, b, s);
    JoinCounts(reviews, findings, InBucket(g, b));
    JoinCounts(reviews, findings, InCell(g, b, s));
  }

  /** Each number of the report is a number of rows: reviews by verdict and by bucket, and findings of those reviews by
      severity and by bucket. */
  lemma NumbersCountRows(r: Report, reviews: seq<Review>, findings: seq<Finding>, windowDays: nat, today: int)
    requires DistinctIds(reviews) && Exact(r, reviews, findings, windowDays, today)
    ensures r.reviewsTotal == |reviews|
    ensures forall v :: Get(r.verdictDistribution, v) == |WithVerdict(reviews, v)|
    ensures forall s :: Get(r.findingsBySeverity, s) == |Found(reviews, findings, OfSeverity(s))|
    ensures forall row | row in r.weeklyTrend ::
              row.reviews == |ReviewedIn(reviews, Week, row.start)|
              && row.findings == |Found(reviews, findings, InBucket(Week, row.start))|
    ensures forall row | row in r.dailyTrend ::
              row.reviews == |ReviewedIn(reviews, Day, row.start)|
              && row.findings == |Found(reviews, findings, InBucket(Day, row.start))|
    ensures var g := if windowDays <= 30 then Day else Week;
            forall d, s | d in r.distribution ::
              Get(d.bySeverity, s) == |Found(reviews, findings, InCell(g, d.start, s))|
  {
    hide GroupCount, Get, Verdicts, Severities, Found, WithVerdict, ReviewedIn, InnerJoin, RowBuckets, Cells, BucketOf,
      Buckets, DistinctIds;
    forall v
      ensures Get(r.verdictDistribution, v) == |WithVerdict(reviews, v)|
    {
      VerdictsCount(reviews, v);
    }
    forall s
      ensures Get(r.findingsBySeverity, s) == |Found(reviews, findings, OfSeverity(s))|
    {
      SeveritiesCount(reviews, findings, s);
    }
    TrendCounts(r.weeklyTrend, reviews, findings, Week);
    if r.dailyTrend != [] {
      TrendCounts(r.dailyTrend, reviews, findings, Day);
    }
    DistributionCounts(r.distribution, reviews, findings, if windowDays <= 30 then Day else Week);
  }

  lemma TrendCounts(trend: seq<TrendRow>, reviews: seq<Review>, findings: seq<Finding>, g: Granularity)
    requires DistinctIds(reviews) && TrendExact(trend, reviews, InnerJoin(reviews, findings), g)
    ensures forall row | row in trend ::
              row.reviews == |ReviewedIn(reviews, g, row.start)|
              && row.findings == |Found(reviews, findings, InBucket(g, row.start))|
  {
    hide Found, ReviewedIn, InnerJoin, RowBuckets, Buckets, DistinctIds;
    forall row | row in trend
      ensures row.reviews == |ReviewedIn(reviews, g, row.start)|
              && row.findings == |Found(reviews, findings, InBucket(g, row.start))|
    {
      var i :| 0 <= i < |trend| && trend[i] == row;
      ReviewBucketsCount(reviews, g, row.start);
      FindingBucketsCount(reviews, findings, g, row.start, "");
    }
  }

  lemma DistributionCounts(distribution: seq<Bucket>, reviews: seq<Review>, findings: seq<Finding>, g: Granularity)
    requires DistinctIds(reviews) && DistributionExact(distribution, InnerJoin(reviews, findings), g)
    ensures forall d, s | d in distribution :: Get(d.bySeverity, s) == |Found(reviews, findings, InCell(g, d.start, s))|
  {
    hide Found, InnerJoin, Cells, RowBuckets, DistinctIds;
    forall d, s | d in distribution
      ensures Get(d.bySeverity, s) == |Found(reviews, findings, InCell(g, d.start, s))|
    {
      var i :| 0 <= i < |distribution| && distribution[i] == d;
      FindingBucketsCount(reviews, findings, g, d.start, s);
    }
  }
}
