/** The insights aggregation over one snapshot of reviews and findings. Times are seconds since 1970-01-01 UTC. */
module Insights {
  import opened Prelude
  import opened Ordered
  import InsightsDates

  type ReviewId = string

  datatype Review = Review(
    id: ReviewId, owner: string, repo: string, appId: Option<string>, reviewedAt: int, verdict: string, v1: bool)
  datatype Finding = Finding(reviewId: ReviewId, severity: string)
  datatype Query = Query(windowDays: Option<nat>, repo: Option<(string, string)>, appId: Option<string>)
  datatype Granularity = Day | Week

  const SECONDS_PER_DAY := 86400
  const FINDING_SEVERITIES := ["must-fix", "should-fix", "may-fix", "nit"]

  function ClampWindow(windowDays: Option<nat>): nat {
    if windowDays.None? then 30 else if windowDays.value < 90 then windowDays.value else 90
  }

  function GranularityOf(windowDays: nat): Granularity { if windowDays > 30 then Week else Day }

  function DayOf(seconds: int): int { seconds / SECONDS_PER_DAY }

  /** The bucket expression, for a review's time. */
  function BucketOf(g: Granularity, seconds: int): int {
    if g.Week? then InsightsDates.MondayOf(DayOf(seconds)) else DayOf(seconds)
  }

  // ----- the rows every query reads -----

  predicate Matches(r: Review, q: Query, now: int) {
    && (q.repo.Some? ==> r.owner == q.repo.value.0 && r.repo == q.repo.value.1)
    && (q.appId.Some? ==> r.appId == q.appId)
    && r.reviewedAt >= now - ClampWindow(q.windowDays) * SECONDS_PER_DAY && r.v1
  }

  function Where(reviews: seq<Review>, q: Query, now: int): seq<Review> {
    if reviews == [] then []
    else
      Where(reviews[..|reviews| - 1], q, now)
      + (if Matches(reviews[|reviews| - 1], q, now) then [reviews[|reviews| - 1]] else [])
  }

  function FindingsOf(findings: seq<Finding>, id: ReviewId): seq<Finding> {
    if findings == [] then []
    else
      FindingsOf(findings[..|findings| - 1], id)
      + (if findings[|findings| - 1].reviewId == id then [findings[|findings| - 1]] else [])
  }

  datatype JoinRow = JoinRow(review: Review, finding: Option<Finding>)

  function Pair(r: Review, own: seq<Finding>): seq<JoinRow> {
    seq(|own|, i requires 0 <= i < |own| => JoinRow(r, Some(own[i])))
  }

  function InnerJoin(reviews: seq<Review>, findings: seq<Finding>): seq<JoinRow> {
    if reviews == [] then []
    else
      var last := reviews[|reviews| - 1];
      InnerJoin(reviews[..|reviews| - 1], findings) + Pair(last, FindingsOf(findings, last.id))
  }

  /** A review without findings contributes one row of its own. */
  function LeftJoin(reviews: seq<Review>, findings: seq<Finding>): seq<JoinRow> {
    if reviews == [] then []
    else
      var last := reviews[|reviews| - 1];
      var own := FindingsOf(findings, last.id);
      LeftJoin(reviews[..|reviews| - 1], findings) + (if own == [] then [JoinRow(last, None)] else Pair(last, own))
  }

  // ----- group by -----

  datatype Count<K> = Count(key: K, count: nat)

  /** Adds to the key's entry, or appends one: what `m[k] = (m[k] ?? 0) + n` does to an object. */
  function Add<K(==)>(t: seq<Count<K>>, k: K, n: nat): seq<Count<K>> {
    if t == [] then [Count(k, n)]
    else if t[0].key == k then [Count(k, t[0].count + n)] + t[1..]
    else [t[0]] + Add(t[1..], k, n)
  }

  function GroupCount<K(==)>(keys: seq<K>): seq<Count<K>> {
    if keys == [] then [] else Add(GroupCount(keys[..|keys| - 1]), keys[|keys| - 1], 1)
  }

  function Get<K(==)>(t: seq<Count<K>>, k: K): nat {
    if t == [] then 0 else if t[0].key == k then t[0].count else Get(t[1..], k)
  }

  function Sum<K>(t: seq<Count<K>>): nat { if t == [] then 0 else t[0].count + Sum(t[1..]) }

  lemma {:induction false} AddEffect<K>(t: seq<Count<K>>, k: K, n: nat, j: K)
    ensures Get(Add(t, k, n), j) == Get(t, j) + (if j == k then n else 0)
    ensures Sum(Add(t, k, n)) == Sum(t) + n
  {
    if t == [] {
      assert Add(t, k, n)[1..] == [];
    } else {
      assert Add(t, k, n)[1..] == if t[0].key == k then t[1..] else Add(t[1..], k, n);
      AddEffect(t[1..], k, n, j);
    }
  }

  /** Counting rows per key: each key's count, and all of them together. */
  lemma {:induction false} GroupCountExact<K>(keys: seq<K>, k: K)
    ensures Get(GroupCount(keys), k) == multiset(keys)[k]
    ensures Sum(GroupCount(keys)) == |keys|
  {
    if keys != [] {
      var front, last := keys[..|keys| - 1], keys[|keys| - 1];
      GroupCountExact(front, k);
      AddEffect(GroupCount(front), last, 1, k);
      assert keys == front + [last];
    }
  }

  // ----- the five queries -----

  datatype Cell = Cell(bucket: int, severity: string)

  function Buckets(reviews: seq<Review>, g: Granularity): seq<int> {
    seq(|reviews|, i requires 0 <= i < |reviews| => BucketOf(g, reviews[i].reviewedAt))
  }

  function Verdicts(reviews: seq<Review>): seq<string> {
    seq(|reviews|, i requires 0 <= i < |reviews| => reviews[i].verdict)
  }

  function Severities(rows: seq<JoinRow>): seq<string> {
    seq(|rows|, i requires 0 <= i < |rows| => if rows[i].finding.Some? then rows[i].finding.value.severity else "")
  }

  function RowBuckets(rows: seq<JoinRow>, g: Granularity): seq<int> {
    seq(|rows|, i requires 0 <= i < |rows| => BucketOf(g, rows[i].review.reviewedAt))
  }

  function Cells(rows: seq<JoinRow>, g: Granularity): seq<Cell> {
    seq(|rows|, i requires 0 <= i < |rows| => Cell(RowBuckets(rows, g)[i], Severities(rows)[i]))
  }

  datatype TrendRow = TrendRow(start: int, reviews: nat, findings: nat)

  /** COUNT(DISTINCT r.id) over the group. */
  function DistinctReviews(rows: seq<JoinRow>, g: Granularity, b: int): set<ReviewId> {
    set row | row in rows && BucketOf(g, row.review.reviewedAt) == b :: row.review.id
  }

  /** COUNT(f.id) over the group: NULLs do not count. */
  function FindingCount(rows: seq<JoinRow>, g: Granularity, b: int): nat {
    if rows == [] then 0
    else
      var last := rows[|rows| - 1];
      FindingCount(rows[..|rows| - 1], g, b)
        + (if BucketOf(g, last.review.reviewedAt) == b && last.finding.Some? then 1 else 0)
  }

  function Trend(rows: seq<JoinRow>, g: Granularity): seq<TrendRow> {
    var starts := Sorted(RowBuckets(rows, g));
    seq(|starts|, i requires 0 <= i < |starts| =>
      TrendRow(starts[i], |DistinctReviews(rows, g, starts[i])|, FindingCount(rows, g, starts[i])))
  }

  // ----- the left join counts what the plain rows count -----

  function ReviewIds(reviews: seq<Review>): seq<ReviewId> {
    seq(|reviews|, i requires 0 <= i < |reviews| => reviews[i].id)
  }

  predicate DistinctIds(reviews: seq<Review>) { Distinct(ReviewIds(reviews)) }

  lemma {:induction false} LeftJoinReviews(reviews: seq<Review>, findings: seq<Finding>, row: JoinRow)
    requires row in LeftJoin(reviews, findings)
    ensures row.review in reviews
  {
    if row in LeftJoin(reviews[..|reviews| - 1], findings) {
      LeftJoinReviews(reviews[..|reviews| - 1], findings, row);
    }
  }

  lemma {:induction false} FindingCountConcat(a: seq<JoinRow>, b: seq<JoinRow>, g: Granularity, start: int)
    ensures FindingCount(a + b, g, start) == FindingCount(a, g, start) + FindingCount(b, g, start)
  {
    if b == [] {
      assert a + b == a;
    } else {
      assert (a + b)[..|a + b| - 1] == a + b[..|b| - 1];
      FindingCountConcat(a, b[..|b| - 1], g, start);
    }
  }

  lemma {:induction false} AllFound(rows: seq<JoinRow>, g: Granularity, b: int)
    requires forall row | row in rows :: row.finding.Some?
    ensures FindingCount(rows, g, b) == multiset(RowBuckets(rows, g))[b]
  {
    if rows != [] {
      var front, last := rows[..|rows| - 1], rows[|rows| - 1];
      AllFound(front, g, b);
      assert RowBuckets(rows, g) == RowBuckets(front, g) + [BucketOf(g, last.review.reviewedAt)];
    }
  }

  lemma LeftStepFindings(before: seq<JoinRow>, r: Review, own: seq<Finding>, g: Granularity, b: int)
    ensures FindingCount(before + (if own == [] then [JoinRow(r, None)] else Pair(r, own)), g, b) ==
            FindingCount(before, g, b) + multiset(RowBuckets(Pair(r, own), g))[b]
  {
    FindingCountConcat(before, if own == [] then [JoinRow(r, None)] else Pair(r, own), g, b);
    AllFound(Pair(r, own), g, b);
    assert own == [] ==> FindingCount([JoinRow(r, None)], g, b) == 0;
  }

  /** COUNT(f.id) of the left join is the number of inner-join rows in the bucket. */
  lemma {:induction false} LeftJoinFindings(reviews: seq<Review>, findings: seq<Finding>, g: Granularity, b: int)
    ensures FindingCount(LeftJoin(reviews, findings), g, b) == multiset(RowBuckets(InnerJoin(reviews, findings), g))[b]
  {
    if reviews != [] {
      var front, last := reviews[..|reviews| - 1], reviews[|reviews| - 1];
      var own := FindingsOf(findings, last.id);
      LeftJoinFindings(front, findings, g, b);
      LeftStepFindings(LeftJoin(front, findings), last, own, g, b);
      assert RowBuckets(InnerJoin(reviews, findings), g) ==
             RowBuckets(InnerJoin(front, findings), g) + RowBuckets(Pair(last, own), g);
    }
  }

  lemma LeftStepReviews(before: seq<JoinRow>, r: Review, own: seq<Finding>, g: Granularity, b: int)
    ensures DistinctReviews(before + (if own == [] then [JoinRow(r, None)] else Pair(r, own)), g, b) ==
            DistinctReviews(before, g, b) + (if BucketOf(g, r.reviewedAt) == b then {r.id} else {})
  {
    var added := if own == [] then [JoinRow(r, None)] else Pair(r, own);
    assert added[0] in added && added[0].review == r;
    assert forall row | row in added :: row.review == r;
    assert forall row | row in added :: row in before + added;
    assert forall row | row in before :: row in before + added;
  }

  lemma IdNotYetSeen(reviews: seq<Review>, findings: seq<Finding>, r: Review, g: Granularity, b: int)
    requires forall x | x in reviews :: x.id != r.id
    ensures r.id !in DistinctReviews(LeftJoin(reviews, findings), g, b)
  {
  }

  lemma ReviewsApart(reviews: seq<Review>)
    ensures DistinctIds(reviews) <==> forall i, j | 0 <= i < j < |reviews| :: reviews[i].id != reviews[j].id
  {
    var ids := ReviewIds(reviews);
    if DistinctIds(reviews) {
      forall i, j | 0 <= i < j < |reviews|
        ensures reviews[i].id != reviews[j].id
      {
        assert ids[i] != ids[j];
      }
    }
  }

  lemma DistinctFront(reviews: seq<Review>)
    requires DistinctIds(reviews) && reviews != []
    ensures DistinctIds(reviews[..|reviews| - 1])
    ensures forall x | x in reviews[..|reviews| - 1] :: x.id != reviews[|reviews| - 1].id
  {
    ReviewsApart(reviews);
    ReviewsApart(reviews[..|reviews| - 1]);
  }

  lemma BucketsStep(front: seq<Review>, last: Review, g: Granularity)
    ensures Buckets(front + [last], g) == Buckets(front, g) + [BucketOf(g, last.reviewedAt)]
  {
  }

  lemma NothingJoined(findings: seq<Finding>, g: Granularity, b: int)
    ensures DistinctReviews(LeftJoin([], findings), g, b) == {} && Buckets([], g) == []
  {
  }

  /** COUNT(DISTINCT r.id) of the left join is the number of reviews in the bucket. */
  lemma {:induction false} LeftJoinCounts(reviews: seq<Review>, findings: seq<Finding>, g: Granularity, b: int)
    requires DistinctIds(reviews)
    ensures |DistinctReviews(LeftJoin(reviews, findings), g, b)| == multiset(Buckets(reviews, g))[b]
  {
    hide DistinctIds, DistinctReviews, Buckets, FindingsOf, Pair;
    if reviews == [] {
      NothingJoined(findings, g, b);
    } else {
      var front, last := reviews[..|reviews| - 1], reviews[|reviews| - 1];
      DistinctFront(reviews);
      LeftJoinCounts(front, findings, g, b);
      var before := LeftJoin(front, findings);
      LeftStepReviews(before, last, FindingsOf(findings, last.id), g, b);
      IdNotYetSeen(front, findings, last, g, b);
      BucketsStep(front, last, g);
      assert reviews == front + [last];
      OneMoreId(DistinctReviews(before, g, b), last.id, multiset(Buckets(front, g))[b],
                BucketOf(g, last.reviewedAt) == b);
    }
  }

  lemma OneMoreId(ids: set<ReviewId>, id: ReviewId, n: nat, here: bool)
    requires id !in ids && |ids| == n
    ensures |ids + (if here then {id} else {})| == if here then n + 1 else n
  {
  }

  lemma OneReviewsBuckets(before: seq<JoinRow>, added: seq<JoinRow>, r: Review, g: Granularity, b: int)
    requires added != [] && forall row | row in added :: row.review == r
    ensures b in RowBuckets(before + added, g) <==> b in RowBuckets(before, g) || b == BucketOf(g, r.reviewedAt)
  {
    var own := RowBuckets(added, g);
    assert RowBuckets(before + added, g) == RowBuckets(before, g) + own;
    forall i | 0 <= i < |own|
      ensures own[i] == BucketOf(g, r.reviewedAt)
    {
      assert added[i] in added;
    }
    assert own[0] in own;
  }

  lemma {:induction false} LeftJoinBuckets(reviews: seq<Review>, findings: seq<Finding>, g: Granularity, b: int)
    ensures b in RowBuckets(LeftJoin(reviews, findings), g) <==> b in Buckets(reviews, g)
  {
    if reviews != [] {
      var front, last := reviews[..|reviews| - 1], reviews[|reviews| - 1];
      var own := FindingsOf(findings, last.id);
      var added := if own == [] then [JoinRow(last, None)] else Pair(last, own);
      LeftJoinBuckets(front, findings, g, b);
      assert LeftJoin(reviews, findings) == LeftJoin(front, findings) + added;
      OneReviewsBuckets(LeftJoin(front, findings), added, last, g, b);
      assert Buckets(reviews, g) == Buckets(front, g) + [BucketOf(g, last.reviewedAt)];
    }
  }
}
