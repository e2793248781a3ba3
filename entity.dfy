/** The domain entities of domain/entity/pull_request.go: a pull request with
    its lifecycle timestamps, and the three latencies derived from it. */
module Entity {
  import opened Wrappers

  /** A `time.Time`, as nanoseconds since the Unix epoch. */
  type Time = int

  /** The range of a `time.Duration`, a signed 64-bit count of nanoseconds. */
  const MinDuration: int := -0x8000_0000_0000_0000
  const MaxDuration: int := 0x7FFF_FFFF_FFFF_FFFF

  type Duration = d: int | MinDuration <= d <= MaxDuration

  /** `t.Format(layout)`: how an instant is rendered is the `time` package's
      business, so the model takes it as a parameter. */
  type TimeFormat = (Time, string) -> string

  const Minute: int := 60_000_000_000
  const Hour: int := 60 * Minute
  const Day: int := 24 * Hour

  /** `t.Sub(u)`: the elapsed time from `u` to `t`, saturated at the bounds of
      a `time.Duration` as the Go library documents. */
  function Sub(t: Time, u: Time): Duration {
    var d := t - u;
    if d > MaxDuration then MaxDuration else if d < MinDuration then MinDuration else d
  }

  /** Saturation keeps the sign and the order of elapsed times. */
  lemma SubOrder(t: Time, t': Time, u: Time)
    requires t <= t'
    ensures Sub(t, u) <= Sub(t', u)
    ensures Sub(t, u) < 0 <==> t < u
    ensures Sub(t, u) == 0 <==> t == u
  {
  }

  /** A pull request once the client has enriched it. Optional timestamps are
      `None` where the Go struct holds a nil pointer. */
  datatype PullRequest = PullRequest(
    id: int,
    number: int,
    title: string,
    author: string,
    state: string,
    createdAt: Time,
    mergedAt: Option<Time>,
    closedAt: Option<Time>,
    firstReviewRequestAt: Option<Time>,
    firstReviewAt: Option<Time>,
    firstApproveAt: Option<Time>,
    reviewDuration: Option<Duration>)

  /** The latencies of one pull request, measured from its baseline. */
  datatype ReviewMetrics = ReviewMetrics(
    pullRequest: PullRequest,
    timeToReview: Option<Duration>,
    timeToApprove: Option<Duration>,
    totalDuration: Option<Duration>)

  /** The instant every latency is measured from: the first review request
      when there is one, else the creation of the pull request. */
  function Baseline(pr: PullRequest): (b: Time)
    ensures pr.firstReviewRequestAt.Some? ==> b == pr.firstReviewRequestAt.value
    ensures pr.firstReviewRequestAt.None? ==> b == pr.createdAt
  {
    if pr.firstReviewRequestAt.Some? then pr.firstReviewRequestAt.value else pr.createdAt
  }

  /** `(*PullRequest).CalculateMetrics`: each latency is present exactly when
      its terminal timestamp is, and is then the time elapsed from the
      baseline, unclamped (negative when the terminal instant comes first).
      The total duration runs to the merge, or to the close when unmerged. */
  function CalculateMetrics(pr: PullRequest): (m: ReviewMetrics)
    ensures m.pullRequest == pr
    ensures m.timeToReview.Some? <==> pr.firstReviewAt.Some?
    ensures m.timeToReview.Some? ==> m.timeToReview.value == Sub(pr.firstReviewAt.value, Baseline(pr))
    ensures m.timeToApprove.Some? <==> pr.firstApproveAt.Some?
    ensures m.timeToApprove.Some? ==> m.timeToApprove.value == Sub(pr.firstApproveAt.value, Baseline(pr))
    ensures m.totalDuration.Some? <==> pr.mergedAt.Some? || pr.closedAt.Some?
    ensures pr.mergedAt.Some? ==> m.totalDuration == Some(Sub(pr.mergedAt.value, Baseline(pr)))
    ensures pr.mergedAt.None? && pr.closedAt.Some? ==> m.totalDuration == Some(Sub(pr.closedAt.value, Baseline(pr)))
  {
    var baseTime := if pr.firstReviewRequestAt.Some? then pr.firstReviewRequestAt.value else pr.createdAt;
    ReviewMetrics(
      pr,
      if pr.firstReviewAt.Some? then Some(Sub(pr.firstReviewAt.value, baseTime)) else None,
      if pr.firstApproveAt.Some? then Some(Sub(pr.firstApproveAt.value, baseTime)) else None,
      if pr.mergedAt.Some? then Some(Sub(pr.mergedAt.value, baseTime))
      else if pr.closedAt.Some? then Some(Sub(pr.closedAt.value, baseTime))
      else None)
  }

  /** When every timestamp lies within 2^62 ns (about 146 years) of the
      creation time, no latency saturates: each is the exact difference
      between its terminal instant and the baseline. */
  lemma MetricsAreExactDifferences(pr: PullRequest)
    requires forall t :: t in Instants(pr) ==> -0x4000_0000_0000_0000 <= t - pr.createdAt <= 0x3FFF_FFFF_FFFF_FFFF
    ensures var m, b := CalculateMetrics(pr), Baseline(pr);
      && (m.timeToReview.Some? ==> m.timeToReview.value == pr.firstReviewAt.value - b)
      && (m.timeToApprove.Some? ==> m.timeToApprove.value == pr.firstApproveAt.value - b)
      && (m.totalDuration.Some? ==> m.totalDuration.value == (if pr.mergedAt.Some? then pr.mergedAt.value else pr.closedAt.value) - b)
  {
    var b := Baseline(pr);
    assert b in Instants(pr);
    if pr.firstReviewAt.Some? { assert pr.firstReviewAt.value in Instants(pr); }
    if pr.firstApproveAt.Some? { assert pr.firstApproveAt.value in Instants(pr); }
    if pr.mergedAt.Some? { assert pr.mergedAt.value in Instants(pr); }
    if pr.closedAt.Some? { assert pr.closedAt.value in Instants(pr); }
  }

  /** Every timestamp a pull request carries. */
  function Instants(pr: PullRequest): set<Time> {
    {pr.createdAt}
    + (if pr.mergedAt.Some? then {pr.mergedAt.value} else {})
    + (if pr.closedAt.Some? then {pr.closedAt.value} else {})
    + (if pr.firstReviewRequestAt.Some? then {pr.firstReviewRequestAt.value} else {})
    + (if pr.firstReviewAt.Some? then {pr.firstReviewAt.value} else {})
    + (if pr.firstApproveAt.Some? then {pr.firstApproveAt.value} else {})
  }

  /** A latency is negative exactly when its terminal instant precedes the
      baseline: nothing is clamped at zero. */
  lemma MetricsSign(pr: PullRequest)
    ensures var m, b := CalculateMetrics(pr), Baseline(pr);
      && (m.timeToReview.Some? ==> (m.timeToReview.value < 0 <==> pr.firstReviewAt.value < b))
      && (m.timeToApprove.Some? ==> (m.timeToApprove.value < 0 <==> pr.firstApproveAt.value < b))
  {
  }

  /** Latencies keep the order of their terminal instants: a first review no
      later than the first approval yields a time to review no longer than
      the time to approve. */
  lemma MetricsMonotone(pr: PullRequest)
    requires pr.firstReviewAt.Some? && pr.firstApproveAt.Some?
    requires pr.firstReviewAt.value <= pr.firstApproveAt.value
    ensures CalculateMetrics(pr).timeToReview.value <= CalculateMetrics(pr).timeToApprove.value
  {
    SubOrder(pr.firstReviewAt.value, pr.firstApproveAt.value, Baseline(pr));
  }
}
