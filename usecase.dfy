/** application/usecase/measure_review_time.go: list the pull requests of a
    repository and measure each one. The repository collaborator is a
    parameter: whatever it answers for the owner, the repository and the
    list options it is given. */
module MeasureReviewTime {
  import opened Wrappers
  import opened Entity
  import opened Repository

  /** `usecase.MeasureOptions`. */
  datatype MeasureOptions = MeasureOptions(
    owner: string,
    repo: string,
    state: string,
    since: Option<Time>,
    until: Option<Time>)

  /** `PullRequestRepository.List`, as the values it answers. */
  type ListApi = (string, string, ListOptions) -> Result<seq<PullRequest>>

  /** The list options `Execute` asks for: newest first, 100 per page, with
      the caller's state filter and creation-date window passed on as given. */
  function ListOptionsFor(opts: MeasureOptions): (lo: ListOptions)
    ensures lo.sort == "created" && lo.direction == "desc" && lo.perPage == 100
    ensures lo.state == opts.state && lo.since == opts.since && lo.until == opts.until
  {
    ListOptions(opts.state, "created", "desc", opts.since, opts.until, 100)
  }

  /** `(*MeasureReviewTimeUseCase).Execute`: a failed listing is returned
      wrapped and yields no metrics; otherwise the metrics of the listed pull
      requests, one per pull request and in the order listed (an empty
      listing gives an empty, present list). */
  method Execute(opts: MeasureOptions, list: ListApi) returns (r: Result<seq<ReviewMetrics>>)
    ensures var listed := list(opts.owner, opts.repo, ListOptionsFor(opts));
      && (listed.Failure? ==> r == Failure(Wrapped("failed to list pull requests", listed.error)))
      && (listed.Success? ==>
            && r.Success?
            && |r.value| == |listed.value|
            && forall i :: 0 <= i < |listed.value| ==> r.value[i] == CalculateMetrics(listed.value[i]))
  {
    var metrics: seq<ReviewMetrics> := [];

    var listOpts := ListOptionsFor(opts);

    var prs := list(opts.owner, opts.repo, listOpts);
    if prs.Failure? {
      return Failure(Wrapped("failed to list pull requests", prs.error));
    }

    for i := 0 to |prs.value|
      invariant |metrics| == i
      invariant forall k :: 0 <= k < i ==> metrics[k] == CalculateMetrics(prs.value[k])
    {
      var metric := CalculateMetrics(prs.value[i]);
      metrics := metrics + [metric];
    }
    return Success(metrics);
  }
}
