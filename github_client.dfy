/** infra/github/client.go: the repository implementation that searches a
    repository's pull requests and enriches each with its first review
    request, first review and first approval.

    The HTTP calls are not modelled; what they answer is an input:
    `SearchApi` stands for all pages of `Search.Issues` (the issue numbers
    found, or the error), and `IssueApi` for what `PullRequests.Get`,
    `Issues.ListIssueTimeline` (all pages) and `PullRequests.ListReviews`
    answer for one issue number. */
module GitHubClient {
  import opened Wrappers
  import opened Text
  import opened Entity
  import opened Repository

  /** `time.Time{}`, the instant 0001-01-01 00:00:00 UTC, which
      `GetSubmittedAt().Time` yields for a review without a submission time. */
  const ZeroTime: Time := -62_135_596_800_000_000_000

  const DateLayout := "2006-01-02"
  const DefaultPerPage := 100

  // The go-github records the core reads; a nil pointer is `None`.

  datatype User = User(login: Option<string>, userType: Option<string>)

  datatype Review = Review(state: Option<string>, user: Option<User>, submittedAt: Option<Time>)

  datatype TimelineEvent = TimelineEvent(event: Option<string>, createdAt: Option<Time>)

  datatype ApiPullRequest = ApiPullRequest(
    id: Option<int>,
    number: Option<int>,
    title: Option<string>,
    user: Option<User>,
    state: Option<string>,
    createdAt: Option<Time>,
    mergedAt: Option<Time>,
    closedAt: Option<Time>)

  datatype SearchOptions = SearchOptions(sort: string, order: string, perPage: int)

  /** What the API answers about one issue: its pull-request record, its
      whole timeline and its reviews, each of which may fail. */
  datatype IssueData = IssueData(
    detail: Result<ApiPullRequest>,
    timeline: Result<seq<TimelineEvent>>,
    reviews: Result<seq<Review>>)

  type SearchApi = (string, SearchOptions) -> Result<seq<int>>
  type IssueApi = int -> IssueData

  /** The earliest of `ts`, absent when `ts` is empty: the running minimum of
      a left-to-right scan that replaces its value only on a strictly
      earlier instant. */
  function Earliest(ts: seq<Time>): (m: Option<Time>)
    ensures m.None? <==> ts == []
    ensures m.Some? ==> m.value in ts && forall t :: t in ts ==> m.value <= t
  {
    if ts == [] then None
    else
      var prev := Earliest(ts[..|ts| - 1]);
      var t := ts[|ts| - 1];
      assert ts == ts[..|ts| - 1] + [t];
      if prev.None? || t < prev.value then Some(t) else prev
  }

  /** One more step of the running minimum. */
  lemma EarliestAppend(ts: seq<Time>, t: Time)
    ensures Earliest(ts + [t]) == if Earliest(ts).None? || t < Earliest(ts).value then Some(t) else Earliest(ts)
  {
    assert (ts + [t])[..|ts|] == ts;
  }

  /** The earliest instant depends only on which instants occur: not on
      their order, nor on repetitions. */
  lemma EarliestBySet(a: seq<Time>, b: seq<Time>)
    requires forall t :: t in a <==> t in b
    ensures Earliest(a) == Earliest(b)
  {
  }

  // ---------------------------------------------------------------------
  // List: the search query and the page size

  function StateQualifier(state: string): seq<string> {
    if state == "closed" then ["is:closed"] else if state == "open" then ["is:open"] else []
  }

  function DateQualifier(since: Option<Time>, until: Option<Time>, format: TimeFormat): seq<string> {
    if since.Some? && until.Some? then ["created:" + format(since.value, DateLayout) + ".." + format(until.value, DateLayout)]
    else if since.Some? then ["created:>=" + format(since.value, DateLayout)]
    else if until.Some? then ["created:<=" + format(until.value, DateLayout)]
    else []
  }

  /** The space-separated terms of the search query. */
  function QueryTerms(owner: string, repo: string, opts: ListOptions, format: TimeFormat): seq<string> {
    ["repo:" + owner + "/" + repo, "is:pr"] + StateQualifier(opts.state) + DateQualifier(opts.since, opts.until, format)
  }

  /** The query building at the head of `List`: the terms joined by spaces,
      always starting with the repository and `is:pr`. */
  method BuildQuery(owner: string, repo: string, opts: ListOptions, format: TimeFormat) returns (query: string)
    ensures query == Join(QueryTerms(owner, repo, opts, format), ' ')
    ensures var head := "repo:" + owner + "/" + repo + " is:pr"; |head| <= |query| && query[..|head|] == head
  {
    query := "repo:" + owner + "/" + repo + " is:pr";
    ghost var terms := ["repo:" + owner + "/" + repo, "is:pr"];
    assert query == Join(terms, ' ');
    if opts.state != "" {
      if opts.state == "closed" {
        query := AppendTerm(query, terms, "is:closed");
        terms := terms + ["is:closed"];
      } else if opts.state == "open" {
        query := AppendTerm(query, terms, "is:open");
        terms := terms + ["is:open"];
      }
    }
    assert terms == ["repo:" + owner + "/" + repo, "is:pr"] + StateQualifier(opts.state);
    ghost var dates := DateQualifier(opts.since, opts.until, format);
    assert QueryTerms(owner, repo, opts, format) == terms + dates;
    if opts.since.Some? && opts.until.Some? {
      query := AppendTerm(query, terms, "created:" + format(opts.since.value, DateLayout) + ".." + format(opts.until.value, DateLayout));
    } else if opts.since.Some? {
      query := AppendTerm(query, terms, "created:>=" + format(opts.since.value, DateLayout));
    } else if opts.until.Some? {
      query := AppendTerm(query, terms, "created:<=" + format(opts.until.value, DateLayout));
    } else {
      assert terms + dates == terms;
    }
    QueryHead(owner, repo, opts, format);
  }

  /** `query += " " + term`, with the query kept equal to the joined terms. */
  method AppendTerm(query: string, ghost terms: seq<string>, term: string) returns (query': string)
    requires |terms| >= 1 && query == Join(terms, ' ')
    ensures query' == Join(terms + [term], ' ')
  {
    query' := query + " " + term;
    JoinAppend(terms, term, ' ');
  }

  lemma QueryHead(owner: string, repo: string, opts: ListOptions, format: TimeFormat)
    ensures var head, query := "repo:" + owner + "/" + repo + " is:pr", Join(QueryTerms(owner, repo, opts, format), ' ');
      |head| <= |query| && query[..|head|] == head
  {
    var terms := QueryTerms(owner, repo, opts, format);
    var rest := terms[2..];
    assert terms == [terms[0], "is:pr"] + rest;
    if rest == [] {
      assert Join(terms, ' ') == terms[0] + [' '] + "is:pr";
    } else {
      assert terms[1..] == ["is:pr"] + rest;
      assert Join(terms[1..], ' ') == "is:pr" + [' '] + Join(rest, ' ');
    }
  }

  /** Read back term by term, the query names the repository first, holds
      `is:closed` or `is:open` exactly for those two states, and carries the
      creation-date window as one `created:` term: a range when both bounds
      are given, a one-sided bound when one is, nothing when neither is. */
  lemma QueryFilters(owner: string, repo: string, opts: ListOptions, format: TimeFormat)
    requires ' ' !in owner && ' ' !in repo
    requires opts.since.Some? ==> ' ' !in format(opts.since.value, DateLayout)
    requires opts.until.Some? ==> ' ' !in format(opts.until.value, DateLayout)
    ensures var terms := Split(Join(QueryTerms(owner, repo, opts, format), ' '), ' ');
      && |terms| >= 2
      && terms[0] == "repo:" + owner + "/" + repo && terms[1] == "is:pr"
      && ("is:closed" in terms <==> opts.state == "closed")
      && ("is:open" in terms <==> opts.state == "open")
      && terms[2 + |StateQualifier(opts.state)|..] == DateQualifier(opts.since, opts.until, format)
  {
    QueryTermsHaveNoSpace(owner, repo, opts, format);
    QueryTermsShape(owner, repo, opts, format);
    SplitJoin(QueryTerms(owner, repo, opts, format), ' ');
  }

  lemma QueryTermsHaveNoSpace(owner: string, repo: string, opts: ListOptions, format: TimeFormat)
    requires ' ' !in owner && ' ' !in repo
    requires opts.since.Some? ==> ' ' !in format(opts.since.value, DateLayout)
    requires opts.until.Some? ==> ' ' !in format(opts.until.value, DateLayout)
    ensures forall i :: 0 <= i < |QueryTerms(owner, repo, opts, format)| ==>
      ' ' !in QueryTerms(owner, repo, opts, format)[i]
  {
    var terms := QueryTerms(owner, repo, opts, format);
    var dates := DateQualifier(opts.since, opts.until, format);
    assert forall i :: 0 <= i < |dates| ==> ' ' !in dates[i];
    forall i | 0 <= i < |terms|
      ensures ' ' !in terms[i]
    {
      if i == 0 {
        assert terms[0] == "repo:" + owner + "/" + repo;
      }
    }
  }

  lemma QueryTermsShape(owner: string, repo: string, opts: ListOptions, format: TimeFormat)
    ensures var terms := QueryTerms(owner, repo, opts, format);
      && |terms| >= 2
      && terms[0] == "repo:" + owner + "/" + repo && terms[1] == "is:pr"
      && ("is:closed" in terms <==> opts.state == "closed")
      && ("is:open" in terms <==> opts.state == "open")
      && terms[2 + |StateQualifier(opts.state)|..] == DateQualifier(opts.since, opts.until, format)
  {
    var terms := QueryTerms(owner, repo, opts, format);
    var dates := DateQualifier(opts.since, opts.until, format);
    assert forall i :: 0 <= i < |dates| ==> dates[i][0] == 'c';
    assert terms[0][0] == 'r';
    assert "is:closed"[0] == 'i' && "is:open"[0] == 'i';
  }

  /** The page size of the search: the caller's hint, with 0 meaning 100. */
  function PageSize(opts: ListOptions): (n: int)
    ensures n != 0
    ensures opts.perPage != 0 ==> n == opts.perPage
    ensures opts.perPage == 0 ==> n == DefaultPerPage
  {
    if opts.perPage == 0 then DefaultPerPage else opts.perPage
  }

  // ---------------------------------------------------------------------
  // convertToDomainEntity

  /** The domain pull request built from the API record: absent scalar
      fields read as Go's zero values, the merge and close instants are
      present exactly when the record has them and then equal them, and the
      review fields are left absent for the enrichment to fill in. */
  function ConvertToDomainEntity(pr: ApiPullRequest): (p: PullRequest)
    ensures p.mergedAt == pr.mergedAt && p.closedAt == pr.closedAt
    ensures p.createdAt == pr.createdAt.GetOr(ZeroTime)
    ensures p.id == pr.id.GetOr(0) && p.number == pr.number.GetOr(0) && p.title == pr.title.GetOr("")
    ensures p.author == (if pr.user.Some? then pr.user.value.login.GetOr("") else "")
    ensures p.state == pr.state.GetOr("")
    ensures p.firstReviewRequestAt.None? && p.firstReviewAt.None? && p.firstApproveAt.None?
    ensures p.reviewDuration.None?
  {
    PullRequest(
      pr.id.GetOr(0),
      pr.number.GetOr(0),
      pr.title.GetOr(""),
      if pr.user.Some? then pr.user.value.login.GetOr("") else "",
      pr.state.GetOr(""),
      pr.createdAt.GetOr(ZeroTime),
      pr.mergedAt,
      pr.closedAt,
      None, None, None, None)
  }

  // ---------------------------------------------------------------------
  // getFirstReviewRequestTime

  predicate IsReviewRequest(e: TimelineEvent) {
    e.event == Some("review_requested") && e.createdAt.Some?
  }

  /** The instants of the review-request events that carry one, in order. */
  function RequestTimes(events: seq<TimelineEvent>): seq<Time> {
    if events == [] then []
    else
      var last := events[|events| - 1];
      RequestTimes(events[..|events| - 1]) + if IsReviewRequest(last) then [last.createdAt.value] else []
  }

  lemma {:induction false} RequestTimesMembers(events: seq<TimelineEvent>)
    ensures forall e :: e in events && IsReviewRequest(e) ==> e.createdAt.value in RequestTimes(events)
    ensures forall t :: t in RequestTimes(events) ==>
      exists e :: e in events && IsReviewRequest(e) && e.createdAt.value == t
  {
    if events != [] {
      var init := events[..|events| - 1];
      RequestTimesMembers(init);
      assert events == init + [events[|events| - 1]];
    }
  }

  function FirstReviewRequestTime(events: seq<TimelineEvent>): Option<Time> {
    Earliest(RequestTimes(events))
  }

  /** The first review request is the earliest instant among the events of
      kind "review_requested" that carry one, and is absent exactly when
      there is no such event. */
  lemma FirstReviewRequestIsEarliest(events: seq<TimelineEvent>)
    ensures FirstReviewRequestTime(events).None? <==> forall e :: e in events ==> !IsReviewRequest(e)
    ensures FirstReviewRequestTime(events).Some? ==>
      && (exists e :: e in events && IsReviewRequest(e) && e.createdAt.value == FirstReviewRequestTime(events).value)
      && forall e :: e in events && IsReviewRequest(e) ==> FirstReviewRequestTime(events).value <= e.createdAt.value
  {
    RequestTimesMembers(events);
    if FirstReviewRequestTime(events).Some? {
      forall e | e in events && IsReviewRequest(e)
        ensures FirstReviewRequestTime(events).value <= e.createdAt.value
      {
        assert e.createdAt.value in RequestTimes(events);
      }
    }
  }

  /** Reordering the timeline, or repeating events in it (pages fetched
      twice), does not change the first review request. */
  lemma FirstReviewRequestBySet(a: seq<TimelineEvent>, b: seq<TimelineEvent>)
    requires forall e :: e in a <==> e in b
    ensures FirstReviewRequestTime(a) == FirstReviewRequestTime(b)
  {
    RequestTimesMembers(a);
    RequestTimesMembers(b);
    EarliestBySet(RequestTimes(a), RequestTimes(b));
  }

  /** getFirstReviewRequestTime after the pages are fetched: a running
      minimum over the timeline; a failed fetch is passed on. */
  method GetFirstReviewRequestTime(fetched: Result<seq<TimelineEvent>>) returns (r: Result<Option<Time>>)
    ensures fetched.Failure? ==> r == Failure(fetched.error)
    ensures fetched.Success? ==> r == Success(FirstReviewRequestTime(fetched.value))
  {
    if fetched.Failure? {
      return Failure(fetched.error);
    }
    var allEvents := fetched.value;
    var firstReviewRequestTime: Option<Time> := None;
    for i := 0 to |allEvents|
      invariant firstReviewRequestTime == Earliest(RequestTimes(allEvents[..i]))
    {
      var event := allEvents[i];
      assert allEvents[..i + 1][..i] == allEvents[..i];
      ghost var before := RequestTimes(allEvents[..i]);
      assert RequestTimes(allEvents[..i + 1]) == before + if IsReviewRequest(event) then [event.createdAt.value] else [];
      if IsReviewRequest(event) {
        EarliestAppend(before, event.createdAt.value);
      } else {
        assert before + [] == before;
      }
      if event.event.Some? && event.event.value == "review_requested" {
        if event.createdAt.Some? {
          if firstReviewRequestTime.None? || event.createdAt.value < firstReviewRequestTime.value {
            firstReviewRequestTime := Some(event.createdAt.value);
          }
        }
      }
    }
    assert allEvents[..|allEvents|] == allEvents;
    return Success(firstReviewRequestTime);
  }

  // ---------------------------------------------------------------------
  // getReviews

  predicate IsCountedState(state: Option<string>) {
    state.Some? && state.value != "" && state.value != "PENDING"
  }

  predicate IsBot(user: Option<User>) {
    user.Some? && user.value.userType == Some("Bot")
  }

  function SubmittedAt(r: Review): Time {
    r.submittedAt.GetOr(ZeroTime)
  }

  /** The review filter: a submitted (non-empty, non-pending) review by a
      non-bot account, not strictly earlier than the review request. */
  predicate Eligible(r: Review, requestAt: Option<Time>) {
    && IsCountedState(r.state)
    && !IsBot(r.user)
    && !(requestAt.Some? && SubmittedAt(r) < requestAt.value)
  }

  /** The `reviewInfo` record getReviews keeps per eligible review. */
  datatype ReviewInfo = ReviewInfo(state: string, time: Time)

  function Info(r: Review): ReviewInfo {
    ReviewInfo(r.state.GetOr(""), SubmittedAt(r))
  }

  /** The eligible reviews, in fetch order. */
  function KeptReviews(reviews: seq<Review>, requestAt: Option<Time>): seq<ReviewInfo> {
    if reviews == [] then []
    else
      var last := reviews[|reviews| - 1];
      KeptReviews(reviews[..|reviews| - 1], requestAt) + if Eligible(last, requestAt) then [Info(last)] else []
  }

  function Times(infos: seq<ReviewInfo>): seq<Time> {
    if infos == [] then [] else Times(infos[..|infos| - 1]) + [infos[|infos| - 1].time]
  }

  function ApprovedTimes(infos: seq<ReviewInfo>): seq<Time> {
    if infos == [] then []
    else
      var last := infos[|infos| - 1];
      ApprovedTimes(infos[..|infos| - 1]) + if last.state == "APPROVED" then [last.time] else []
  }

  function FirstReviewTime(reviews: seq<Review>, requestAt: Option<Time>): Option<Time> {
    Earliest(Times(KeptReviews(reviews, requestAt)))
  }

  function FirstApproveTime(reviews: seq<Review>, requestAt: Option<Time>): Option<Time> {
    Earliest(ApprovedTimes(KeptReviews(reviews, requestAt)))
  }

  lemma {:induction false} KeptMembers(reviews: seq<Review>, requestAt: Option<Time>)
    ensures forall info :: info in KeptReviews(reviews, requestAt) <==>
      exists r :: r in reviews && Eligible(r, requestAt) && Info(r) == info
  {
    if reviews != [] {
      var init := reviews[..|reviews| - 1];
      KeptMembers(init, requestAt);
      assert reviews == init + [reviews[|reviews| - 1]];
    }
  }

  lemma {:induction false} TimesMembers(infos: seq<ReviewInfo>)
    ensures forall t :: t in Times(infos) <==> exists i :: i in infos && i.time == t
    ensures forall t :: t in ApprovedTimes(infos) <==> exists i :: i in infos && i.state == "APPROVED" && i.time == t
  {
    if infos != [] {
      var init := infos[..|infos| - 1];
      TimesMembers(init);
      assert infos == init + [infos[|infos| - 1]];
    }
  }

  /** The first review is the earliest submission among eligible reviews,
      and is absent exactly when no review is eligible. */
  lemma FirstReviewIsEarliestEligible(reviews: seq<Review>, requestAt: Option<Time>)
    ensures FirstReviewTime(reviews, requestAt).None? <==> forall r :: r in reviews ==> !Eligible(r, requestAt)
    ensures FirstReviewTime(reviews, requestAt).Some? ==>
      && (exists r :: r in reviews && Eligible(r, requestAt) && SubmittedAt(r) == FirstReviewTime(reviews, requestAt).value)
      && forall r :: r in reviews && Eligible(r, requestAt) ==> FirstReviewTime(reviews, requestAt).value <= SubmittedAt(r)
  {
    var kept := KeptReviews(reviews, requestAt);
    KeptMembers(reviews, requestAt);
    TimesMembers(kept);
    forall r | r in reviews && Eligible(r, requestAt)
      ensures SubmittedAt(r) in Times(kept)
    {
      assert Info(r) in kept;
    }
  }

  /** The first approval is the earliest submission among eligible reviews
      whose state is "APPROVED", and is absent exactly when there is none. */
  lemma FirstApproveIsEarliestApproval(reviews: seq<Review>, requestAt: Option<Time>)
    ensures FirstApproveTime(reviews, requestAt).None? <==>
      forall r :: r in reviews && Eligible(r, requestAt) ==> r.state != Some("APPROVED")
    ensures FirstApproveTime(reviews, requestAt).Some? ==>
      && (exists r :: r in reviews && Eligible(r, requestAt) && r.state == Some("APPROVED") && SubmittedAt(r) == FirstApproveTime(reviews, requestAt).value)
      && forall r :: r in reviews && Eligible(r, requestAt) && r.state == Some("APPROVED") ==> FirstApproveTime(reviews, requestAt).value <= SubmittedAt(r)
  {
    var kept := KeptReviews(reviews, requestAt);
    KeptMembers(reviews, requestAt);
    TimesMembers(kept);
    forall r | r in reviews && Eligible(r, requestAt) && r.state == Some("APPROVED")
      ensures SubmittedAt(r) in ApprovedTimes(kept)
    {
      assert Info(r) in kept;
    }
    if FirstApproveTime(reviews, requestAt).Some? {
      var t := FirstApproveTime(reviews, requestAt).value;
      var i :| i in kept && i.state == "APPROVED" && i.time == t;
      var r :| r in reviews && Eligible(r, requestAt) && Info(r) == i;
      assert r.state == Some("APPROVED");
    }
  }

  /** When both are present the first review comes no later than the first
      approval (they coincide when the approval is the first review), and an
      approval always implies a first review. */
  lemma ReviewNoLaterThanApproval(reviews: seq<Review>, requestAt: Option<Time>)
    ensures FirstApproveTime(reviews, requestAt).Some? ==>
      && FirstReviewTime(reviews, requestAt).Some?
      && FirstReviewTime(reviews, requestAt).value <= FirstApproveTime(reviews, requestAt).value
  {
    var kept := KeptReviews(reviews, requestAt);
    TimesMembers(kept);
    if FirstApproveTime(reviews, requestAt).Some? {
      var t := FirstApproveTime(reviews, requestAt).value;
      assert t in ApprovedTimes(kept);
      assert t in Times(kept);
    }
  }

  /** Neither result depends on the order the reviews were fetched in, nor
      on a review being listed twice. */
  lemma ReviewsOrderIndependent(a: seq<Review>, b: seq<Review>, requestAt: Option<Time>)
    requires forall r :: r in a <==> r in b
    ensures FirstReviewTime(a, requestAt) == FirstReviewTime(b, requestAt)
    ensures FirstApproveTime(a, requestAt) == FirstApproveTime(b, requestAt)
  {
    KeptMembers(a, requestAt);
    KeptMembers(b, requestAt);
    InfoTimesBySet(KeptReviews(a, requestAt), KeptReviews(b, requestAt));
  }

  lemma InfoTimesBySet(a: seq<ReviewInfo>, b: seq<ReviewInfo>)
    requires forall i :: i in a <==> i in b
    ensures Earliest(Times(a)) == Earliest(Times(b))
    ensures Earliest(ApprovedTimes(a)) == Earliest(ApprovedTimes(b))
  {
    TimesMembers(a);
    TimesMembers(b);
    EarliestBySet(Times(a), Times(b));
    EarliestBySet(ApprovedTimes(a), ApprovedTimes(b));
  }

  /** A review the filter rejects changes neither result. */
  lemma IneligibleReviewIgnored(reviews: seq<Review>, r: Review, requestAt: Option<Time>)
    requires !Eligible(r, requestAt)
    ensures FirstReviewTime(reviews + [r], requestAt) == FirstReviewTime(reviews, requestAt)
    ensures FirstApproveTime(reviews + [r], requestAt) == FirstApproveTime(reviews, requestAt)
  {
    assert (reviews + [r])[..|reviews|] == reviews;
    assert KeptReviews(reviews + [r], requestAt) == KeptReviews(reviews, requestAt);
  }

  // The in-place `sort.Slice` by submission time, as a sort on values.

  predicate SortedByTime(s: seq<ReviewInfo>) {
    forall i, j :: 0 <= i < j < |s| ==> s[i].time <= s[j].time
  }

  lemma SortedCons(h: ReviewInfo, s: seq<ReviewInfo>)
    requires SortedByTime(s)
    requires forall e :: e in s ==> h.time <= e.time
    ensures SortedByTime([h] + s)
  {
    var r := [h] + s;
    forall i, j | 0 <= i < j < |r|
      ensures r[i].time <= r[j].time
    {
      assert r[j] == s[j - 1];
      if i > 0 {
        assert r[i] == s[i - 1];
      }
    }
  }

  /** The head of a sorted sequence bounds every element from below. */
  lemma SortedHeadIsLeast(s: seq<ReviewInfo>, t: Time)
    requires SortedByTime(s) && (s != [] ==> t <= s[0].time)
    ensures forall e :: e in s ==> t <= e.time
  {
    forall e | e in s
      ensures t <= e.time
    {
      var k :| 0 <= k < |s| && s[k] == e;
      assert s[0].time <= s[k].time;
    }
  }

  /** The rest of a sorted sequence, with one later element inserted, stays
      above its head. */
  lemma InsertedAboveHead(x: ReviewInfo, s: seq<ReviewInfo>, rest: seq<ReviewInfo>)
    requires SortedByTime(s) && s != [] && s[0].time < x.time
    requires multiset(rest) == multiset(s[1..]) + multiset{x}
    ensures forall e :: e in rest ==> s[0].time <= e.time
  {
    forall e | e in rest
      ensures s[0].time <= e.time
    {
      assert e in multiset(rest);
      if e != x {
        assert e in multiset(s[1..]);
        var k :| 0 <= k < |s[1..]| && s[1..][k] == e;
        assert s[k + 1] == e;
      }
    }
  }

  function InsertByTime(x: ReviewInfo, s: seq<ReviewInfo>): (r: seq<ReviewInfo>)
    requires SortedByTime(s)
    ensures SortedByTime(r)
    ensures multiset(r) == multiset(s) + multiset{x}
  {
    if s == [] || x.time <= s[0].time then
      SortedHeadIsLeast(s, x.time);
      SortedCons(x, s);
      [x] + s
    else
      var rest := InsertByTime(x, s[1..]);
      assert s == [s[0]] + s[1..];
      InsertedAboveHead(x, s, rest);
      SortedCons(s[0], rest);
      [s[0]] + rest
  }

  function SortByTime(s: seq<ReviewInfo>): (r: seq<ReviewInfo>)
    ensures SortedByTime(r)
    ensures multiset(r) == multiset(s)
  {
    if s == [] then []
    else
      assert s == [s[0]] + s[1..];
      InsertByTime(s[0], SortByTime(s[1..]))
  }

  /** What the first-hit scan finds in the first `i` sorted reviews. */
  function FirstOf(s: seq<ReviewInfo>): Option<Time> {
    if s == [] then None else Some(s[0].time)
  }

  function FirstApprovedOf(s: seq<ReviewInfo>): Option<Time> {
    if s == [] then None
    else
      var prev := FirstApprovedOf(s[..|s| - 1]);
      var last := s[|s| - 1];
      if prev.Some? then prev else if last.state == "APPROVED" then Some(last.time) else None
  }

  /** On reviews sorted by time, the first review is the earliest. */
  lemma SortedFirstIsEarliest(s: seq<ReviewInfo>)
    requires SortedByTime(s)
    ensures FirstOf(s) == Earliest(Times(s))
  {
    TimesMembers(s);
    if s != [] {
      assert s[0] in s;
      forall t | t in Times(s)
        ensures s[0].time <= t
      {
        var i :| i in s && i.time == t;
        var k :| 0 <= k < |s| && s[k] == i;
        assert k == 0 || s[0].time <= s[k].time;
      }
    }
  }

  /** On reviews sorted by time, the first approval met is the earliest. */
  lemma {:induction false} SortedFirstApprovedIsEarliest(s: seq<ReviewInfo>)
    requires SortedByTime(s)
    ensures FirstApprovedOf(s) == Earliest(ApprovedTimes(s))
  {
    if s != [] {
      var init, last := s[..|s| - 1], s[|s| - 1];
      assert SortedByTime(init);
      SortedFirstApprovedIsEarliest(init);
      var prev := ApprovedTimes(init);
      if last.state == "APPROVED" {
        EarliestAppend(prev, last.time);
        if FirstApprovedOf(init).Some? {
          TimesMembers(init);
          var m := FirstApprovedOf(init).value;
          assert m in prev;
          var i :| i in init && i.state == "APPROVED" && i.time == m;
          var k :| 0 <= k < |init| && init[k] == i;
          assert s[k] == i;
        }
      } else {
        assert prev + [] == prev;
      }
    }
  }

  datatype ReviewTimes = ReviewTimes(firstReview: Option<Time>, firstApprove: Option<Time>)

  /** getReviews after the reviews are fetched: filter, sort by submission
      time, then take the first review and the first approval; a failed
      fetch is passed on. */
  method GetReviews(fetched: Result<seq<Review>>, firstReviewRequestAt: Option<Time>) returns (r: Result<ReviewTimes>)
    ensures fetched.Failure? ==> r == Failure(fetched.error)
    ensures fetched.Success? ==> r == Success(ReviewTimes(
      FirstReviewTime(fetched.value, firstReviewRequestAt),
      FirstApproveTime(fetched.value, firstReviewRequestAt)))
  {
    if fetched.Failure? {
      return Failure(fetched.error);
    }
    var reviewList := FilterReviews(fetched.value, firstReviewRequestAt);
    var sorted := SortByTime(reviewList);
    var times := ScanFirsts(sorted);
    assert forall x :: x in sorted <==> x in reviewList by {
      assert forall x :: x in sorted <==> x in multiset(sorted);
      assert forall x :: x in reviewList <==> x in multiset(reviewList);
    }
    InfoTimesBySet(sorted, reviewList);
    return Success(times);
  }

  /** The first loop of getReviews: keep the eligible reviews, in order. */
  method FilterReviews(reviews: seq<Review>, firstReviewRequestAt: Option<Time>) returns (reviewList: seq<ReviewInfo>)
    ensures reviewList == KeptReviews(reviews, firstReviewRequestAt)
  {
    reviewList := [];
    for i := 0 to |reviews|
      invariant reviewList == KeptReviews(reviews[..i], firstReviewRequestAt)
    {
      var review := reviews[i];
      assert reviews[..i + 1][..i] == reviews[..i];
      ghost var kept := KeptReviews(reviews[..i + 1], firstReviewRequestAt);
      assert kept == reviewList + if Eligible(review, firstReviewRequestAt) then [Info(review)] else [];
      if review.state.Some? && review.state.value != "" && review.state.value != "PENDING" {
        if review.user.Some? && review.user.value.userType.Some? && review.user.value.userType.value == "Bot" {
          assert kept == reviewList + [];
          continue;
        }
        var submittedAt := SubmittedAt(review);
        if firstReviewRequestAt.Some? && submittedAt < firstReviewRequestAt.value {
          assert kept == reviewList + [];
          continue;
        }
        reviewList := reviewList + [ReviewInfo(review.state.value, submittedAt)];
      } else {
        assert kept == reviewList + [];
      }
    }
    assert reviews[..|reviews|] == reviews;
  }

  /** The last loop of getReviews over the sorted reviews: the first one
      seen gives the first review, the first "APPROVED" one the first
      approval; on sorted input both are the earliest. */
  method ScanFirsts(sorted: seq<ReviewInfo>) returns (times: ReviewTimes)
    requires SortedByTime(sorted)
    ensures times.firstReview == Earliest(Times(sorted))
    ensures times.firstApprove == Earliest(ApprovedTimes(sorted))
  {
    var firstReviewTime: Option<Time> := None;
    var firstApproveTime: Option<Time> := None;
    for i := 0 to |sorted|
      invariant firstReviewTime == FirstOf(sorted[..i])
      invariant firstApproveTime == FirstApprovedOf(sorted[..i])
    {
      var info := sorted[i];
      assert sorted[..i + 1][..i] == sorted[..i];
      if firstReviewTime.None? {
        firstReviewTime := Some(info.time);
      }
      if firstApproveTime.None? && info.state == "APPROVED" {
        firstApproveTime := Some(info.time);
      }
    }
    assert sorted[..|sorted|] == sorted;
    SortedFirstIsEarliest(sorted);
    SortedFirstApprovedIsEarliest(sorted);
    times := ReviewTimes(firstReviewTime, firstApproveTime);
  }

  // ---------------------------------------------------------------------
  // Enrichment of one pull request (List and Get)

  /** What enriching one issue yields: a failed detail or review fetch is
      fatal, while a failed timeline fetch only leaves the first review
      request absent. */
  function Enriched(data: IssueData): (r: Result<PullRequest>)
    ensures data.detail.Failure? ==> r == Failure(data.detail.error)
    ensures data.detail.Success? && data.reviews.Failure? ==> r == Failure(data.reviews.error)
    ensures r.Success? <==> data.detail.Success? && data.reviews.Success?
    ensures r.Success? ==>
      r.value.firstReviewRequestAt == (if data.timeline.Success? then FirstReviewRequestTime(data.timeline.value) else None)
  {
    if data.detail.Failure? then Failure(data.detail.error)
    else if data.reviews.Failure? then Failure(data.reviews.error)
    else
      var requestAt := if data.timeline.Success? then FirstReviewRequestTime(data.timeline.value) else None;
      Success(ConvertToDomainEntity(data.detail.value).(
        firstReviewRequestAt := requestAt,
        firstReviewAt := FirstReviewTime(data.reviews.value, requestAt),
        firstApproveAt := FirstApproveTime(data.reviews.value, requestAt)))
  }

  /** A failed timeline fetch behaves exactly like a timeline without review
      requests: the pull request is still produced, measured from creation. */
  lemma TimelineFailureDegrades(data: IssueData, e: Error)
    ensures Enriched(data.(timeline := Failure(e))) == Enriched(data.(timeline := Success([])))
    ensures data.detail.Success? && data.reviews.Success? ==>
      && Enriched(data.(timeline := Failure(e))).Success?
      && Baseline(Enriched(data.(timeline := Failure(e))).value) == data.detail.value.createdAt.GetOr(ZeroTime)
  {
    assert FirstReviewRequestTime([]) == None;
  }

  /** Metrics of an enriched pull request are consistent: an approval
      implies a review with a time to review no longer than the time to
      approve, and when a review request was found neither is negative. */
  lemma EnrichedMetricsConsistent(data: IssueData)
    requires Enriched(data).Success?
    ensures var m := CalculateMetrics(Enriched(data).value);
      && (m.timeToApprove.Some? ==> m.timeToReview.Some? && m.timeToReview.value <= m.timeToApprove.value)
      && (Enriched(data).value.firstReviewRequestAt.Some? ==>
           (m.timeToReview.Some? ==> m.timeToReview.value >= 0) && (m.timeToApprove.Some? ==> m.timeToApprove.value >= 0))
  {
    var pr := Enriched(data).value;
    var reviews, requestAt := data.reviews.value, pr.firstReviewRequestAt;
    ReviewNoLaterThanApproval(reviews, requestAt);
    FirstReviewIsEarliestEligible(reviews, requestAt);
    FirstApproveIsEarliestApproval(reviews, requestAt);
    if pr.firstApproveAt.Some? {
      MetricsMonotone(pr);
    }
    MetricsSign(pr);
  }

  /** The reviews of the worked example: a comment half a day after creation
      (before the review request), a comment two days after creation, by a
      bot or not, and an approval three days after creation. */
  function ExampleReviews(t0: Time, botComment: bool): seq<Review> {
    var human := Some(User(Some("reviewer"), Some("User")));
    var bot := Some(User(Some("ci"), Some("Bot")));
    [Review(Some("COMMENTED"), human, Some(t0 + Day / 2)),
     Review(Some("COMMENTED"), if botComment then bot else human, Some(t0 + 2 * Day)),
     Review(Some("APPROVED"), human, Some(t0 + 3 * Day))]
  }

  /** A timeline whose only review request comes a day after `t0`. */
  function ExampleTimeline(t0: Time): seq<TimelineEvent> {
    [TimelineEvent(Some("labeled"), Some(t0)), TimelineEvent(Some("review_requested"), Some(t0 + Day))]
  }

  lemma ExampleRequest(t0: Time)
    ensures FirstReviewRequestTime(ExampleTimeline(t0)) == Some(t0 + Day)
  {
    var events := ExampleTimeline(t0);
    assert events[..1][..0] == [];
    assert RequestTimes(events[..1]) == [];
    assert RequestTimes(events) == [t0 + Day];
  }

  lemma ExampleFirsts(t0: Time, botComment: bool)
    ensures FirstReviewTime(ExampleReviews(t0, botComment), Some(t0 + Day))
      == Some(if botComment then t0 + 3 * Day else t0 + 2 * Day)
    ensures FirstApproveTime(ExampleReviews(t0, botComment), Some(t0 + Day)) == Some(t0 + 3 * Day)
  {
    var requestAt := Some(t0 + Day);
    var reviews := ExampleReviews(t0, botComment);
    var comment, approval := ReviewInfo("COMMENTED", t0 + 2 * Day), ReviewInfo("APPROVED", t0 + 3 * Day);
    assert reviews[..2][..1] == reviews[..1] && reviews[..1][..0] == [];
    assert !Eligible(reviews[0], requestAt);
    assert KeptReviews(reviews[..1], requestAt) == [];
    if botComment {
      assert KeptReviews(reviews[..2], requestAt) == [];
      assert KeptReviews(reviews, requestAt) == [approval];
      ExampleOneReview(approval);
    } else {
      assert KeptReviews(reviews[..2], requestAt) == [comment];
      assert KeptReviews(reviews, requestAt) == [comment, approval];
      ExampleTwoReviews(comment, approval);
    }
  }

  lemma ExampleOneReview(approval: ReviewInfo)
    requires approval.state == "APPROVED"
    ensures Earliest(Times([approval])) == Some(approval.time)
    ensures Earliest(ApprovedTimes([approval])) == Some(approval.time)
  {
    assert [approval][..0] == [];
    assert Times([approval]) == [approval.time];
    assert ApprovedTimes([approval]) == [approval.time];
    assert [approval.time][..0] == [];
  }

  lemma ExampleTwoReviews(comment: ReviewInfo, approval: ReviewInfo)
    requires comment.state == "COMMENTED" && approval.state == "APPROVED"
    requires comment.time <= approval.time
    ensures Earliest(Times([comment, approval])) == Some(comment.time)
    ensures Earliest(ApprovedTimes([comment, approval])) == Some(approval.time)
  {
    var kept := [comment, approval];
    assert kept[..1] == [comment] && [comment][..0] == [];
    assert Times([comment]) == [comment.time];
    assert Times(kept) == [comment.time] + [approval.time];
    assert ApprovedTimes([comment]) == [];
    assert ApprovedTimes(kept) == [approval.time];
    EarliestAppend([comment.time], approval.time);
    assert [comment.time][..0] == [] && [approval.time][..0] == [];
  }

  /** The worked example: created at `t0`, review requested a day later, a
      comment after two days, an approval after three, merged after four.
      Every latency runs from the request: one day to the first review, or
      two when the comment came from a bot (the approval is then the first
      review), two days to approval and three in total; the comment made
      before the request never counts. */
  lemma ExampleLatencies(t0: Time, botComment: bool)
    ensures var data := IssueData(
        Success(ApiPullRequest(Some(1), Some(42), Some("Add feature"), None, Some("closed"),
                               Some(t0), Some(t0 + 4 * Day), Some(t0 + 4 * Day))),
        Success(ExampleTimeline(t0)),
        Success(ExampleReviews(t0, botComment)));
      && Enriched(data).Success?
      && CalculateMetrics(Enriched(data).value).timeToReview == Some(if botComment then 48 * Hour else 24 * Hour)
      && CalculateMetrics(Enriched(data).value).timeToApprove == Some(48 * Hour)
      && CalculateMetrics(Enriched(data).value).totalDuration == Some(72 * Hour)
  {
    ExampleRequest(t0);
    ExampleFirsts(t0, botComment);
  }

  /** The enrichment shared by `List` and `Get` (client.go builds the domain
      entity, then looks up the review request, then the reviews). */
  method Enrich(data: IssueData) returns (r: Result<PullRequest>)
    ensures r == Enriched(data)
  {
    if data.detail.Failure? {
      return Failure(data.detail.error);
    }
    var pullRequest := ConvertToDomainEntity(data.detail.value);

    var requested := GetFirstReviewRequestTime(data.timeline);
    var firstReviewRequestTime := if requested.Success? then requested.value else None;
    pullRequest := pullRequest.(firstReviewRequestAt := firstReviewRequestTime);

    var reviewed := GetReviews(data.reviews, firstReviewRequestTime);
    if reviewed.Failure? {
      return Failure(reviewed.error);
    }
    pullRequest := pullRequest.(firstReviewAt := reviewed.value.firstReview, firstApproveAt := reviewed.value.firstApprove);
    return Success(pullRequest);
  }

  /** `(*Client).List`: search with the built query and page size, then
      enrich every pull request found, in search order, stopping at the
      first fatal error. */
  method List(owner: string, repo: string, opts: ListOptions, format: TimeFormat, search: SearchApi, fetch: IssueApi)
    returns (r: Result<seq<PullRequest>>)
    ensures var found := search(Join(QueryTerms(owner, repo, opts, format), ' '), SearchOptions(opts.sort, opts.direction, PageSize(opts)));
      && (found.Failure? ==> r == Failure(found.error))
      && (found.Success? ==>
        && (r.Success? <==> forall k :: 0 <= k < |found.value| ==> Enriched(fetch(found.value[k])).Success?)
        && (r.Success? ==>
              && |r.value| == |found.value|
              && forall k :: 0 <= k < |found.value| ==> Enriched(fetch(found.value[k])) == Success(r.value[k]))
        && (r.Failure? ==>
              exists k ::
                && 0 <= k < |found.value|
                && Enriched(fetch(found.value[k])) == Failure(r.error)
                && forall j :: 0 <= j < k ==> Enriched(fetch(found.value[j])).Success?))
  {
    var query := BuildQuery(owner, repo, opts, format);
    var perPage := opts.perPage;
    if perPage == 0 {
      perPage := DefaultPerPage;
    }
    var found := search(query, SearchOptions(opts.sort, opts.direction, perPage));
    if found.Failure? {
      return Failure(found.error);
    }
    var allIssues := found.value;
    var result: seq<PullRequest> := [];
    for i := 0 to |allIssues|
      invariant |result| == i
      invariant forall k :: 0 <= k < i ==> Enriched(fetch(allIssues[k])) == Success(result[k])
    {
      var pullRequest := Enrich(fetch(allIssues[i]));
      if pullRequest.Failure? {
        return Failure(pullRequest.error);
      }
      result := result + [pullRequest.value];
    }
    return Success(result);
  }

  /** `(*Client).Get`: the same enrichment for one pull request number. */
  method Get(number: int, fetch: IssueApi) returns (r: Result<PullRequest>)
    ensures fetch(number).detail.Failure? ==> r == Failure(fetch(number).detail.error)
    ensures r == Enriched(fetch(number))
  {
    r := Enrich(fetch(number));
  }
}
