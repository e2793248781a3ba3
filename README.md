# measure-review-time, modelled in Dafny

This project models a command-line tool that measures how long the pull
requests of a GitHub repository wait for review. The model covers five parts:

- **Listing.** The GitHub client builds a search query, collects the pull
  requests it finds, and enriches each one with three instants: its first
  review request, its first counted review and its first approval.
- **Measuring.** The use case measures every listed pull request.
- **Durations.** The domain entity computes the time to review, the time to
  approve and the total duration. Each is measured from the first review
  request when there is one, otherwise from creation.
- **CSV printer.** It writes one header line and then one comma-separated
  line per pull request.
- **Table printer.** It writes a title and then a table aligned by Go's
  `text/tabwriter`.

Modelling choices:

- **Instants.** An instant is a whole number of nanoseconds since the Unix
  epoch (`Entity.Time`). A duration is an `int64` (`Entity.Duration`).
  `Entity.Sub` clamps at the `int64` bounds, as Go's `Time.Sub` does.
- **Go arithmetic.** Go's truncating `/` and `%` are written out as
  `PrinterCommon.GoDiv` and `PrinterCommon.GoMod`. Dafny's own operators are
  Euclidean.
- **The network.** Every network call becomes a parameter holding what it
  answers:
  - `GitHubClient.SearchApi` answers for all pages of the issue search;
  - `GitHubClient.IssueApi` answers, for one issue number, with the
    pull-request record, its whole timeline (every page) and the single page
    of reviews that `ListReviews` returns (see "## Left out");
  - `MeasureReviewTime.ListApi` stands for the repository collaborator.
- **Formatting instants.** `time.Format` is a parameter `(Time, layout) -> string`.
- **Loop variables.** `GitHubClient.ScanFirsts` takes `&r.time` at
  `client.go:299` and `client.go:302` to mean the instant of that pass's
  review. That holds with Go's per-iteration loop variables (Go 1.22 and
  later). With the older shared loop variable, both results would point at
  the last sorted review.
- **Output.** A printer's output is the sequence of lines it has written, kept
  in the printer object's `written` field.

Two behaviours of the code deserve a note.

- **Latencies run from the review request.** They are measured from the
  first review request, not from creation. In `GitHubClient.ExampleLatencies`
  the review is requested one day after creation. An approval three days after
  creation then measures 48h, and a merge after four days measures 72h.
- **Table output.** `TablePrinter.Print` defers the tabwriter's `Flush`, so
  the table is written only when the method returns. The blank line that
  `table.go:68` prints therefore comes before the table, not after it.
  `PrinterTable.TablePrinter.Print` states the lines in that order.

## Model

| member | source | states |
|---|---|---|
| Entity.SubOrder | domain/entity/pull_request.go:41 | `Time.Sub` (clamped to int64) is monotone in its first instant; it is negative exactly when that instant is earlier, and zero exactly when the two are equal |
| Entity.Baseline | domain/entity/pull_request.go:34-38 | the baseline is the first review request when present, otherwise the creation time |
| Entity.CalculateMetrics | domain/entity/pull_request.go:29-59 | the metrics point to the pull request; each latency is present exactly when its instant is; a present latency is that instant minus the baseline; the total uses the merge when merged, else the close, else is absent |
| Entity.MetricsAreExactDifferences | domain/entity/pull_request.go:40-56 | when all instants lie within about 146 years of creation, no clamping happens and every latency is the exact difference from the baseline |
| Entity.MetricsSign | domain/entity/pull_request.go:40-56 | each present latency is negative exactly when its instant precedes the baseline |
| Entity.MetricsMonotone | domain/entity/pull_request.go:40-48 | a first review no later than the first approval gives a time to review no longer than the time to approve |
| MeasureReviewTime.ListOptionsFor | application/usecase/measure_review_time.go:33-40 | the list request is sorted by creation, newest first, 100 per page, and carries the caller's state and date window unchanged |
| MeasureReviewTime.Execute | application/usecase/measure_review_time.go:30-53 | a failed listing is returned wrapped as "failed to list pull requests"; otherwise there is one metric per listed pull request, in order, each `CalculateMetrics` of it |
| GitHubClient.BuildQuery | infra/github/client.go:38-60 | the query is the terms joined by single spaces and always begins with `repo:owner/repo is:pr` |
| GitHubClient.AppendTerm | infra/github/client.go:41-60 | appending ` term` to a joined query is joining one more term |
| GitHubClient.QueryHead | infra/github/client.go:39 | the joined query begins with `repo:owner/repo is:pr` whatever the options |
| GitHubClient.QueryTermsShape | infra/github/client.go:39-60 | the terms are the repository, `is:pr`, `is:closed`/`is:open` exactly when the state is that value, and then one date term chosen by which bounds are present |
| GitHubClient.QueryTermsHaveNoSpace | infra/github/client.go:39-60 | no term holds a space when the owner, the repository and the rendered dates hold none |
| GitHubClient.QueryFilters | infra/github/client.go:39-60 | read back at its spaces, the query gives exactly those terms: the repository, then `is:pr`, then the state filter exactly for "closed" or "open", then the date filter |
| GitHubClient.PageSize | infra/github/client.go:65-68 | the page size is the option's value when non-zero and 100 when it is 0, so never 0 |
| GitHubClient.ConvertToDomainEntity | infra/github/client.go:377-398 | every nil field becomes its Go zero value: 0 for id and number, the empty string for title, state and author (also for a nil user), the zero `time.Time` for creation; merge and close times are copied, absent ones stay absent; the review instants and review duration start absent |
| GitHubClient.Earliest | infra/github/client.go:346-356 | the running minimum is absent exactly for no candidates; otherwise it is one of them and no later than any |
| GitHubClient.EarliestAppend | infra/github/client.go:351-353 | one more candidate replaces the minimum exactly when it is strictly earlier |
| GitHubClient.EarliestBySet | infra/github/client.go:346-356 | the minimum depends only on the set of candidates, not on their order or repetition |
| GitHubClient.RequestTimesMembers | infra/github/client.go:347-355 | the candidate instants are exactly the creation times of the `review_requested` events that have one |
| GitHubClient.FirstReviewRequestIsEarliest | infra/github/client.go:346-356 | no first request exactly when no event is a timed `review_requested`; otherwise it is the earliest of those events' times |
| GitHubClient.FirstReviewRequestBySet | infra/github/client.go:316-356 | the first request depends only on which events the timeline holds, not on their page order |
| GitHubClient.GetFirstReviewRequestTime | infra/github/client.go:326-356 | a failed timeline fetch is returned as the error; otherwise the scan yields the first review request |
| GitHubClient.KeptMembers | infra/github/client.go:253-282 | a review's state and time are kept exactly when it is eligible: a state that is present, non-empty and not PENDING; an author who is not a Bot; a submission not before the request |
| GitHubClient.TimesMembers | infra/github/client.go:296-304 | the scanned times are those of the kept reviews, and the approval times those of the kept APPROVED reviews |
| GitHubClient.FirstReviewIsEarliestEligible | infra/github/client.go:253-306 | no first review exactly when no review is eligible; otherwise it is the submission time of an eligible review, no later than any eligible one |
| GitHubClient.FirstApproveIsEarliestApproval | infra/github/client.go:253-306 | no first approval exactly when no eligible review is APPROVED; otherwise it is the earliest eligible approval |
| GitHubClient.ReviewNoLaterThanApproval | infra/github/client.go:297-304 | a first approval implies a first review no later than it |
| GitHubClient.ReviewsOrderIndependent | infra/github/client.go:254-306 | the first review and first approval do not depend on the order in which the reviews arrive |
| GitHubClient.InfoTimesBySet | infra/github/client.go:291-304 | the earliest kept time and earliest approval depend only on the set of kept reviews |
| GitHubClient.IneligibleReviewIgnored | infra/github/client.go:255-275 | adding a pending, stateless, bot or pre-request review changes neither result |
| GitHubClient.SortedCons | infra/github/client.go:292-294 | an element no later than every element of a sorted list stays sorted in front of it |
| GitHubClient.SortedHeadIsLeast | infra/github/client.go:292-294 | an instant no later than the head of a sorted list is no later than any element |
| GitHubClient.InsertedAboveHead | infra/github/client.go:292-294 | inserting an element later than the head keeps the head the least |
| GitHubClient.InsertByTime | infra/github/client.go:292-294 | inserting into a sorted list keeps it sorted by time and adds exactly that element |
| GitHubClient.SortByTime | infra/github/client.go:292-294 | the sort yields a list sorted by submission time that is a permutation of its input |
| GitHubClient.SortedFirstIsEarliest | infra/github/client.go:297-300 | in a sorted list the first element's time is the earliest time |
| GitHubClient.SortedFirstApprovedIsEarliest | infra/github/client.go:301-303 | in a sorted list the first APPROVED element's time is the earliest approval time |
| GitHubClient.FilterReviews | infra/github/client.go:253-282 | the loop keeps the eligible reviews' state and time, in input order |
| GitHubClient.ScanFirsts | infra/github/client.go:296-304 | over a sorted list the scan yields the earliest time and the earliest approval time |
| GitHubClient.GetReviews | infra/github/client.go:237-306 | a failed review fetch is returned as the error; otherwise the first review and first approval among the eligible reviews |
| GitHubClient.Enriched | infra/github/client.go:141-175 | a failed detail fetch or review fetch is fatal; the result is a pull request exactly when both succeed; a failed timeline leaves the review request absent |
| GitHubClient.TimelineFailureDegrades | infra/github/client.go:155-166 | a failed timeline fetch gives the same result as a timeline without requests, and the metrics are then measured from creation |
| GitHubClient.EnrichedMetricsConsistent | infra/github/client.go:153-173 | for an enriched pull request, an approval implies a review whose latency is no longer than the approval's; when a request was found, neither latency is negative |
| GitHubClient.ExampleRequest | infra/github/client.go:346-356 | in the worked example the first review request is one day after creation |
| GitHubClient.ExampleFirsts | infra/github/client.go:253-306 | in the worked example the comment before the request never counts; the first review is the day-two comment, or the day-three approval when that comment is a bot's; the first approval is on day three |
| GitHubClient.ExampleOneReview | infra/github/client.go:296-304 | a single kept approval is both the first review and the first approval |
| GitHubClient.ExampleTwoReviews | infra/github/client.go:296-304 | a comment followed by an approval gives the comment as first review and the approval as first approval |
| GitHubClient.ExampleLatencies | infra/github/client.go:153-173 | in the worked example the time to review is 24h (48h when the comment is a bot's), the time to approve 48h and the total 72h, all measured from the request |
| GitHubClient.Enrich | infra/github/client.go:141-175 | the enrichment steps (convert, review request, reviews) yield exactly `Enriched` of the answers |
| GitHubClient.List | infra/github/client.go:37-179 | the search gets the built query and page size; a failed search is returned; otherwise success exactly when every found issue enriches; then one pull request per issue, in order; else the error of the first issue that fails |
| GitHubClient.Get | infra/github/client.go:181-228 | a failed detail fetch is returned; the result is the enrichment of that number's answers |
| PrinterCommon.GoDiv | infra/printer/common.go:10 | the quotient truncates toward zero: the remainder has the dividend's sign and is smaller than the divisor |
| PrinterCommon.GoMod | infra/printer/common.go:11 | the remainder has the dividend's sign and is smaller in size than the divisor |
| PrinterCommon.DaysThreshold | infra/printer/common.go:9-13 | the day count is positive exactly from 24 hours on |
| PrinterCommon.FormatCounts | infra/printer/common.go:9-20 | the text holds only digits, '-', units and spaces, and ends in 'h' exactly when there is at least one whole day |
| PrinterCommon.FormatDuration | infra/printer/common.go:8-21 | the rendered latency holds only digits, '-', 'd', 'h', 'm' and spaces, and ends in 'h' (the days form) exactly from 24 hours on |
| PrinterCommon.NonNegativeCounts | infra/printer/common.go:9-20 | for a non-negative latency Go's truncated counts equal the plain quotients |
| PrinterCommon.FormatDays | infra/printer/common.go:13-15 | from 24 hours on, the text is whole days then leftover hours: `Nd Mh` |
| PrinterCommon.FormatHours | infra/printer/common.go:16-19 | from one hour to under a day, the text is whole hours then minutes past the hour: `Nh Mm` |
| PrinterCommon.FormatMinutes | infra/printer/common.go:20 | under an hour, the text is the whole minutes: `Nm` |
| PrinterCommon.FormatNegative | infra/printer/common.go:8-21 | a negative latency always takes the minutes form: minus the whole minutes, or `0m` when less than a minute short |
| PrinterCommon.FormatTwoHoursEarly | infra/printer/common.go:8-21 | minus two hours renders as `-120m` |
| PrinterCommon.FormatNinetyMinutes | infra/printer/common.go:8-21 | ninety minutes renders as `1h 30m` |
| PrinterCommon.FormatFourDays | infra/printer/common.go:8-21 | four days renders as `4d 0h` |
| PrinterCommon.TruncateString | infra/printer/common.go:23-28 | a string within the limit is unchanged; a longer one keeps its first limit-3 bytes followed by `...`, and is exactly the limit long |
| PrinterCommon.TruncateIdempotent | infra/printer/common.go:23-28 | the result never exceeds the limit, and truncating it again changes nothing |
| PrinterCommon.DurationCell | infra/printer/csv.go:29-37 | a latency cell is the rendered duration when present, else the placeholder |
| PrinterCommon.PlaceholderIsDistinct | infra/printer/table.go:48-56 | the `N/A` and empty placeholders appear exactly for absent latencies |
| Text.IntToString | infra/printer/csv.go:42-43 | `%d` yields digits, led by '-' exactly for negative numbers |
| Text.IntToStringRoundTrip | infra/printer/csv.go:42-43 | the `%d` text reads back as the same number, so distinct numbers print distinctly |
| Text.IntToStringInjective | infra/printer/csv.go:42-43 | two numbers with the same `%d` text are equal |
| PrinterCsv.ReplaceAll | infra/printer/csv.go:39-40 | a one-byte `strings.ReplaceAll` keeps the length and replaces exactly the matching bytes |
| PrinterCsv.SanitizeTitle | infra/printer/csv.go:39-40 | the title has no comma or double quote left; commas become ';' and quotes become '\'', and nothing else changes |
| PrinterCsv.CsvLineSplits | infra/printer/csv.go:42-49 | a line whose fields hold no comma splits at its commas back into those six fields |
| PrinterCsv.RowSplitsIntoFields | infra/printer/csv.go:26-49 | when the author and creation time have no comma, a row reads back as exactly six fields in header order: number, quoted title, author, creation, time to review, time to approve (empty when absent) |
| PrinterCsv.Rows | infra/printer/csv.go:26-50 | one row per metric, in order |
| PrinterCsv.CSVPrinter.constructor | infra/printer/csv.go:17-21 | a new printer has written nothing |
| PrinterCsv.CSVPrinter.Print | infra/printer/csv.go:23-53 | the output gains the header, even with no metrics, and then one row per metric in order, and nothing else |
| PrinterTable.Line | infra/printer/table.go:32-33 | an aligned line is the sum of the column widths plus the length of the last cell |
| PrinterTable.OffsetStep | infra/printer/table.go:32-33 | each column starts where the previous one ends |
| PrinterTable.LineColumn | infra/printer/table.go:32-33 | column j of a line, between its offsets, is the cell padded with spaces to the column width |
| PrinterTable.LineLastCell | infra/printer/table.go:32-33 | the last cell is written unpadded after the last offset |
| PrinterTable.MaxWidth | infra/printer/table.go:32-33 | a column's width is at least every cell's length and is reached by some cell |
| PrinterTable.Widths | infra/printer/table.go:32-33 | each column width is the widest cell plus the padding of 2 |
| PrinterTable.Align | infra/printer/table.go:32-33 | one aligned line per buffered row, all with the same column widths |
| PrinterTable.ColumnsAligned | infra/printer/table.go:32-66 | every column starts at the same offset in every line; it holds the cell followed only by spaces; at least two spaces separate it from the next column |
| PrinterTable.ColumnsTight | infra/printer/table.go:32-66 | each column is exactly two wider than its widest cell |
| PrinterTable.TableTitle | infra/printer/table.go:43-46 | a title longer than 60 bytes becomes its first 57 bytes and `...`; the cell never exceeds 60 bytes |
| PrinterTable.RowCells | infra/printer/table.go:40-65 | each pull request gives six cells, matching the header |
| PrinterTable.RowCellsBounded | infra/printer/table.go:43-65 | the cells are the `%d` number, `truncateString(author, 20)`, the formatted creation time, each latency's `formatDuration` or `N/A`, and the title truncated to 60; the author cell is at most 20 bytes and the title at most 60; a latency cell reads `N/A` exactly when the latency is absent |
| PrinterTable.BodyRows | infra/printer/table.go:40-66 | one row of cells per metric, in order |
| PrinterTable.TableRows | infra/printer/table.go:36-66 | the buffer holds the header, the rule, then one row per metric, every row with six cells |
| PrinterTable.BufferRows | infra/printer/table.go:36-66 | the loop buffers exactly the header, rule and metric rows |
| PrinterTable.TablePrinter.constructor | infra/printer/table.go:17-21 | a new printer has written nothing |
| PrinterTable.TablePrinter.Print | infra/printer/table.go:23-70 | with no metrics, only "No pull requests found"; otherwise a blank line, the report title, two blank lines, then the aligned table |

## Left out

- The HTTP layer is not modelled. The go-github client, its pagination loops
  (`client.go:70-123`, `client.go:319-337`), rate limits and `context`
  cancellation are outside the model. The search and the timeline are
  parameters holding every page already concatenated, as those loops
  collect them.
- GitHubClient.GetReviews: `IssueData.reviews` is only the first page of
  reviews. `client.go:237` calls `ListReviews` once with nil options and
  never follows `resp.NextPage`. With GitHub's default page size of 30, a
  31st or later review never reaches the filter, so an approval there leaves
  the first approval absent. The model takes that single page as given, so
  it inherits this limit.
- Logging (`slog`) is left out because it has no effect on the results.
- `infra/printer/json.go`, `cmd/measure/main.go` (flag parsing, choosing a
  printer, parsing the `-since` date and fixing the state filter to
  "closed") and `domain/repository/printer.go` (the
  interface only) are not part of this model.
- `time.Format` is an opaque parameter. Layouts, time zones and calendars are
  left to Go's `time` package.
- PrinterCommon.FormatDuration: the counts are exact integer truncations of
  the nanosecond count. Go reaches them through `float64` (`d.Hours()`,
  `d.Minutes()`), whose sum of whole units and fraction can round up to the
  next unit. The two differ only when the nanosecond remainder is within a
  few ns of a whole hour or minute, from about 171 days on. At 4097h minus
  1ns, for example, Go prints "170d 17h" and the model "170d 16h". They never
  differ for the whole-second instants GitHub returns.
- PrinterCommon.TruncateString: its requires excludes `maxLen < 3` on a
  longer string, where the Go slice expression panics. The callers pass only
  20 and 60.
- PrinterTable.Align: the `text/tabwriter` model covers the configuration
  `(minwidth 0, tabwidth 0, padding 2, padchar ' ', flags 0)` and rows of
  equal cell count. It measures a cell in bytes, where tabwriter counts UTF-8
  runes, so widths differ for non-ASCII text. It assumes no tab or newline
  inside a cell; a title or login holding one would break the table.
- GitHubClient.SortByTime: Go's `sort.Slice` is not stable, while the model
  sorts stably by insertion. Only the instants are read after the sort, so
  the two give the same first review and first approval; that is what
  `GitHubClient.ReviewsOrderIndependent` and `GitHubClient.ScanFirsts` state.
- GitHubClient.List: the model fetches the timeline and the reviews by the
  issue number the search found. Go uses `*pr.Number` from the fetched
  detail, which GitHub gives the same value for a pull request.
- GitHubClient.List: the nil-pointer panics of `*issue.Number` and
  `*pr.Number` are not modelled.
- Pointer identity is not modelled. `ReviewMetrics.PullRequest` is a pointer
  in Go and a value here.
- `PullRequest.ReviewDuration` is carried along but never set, as in the
  source.
- Both printers' `Print` return `error`, always `nil`, and ignore write
  errors. The model's `Print` methods return nothing.
- Printing a pull request's owner and repository: the CSV printer ignores
  them in the source too.
