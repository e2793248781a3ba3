/** infra/printer/table.go: a report title, then the metrics as a table whose
    columns `text/tabwriter` aligns. The writer is the sequence of lines
    written so far. */
module PrinterTable {
  import opened Text
  import opened Entity
  import opened PrinterCommon

  const NoPullRequests := "No pull requests found"
  const CreatedLayout := "2006-01-02 15:04"
  /** The tabwriter's padding: the gap after the widest cell of a column. */
  const Padding := 2
  const MaxTitle := 60
  const MaxAuthor := 20

  const HeaderCells := ["PR #", "Author", "Created", "Time to Review", "Time to Approve", "Title"]
  const RuleCells := ["----", "------", "-------", "--------------", "---------------", "-----"]

  function ReportTitle(owner: string, repo: string): string {
    "=== PR Review Time Report for " + owner + "/" + repo + " ==="
  }

  // ---------------------------------------------------------------------
  // Column alignment, as `tabwriter.NewWriter(w, 0, 0, 2, ' ', 0)` does it
  // for lines that all hold the same number of tab-separated cells.
  // ---------------------------------------------------------------------

  function Spaces(n: nat): (s: string)
    ensures |s| == n && forall i :: 0 <= i < n ==> s[i] == ' '
  {
    seq(n, _ => ' ')
  }

  /** A cell followed by spaces up to its column's width. */
  function Pad(cell: string, width: nat): (p: string)
    requires |cell| <= width
    ensures |p| == width
  {
    cell + Spaces(width - |cell|)
  }

  /** Where column `j` starts: the widths of the columns before it. */
  function Offset(widths: seq<nat>, j: nat): nat
    requires j <= |widths|
  {
    if j == 0 then 0 else widths[0] + Offset(widths[1..], j - 1)
  }

  /** One output line: every cell but the last padded to its column's width,
      the last written as it is. */
  function Line(cells: seq<string>, widths: seq<nat>): (line: string)
    requires |cells| == |widths| + 1
    requires forall j :: 0 <= j < |widths| ==> |cells[j]| <= widths[j]
    ensures |line| == Offset(widths, |widths|) + |cells[|widths|]|
  {
    if |widths| == 0 then cells[0]
    else Pad(cells[0], widths[0]) + Line(cells[1..], widths[1..])
  }

  /** Column `j` ends where column `j + 1` starts. */
  lemma {:induction false} OffsetStep(widths: seq<nat>, j: nat)
    requires j < |widths|
    ensures Offset(widths, j) + widths[j] == Offset(widths, j + 1)
  {
    if j > 0 {
      OffsetStep(widths[1..], j - 1);
    }
  }

  /** A slice past the first part of a concatenation is a slice of the
      second part. */
  lemma SliceAfter(front: string, back: string, lo: nat, hi: nat)
    requires lo <= hi <= |back|
    ensures (front + back)[|front| + lo..|front| + hi] == back[lo..hi]
  {
  }

  /** Column `j` of a line lies between its offsets: the cell, then spaces. */
  lemma {:induction false} LineColumn(cells: seq<string>, widths: seq<nat>, j: nat)
    requires |cells| == |widths| + 1
    requires forall k :: 0 <= k < |widths| ==> |cells[k]| <= widths[k]
    requires j < |widths|
    ensures Offset(widths, j) <= Offset(widths, j + 1) <= |Line(cells, widths)|
    ensures Line(cells, widths)[Offset(widths, j)..Offset(widths, j + 1)] == Pad(cells[j], widths[j])
  {
    var pad := Pad(cells[0], widths[0]);
    var rest := Line(cells[1..], widths[1..]);
    assert Line(cells, widths) == pad + rest;
    if j == 0 {
      assert Offset(widths, 1) == |pad|;
      SliceAfter([], pad + rest, 0, |pad|);
    } else {
      LineColumn(cells[1..], widths[1..], j - 1);
      var lo := Offset(widths[1..], j - 1);
      var hi := Offset(widths[1..], j);
      assert Offset(widths, j) == |pad| + lo;
      assert Offset(widths, j + 1) == |pad| + hi;
      SliceAfter(pad, rest, lo, hi);
    }
  }

  /** The last cell of a line starts where the padded columns end. */
  lemma {:induction false} LineLastCell(cells: seq<string>, widths: seq<nat>)
    requires |cells| == |widths| + 1
    requires forall k :: 0 <= k < |widths| ==> |cells[k]| <= widths[k]
    ensures Line(cells, widths)[Offset(widths, |widths|)..] == cells[|widths|]
  {
    if |widths| > 0 {
      var pad := Pad(cells[0], widths[0]);
      var rest := Line(cells[1..], widths[1..]);
      assert Line(cells, widths) == pad + rest;
      LineLastCell(cells[1..], widths[1..]);
      assert (pad + rest)[|pad| + Offset(widths[1..], |widths| - 1)..]
        == rest[Offset(widths[1..], |widths| - 1)..];
    }
  }

  /** The widest cell of column `j`. */
  function MaxWidth(rows: seq<seq<string>>, j: nat): (w: nat)
    requires forall i :: 0 <= i < |rows| ==> j < |rows[i]|
    ensures forall i :: 0 <= i < |rows| ==> |rows[i][j]| <= w
    ensures |rows| == 0 ==> w == 0
    ensures |rows| > 0 ==> exists i :: 0 <= i < |rows| && |rows[i][j]| == w
  {
    if |rows| == 0 then 0
    else
      var before := MaxWidth(rows[..|rows| - 1], j);
      var last := |rows[|rows| - 1][j]|;
      if before < last then last else before
  }

  predicate Rectangular(rows: seq<seq<string>>, n: nat) {
    forall i :: 0 <= i < |rows| ==> |rows[i]| == n + 1
  }

  /** Each of the first `n` columns is as wide as its widest cell plus the
      padding. */
  function Widths(rows: seq<seq<string>>, n: nat): (widths: seq<nat>)
    requires Rectangular(rows, n)
    ensures |widths| == n
    ensures forall j :: 0 <= j < n ==> widths[j] == MaxWidth(rows, j) + Padding
  {
    seq(n, j requires 0 <= j < n => MaxWidth(rows, j) + Padding)
  }

  /** The lines the tabwriter emits on `Flush` for a block of rows. */
  function Align(rows: seq<seq<string>>, n: nat): (lines: seq<string>)
    requires Rectangular(rows, n)
    ensures |lines| == |rows|
    ensures forall i :: 0 <= i < |rows| ==> lines[i] == Line(rows[i], Widths(rows, n))
  {
    var widths := Widths(rows, n);
    seq(|rows|, i requires 0 <= i < |rows| => Line(rows[i], widths))
  }

  /** The aligned table lines up: in every line, column `j` occupies the same
      byte range, holds that row's cell followed only by spaces, and leaves at
      least the padding between the cell and the next column; the last cell
      starts at the same place in every line. */
  lemma ColumnsAligned(rows: seq<seq<string>>, n: nat, i: nat, j: nat)
    requires Rectangular(rows, n)
    requires i < |rows| && j < n
    ensures var widths := Widths(rows, n);
      && Offset(widths, j) + widths[j] == Offset(widths, j + 1)
      && Offset(widths, j + 1) <= |Align(rows, n)[i]|
      && |Align(rows, n)[i]| == Offset(widths, n) + |rows[i][n]|
      && Align(rows, n)[i][Offset(widths, j)..Offset(widths, j + 1)]
         == rows[i][j] + Spaces(widths[j] - |rows[i][j]|)
      && widths[j] - |rows[i][j]| >= Padding
      && Align(rows, n)[i][Offset(widths, n)..] == rows[i][n]
  {
    var widths := Widths(rows, n);
    assert Align(rows, n)[i] == Line(rows[i], widths);
    OffsetStep(widths, j);
    LineColumn(rows[i], widths, j);
    LineLastCell(rows[i], widths);
  }

  /** Every column is exactly as wide as it must be: some cell of it is
      followed by the padding alone. */
  lemma ColumnsTight(rows: seq<seq<string>>, n: nat, j: nat)
    requires Rectangular(rows, n)
    requires |rows| > 0 && j < n
    ensures exists i :: 0 <= i < |rows| && Widths(rows, n)[j] == |rows[i][j]| + Padding
  {
    var w := MaxWidth(rows, j);
    var i :| 0 <= i < |rows| && |rows[i][j]| == w;
    assert Widths(rows, n)[j] == |rows[i][j]| + Padding;
  }

  // ---------------------------------------------------------------------
  // The report.
  // ---------------------------------------------------------------------

  /** The title column: the title when it fits in 60 bytes, else its first
      57 bytes and "..."; the same as `truncateString(title, 60)`. */
  function TableTitle(title: string): (t: string)
    ensures |t| <= MaxTitle
    ensures t == TruncateString(title, MaxTitle)
  {
    if |title| > MaxTitle then title[..MaxTitle - 3] + "..." else title
  }

  /** The cells of one pull request's row, in header order. */
  function RowCells(m: ReviewMetrics, format: TimeFormat): (cells: seq<string>)
    ensures |cells| == |HeaderCells|
  {
    var pr := m.pullRequest;
    [IntToString(pr.number), TruncateString(pr.author, MaxAuthor),
     format(pr.createdAt, CreatedLayout),
     DurationCell(m.timeToReview, "N/A"), DurationCell(m.timeToApprove, "N/A"),
     TableTitle(pr.title)]
  }

  /** One row of cells per metric, in order. */
  function BodyRows(metrics: seq<ReviewMetrics>, format: TimeFormat): (rows: seq<seq<string>>)
    ensures |rows| == |metrics|
    ensures forall i :: 0 <= i < |metrics| ==> rows[i] == RowCells(metrics[i], format)
  {
    if |metrics| == 0 then []
    else BodyRows(metrics[..|metrics| - 1], format) + [RowCells(metrics[|metrics| - 1], format)]
  }

  /** The header, the rule, then one row per metric in order. */
  function TableRows(metrics: seq<ReviewMetrics>, format: TimeFormat): (rows: seq<seq<string>>)
    ensures |rows| == |metrics| + 2 && Rectangular(rows, 5)
    ensures rows[0] == HeaderCells && rows[1] == RuleCells
    ensures forall i :: 0 <= i < |metrics| ==> rows[i + 2] == RowCells(metrics[i], format)
  {
    [HeaderCells, RuleCells] + BodyRows(metrics, format)
  }

  /** The cells of a row hold, in header order: the number, the author login
      truncated to 20 bytes, the creation time, each latency rendered or "N/A"
      exactly when absent, and the title truncated to 60 bytes. */
  lemma RowCellsBounded(m: ReviewMetrics, format: TimeFormat)
    ensures var cells := RowCells(m, format);
      && cells[0] == IntToString(m.pullRequest.number)
      && cells[1] == TruncateString(m.pullRequest.author, MaxAuthor)
      && cells[2] == format(m.pullRequest.createdAt, CreatedLayout)
      && cells[3] == DurationCell(m.timeToReview, "N/A")
      && cells[4] == DurationCell(m.timeToApprove, "N/A")
      && cells[5] == TableTitle(m.pullRequest.title)
      && |cells[1]| <= MaxAuthor
      && |cells[5]| <= MaxTitle
      && (cells[3] == "N/A" <==> m.timeToReview.None?)
      && (cells[4] == "N/A" <==> m.timeToApprove.None?)
  {
    PlaceholderIsDistinct(m.timeToReview);
    PlaceholderIsDistinct(m.timeToApprove);
  }

  /** The loop of `Print` writing into the tabwriter, which holds every
      row back until `Flush`: the header, the rule, then one row per metric
      in order. */
  method BufferRows(metrics: seq<ReviewMetrics>, format: TimeFormat) returns (pending: seq<seq<string>>)
    ensures pending == TableRows(metrics, format)
  {
    pending := [HeaderCells, RuleCells];
    for i := 0 to |metrics|
      invariant pending == [HeaderCells, RuleCells] + BodyRows(metrics[..i], format)
    {
      var metric := metrics[i];
      assert metrics[..i + 1][..i] == metrics[..i];
      pending := pending + [RowCells(metric, format)];
    }
    assert metrics[..|metrics|] == metrics;
  }

  class TablePrinter {
    /** Everything written to the output so far, one entry per line. */
    var written: seq<string>

    constructor ()
      ensures written == []
    {
      written := [];
    }

    /** `(*TablePrinter).Print`. With no metrics, the one line "No pull
        requests found". Otherwise a blank line, the report title and a blank
        line; then the blank line of the final `Fprintln`, which goes straight
        to the output while the table is still held by the tabwriter; then,
        when the deferred `Flush` runs on return, the aligned table. */
    method Print(owner: string, repo: string, metrics: seq<ReviewMetrics>, format: TimeFormat)
      modifies this
      ensures |metrics| == 0 ==> written == old(written) + [NoPullRequests]
      ensures |metrics| > 0 ==> written == old(written) + ["", ReportTitle(owner, repo), "", ""]
                                          + Align(TableRows(metrics, format), 5)
    {
      if |metrics| == 0 {
        written := written + [NoPullRequests];
        return;
      }

      var title := ReportTitle(owner, repo);
      written := written + ["", title, ""];
      var pending := BufferRows(metrics, format);
      // The final blank line goes straight to the output; the deferred
      // `Flush` then emits the table.
      written := written + [""];
      written := written + Align(pending, 5);
    }
  }
}
