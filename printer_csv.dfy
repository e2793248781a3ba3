/** infra/printer/csv.go: one header line, then one comma-separated line per
    pull request. The writer is the sequence of lines written so far. */
module PrinterCsv {
  import opened Text
  import opened Entity
  import opened PrinterCommon

  const Header := "PR_Number,Title,Author,Created_At,Time_To_Review,Time_To_Approve"
  const CreatedLayout := "2006-01-02 15:04:05"

  /** `strings.ReplaceAll` for a one-byte pattern and replacement. */
  function ReplaceAll(s: string, from: char, to: char): (r: string)
    ensures |r| == |s|
    ensures forall i :: 0 <= i < |s| ==> r[i] == if s[i] == from then to else s[i]
  {
    if s == [] then [] else [if s[0] == from then to else s[0]] + ReplaceAll(s[1..], from, to)
  }

  /** The title as the CSV line holds it: commas become ';' and double quotes
      become single quotes, so that neither can end the quoted field; every
      other byte and the length are kept. */
  function SanitizeTitle(title: string): (t: string)
    ensures ',' !in t && '"' !in t
    ensures |t| == |title|
    ensures forall i :: 0 <= i < |title| ==>
      t[i] == (if title[i] == ',' then ';' else if title[i] == '"' then '\'' else title[i])
  {
    var title' := ReplaceAll(title, ',', ';');
    ReplaceAll(title', '"', '\'')
  }

  /** The format `%d,"%s",%s,%s,%s,%s` applied to six rendered fields. */
  function CsvLine(number: string, title: string, author: string, created: string,
                   review: string, approve: string): string
  {
    number + ",\"" + title + "\"," + author + "," + created + "," + review + "," + approve
  }

  /** The line `Print` writes for one pull request. */
  function Row(m: ReviewMetrics, format: TimeFormat): string {
    var pr := m.pullRequest;
    CsvLine(IntToString(pr.number), SanitizeTitle(pr.title), pr.author,
            format(pr.createdAt, CreatedLayout),
            DurationCell(m.timeToReview, ""), DurationCell(m.timeToApprove, ""))
  }

  /** The fields of a row, in header order. */
  function RowFields(m: ReviewMetrics, format: TimeFormat): seq<string> {
    var pr := m.pullRequest;
    [IntToString(pr.number), "\"" + SanitizeTitle(pr.title) + "\"", pr.author,
     format(pr.createdAt, CreatedLayout),
     DurationCell(m.timeToReview, ""), DurationCell(m.timeToApprove, "")]
  }

  /** Six fields joined at a separator, written out. */
  lemma JoinSix(a: string, b: string, c: string, d: string, e: string, g: string, sep: char)
    ensures Join([a, b, c, d, e, g], sep)
      == a + [sep] + b + [sep] + c + [sep] + d + [sep] + e + [sep] + g
  {
    var f := [a, b, c, d, e, g];
    assert f[5..] == [g];
    assert f[4..][1..] == f[5..];
    assert Join(f[4..], sep) == e + [sep] + g;
    assert f[3..][1..] == f[4..];
    assert Join(f[3..], sep) == d + [sep] + (e + [sep] + g);
    assert f[2..][1..] == f[3..];
    assert Join(f[2..], sep) == c + [sep] + (d + [sep] + (e + [sep] + g));
    assert f[1..][1..] == f[2..];
    assert Join(f[1..], sep) == b + [sep] + (c + [sep] + (d + [sep] + (e + [sep] + g)));
    assert Join(f, sep) == a + [sep] + (b + [sep] + (c + [sep] + (d + [sep] + (e + [sep] + g))));
  }

  /** A line whose fields hold no comma of their own splits back into them,
      the title with its quotes. */
  lemma CsvLineSplits(number: string, title: string, author: string, created: string,
                      review: string, approve: string)
    requires ',' !in number && ',' !in title && ',' !in author && ',' !in created
    requires ',' !in review && ',' !in approve
    ensures Split(CsvLine(number, title, author, created, review, approve), ',')
      == [number, "\"" + title + "\"", author, created, review, approve]
  {
    var quoted := "\"" + title + "\"";
    assert ',' !in quoted by {
      assert forall k :: 0 <= k < |quoted| ==> quoted[k] == '"' || quoted[k] in title;
    }
    var f := [number, quoted, author, created, review, approve];
    JoinSix(number, quoted, author, created, review, approve, ',');
    assert CsvLine(number, title, author, created, review, approve) == Join(f, ',');
    SplitJoin(f, ',');
  }

  /** Read back at its commas, a row gives exactly the six header fields:
      the number first, the title quoted (the sanitising keeps its commas
      from splitting it), and an empty field for each absent latency. This
      holds whenever the author login and the rendered creation time hold
      no comma. */
  lemma RowSplitsIntoFields(m: ReviewMetrics, format: TimeFormat)
    requires ',' !in m.pullRequest.author
    requires ',' !in format(m.pullRequest.createdAt, CreatedLayout)
    ensures Split(Row(m, format), ',') == RowFields(m, format)
    ensures |Split(Row(m, format), ',')| == 6
  {
    var pr := m.pullRequest;
    var number := IntToString(pr.number);
    assert ',' !in number by {
      assert forall k :: 0 <= k < |number| ==> IsDigit(number[k]) || number[k] == '-';
    }
    var review := DurationCell(m.timeToReview, "");
    assert ',' !in review by {
      assert forall k :: 0 <= k < |review| ==> IsDurationChar(review[k]);
    }
    var approve := DurationCell(m.timeToApprove, "");
    assert ',' !in approve by {
      assert forall k :: 0 <= k < |approve| ==> IsDurationChar(approve[k]);
    }
    CsvLineSplits(number, SanitizeTitle(pr.title), pr.author, format(pr.createdAt, CreatedLayout),
                  review, approve);
  }

  /** `render` applied to each element, in order. */
  function MapLines<T>(render: T -> string, xs: seq<T>): (lines: seq<string>)
    ensures |lines| == |xs|
    ensures forall i :: 0 <= i < |xs| ==> lines[i] == render(xs[i])
  {
    if |xs| == 0 then [] else MapLines(render, xs[..|xs| - 1]) + [render(xs[|xs| - 1])]
  }

  /** The rows for a list of metrics, one per metric and in order. */
  function Rows(metrics: seq<ReviewMetrics>, format: TimeFormat): (rows: seq<string>)
    ensures |rows| == |metrics|
    ensures forall i :: 0 <= i < |metrics| ==> rows[i] == Row(metrics[i], format)
  {
    MapLines(m => Row(m, format), metrics)
  }

  class CSVPrinter {
    /** Everything written to the output so far, one entry per line. */
    var written: seq<string>

    constructor ()
      ensures written == []
    {
      written := [];
    }

    /** `(*CSVPrinter).Print`: the header, even for no metrics, then one row
        per metric in order; the owner and repository are not printed. */
    method Print(owner: string, repo: string, metrics: seq<ReviewMetrics>, format: TimeFormat)
      modifies this
      ensures written == old(written) + [Header] + Rows(metrics, format)
    {
      written := written + [Header];
      ghost var render := m => Row(m, format);
      for i := 0 to |metrics|
        invariant written == old(written) + [Header] + MapLines(render, metrics[..i])
      {
        var metric := metrics[i];
        assert metrics[..i + 1][..i] == metrics[..i];
        written := written + [Row(metric, format)];
      }
      assert metrics[..|metrics|] == metrics;
    }
  }
}
