/** infra/printer/common.go: rendering a latency and shortening a string,
    shared by the table and CSV printers. */
module PrinterCommon {
  import opened Wrappers
  import opened Text
  import opened Entity

  /** Go's integer `/` for a positive divisor: the quotient truncated toward
      zero, so that the remainder takes the sign of the dividend. */
  function GoDiv(a: int, b: int): (q: int)
    requires b > 0
    ensures a >= 0 ==> 0 <= a - q * b < b
    ensures a < 0 ==> -b < a - q * b <= 0
  {
    if a >= 0 then a / b else -((-a) / b)
  }

  /** Go's integer `%` for a positive divisor. */
  function GoMod(a: int, b: int): (m: int)
    requires b > 0
    ensures a >= 0 ==> 0 <= m < b
    ensures a < 0 ==> -b < m <= 0
  {
    a - GoDiv(a, b) * b
  }

  predicate IsDurationChar(c: char) {
    IsDigit(c) || c == '-' || c == 'd' || c == 'h' || c == 'm' || c == ' '
  }

  predicate IsDurationText(s: string) {
    forall i :: 0 <= i < |s| ==> IsDurationChar(s[i])
  }

  /** A count, a unit and its trailing separator, as one part of the text. */
  function Part(n: int, suffix: string): (s: string)
    requires IsDurationText(suffix)
    ensures IsDurationText(s) && |s| == |IntToString(n)| + |suffix|
  {
    var digits := IntToString(n);
    assert IsDurationText(digits);
    digits + suffix
  }

  /** The truncated day count is positive exactly from 24 hours on. */
  lemma DaysThreshold(d: int)
    ensures GoDiv(GoDiv(d, Hour), 24) > 0 <==> d >= 24 * Hour
  {
    if d >= 0 {
      assert GoDiv(d, Hour) == d / Hour;
      assert d / Hour >= 24 <==> d >= 24 * Hour;
    } else {
      assert GoDiv(d, Hour) <= 0;
    }
  }

  /** The text `formatDuration` builds from the truncated whole hours and
      whole minutes of a duration: days and hours when the hours make at
      least one day, else hours and minutes when there is at least one hour
      left, else the minutes alone. The text ends in 'h' exactly in the days
      form. */
  function FormatCounts(totalHours: int, totalMinutes: int): (s: string)
    ensures |s| >= 2
    ensures IsDurationText(s)
    ensures s[|s| - 1] == 'h' <==> GoDiv(totalHours, 24) > 0
  {
    var days := GoDiv(totalHours, 24);
    var hours := GoMod(totalHours, 24);
    if days > 0 then
      var s := Part(days, "d ") + Part(hours, "h");
      assert s[|s| - 1] == 'h';
      s
    else if hours > 0 then
      var s := Part(hours, "h ") + Part(GoMod(totalMinutes, 60), "m");
      assert s[|s| - 1] == 'm';
      s
    else
      var s := Part(totalMinutes, "m");
      assert s[|s| - 1] == 'm';
      s
  }

  /** `formatDuration`: the counts are Go's `int(d.Hours())` and
      `int(d.Minutes())`, truncated toward zero. Only digits, '-', 'd', 'h',
      'm' and spaces occur, and the text ends in 'h' exactly from 24 hours
      on. */
  function FormatDuration(d: Duration): (s: string)
    ensures |s| >= 2
    ensures forall i :: 0 <= i < |s| ==> IsDurationChar(s[i])
    ensures s[|s| - 1] == 'h' <==> d >= 24 * Hour
  {
    DaysThreshold(d);
    FormatCounts(GoDiv(d, Hour), GoDiv(d, Minute))
  }

  /** The day count is `d / Hour / 24` from 24 hours on, and the hours and
      minutes below a day are plain Euclidean quotients for a non-negative
      duration. */
  lemma NonNegativeCounts(d: Duration)
    requires d >= 0
    ensures GoDiv(d, Hour) == d / Hour && GoDiv(d, Minute) == d / Minute
  {
  }

  /** From 24 hours on: the whole days, then the hours left over. */
  lemma FormatDays(d: Duration)
    requires d >= 24 * Hour
    ensures FormatDuration(d) == NatToString(d / Hour / 24) + "d " + NatToString(d / Hour % 24) + "h"
  {
    NonNegativeCounts(d);
    var h := d / Hour;
    assert h >= 24;
    assert GoDiv(h, 24) == h / 24 && GoMod(h, 24) == h % 24;
  }

  /** From one hour up to a day: the whole hours, then the minutes past. */
  lemma FormatHours(d: Duration)
    requires Hour <= d < 24 * Hour
    ensures FormatDuration(d) == NatToString(d / Hour) + "h " + NatToString(d / Minute % 60) + "m"
  {
    NonNegativeCounts(d);
    var h := d / Hour;
    var m := d / Minute;
    assert 1 <= h < 24;
    assert GoDiv(h, 24) == 0 && GoMod(h, 24) == h;
    assert GoMod(m, 60) == m % 60;
  }

  /** Under an hour: the whole minutes. */
  lemma FormatMinutes(d: Duration)
    requires 0 <= d < Hour
    ensures FormatDuration(d) == NatToString(d / Minute) + "m"
  {
    NonNegativeCounts(d);
    assert d / Hour == 0;
  }

  /** A negative latency always takes the minutes-only form, since the
      truncated hour count is never positive: minus the whole minutes, or
      "0m" when less than a minute short. */
  lemma FormatNegative(d: Duration)
    requires d < 0
    ensures var early := -(d as int);
      FormatDuration(d) == (if early < Minute then "0" else "-" + NatToString(early / Minute)) + "m"
  {
    var totalHours := GoDiv(d, Hour);
    assert totalHours <= 0;
    assert GoDiv(totalHours, 24) <= 0 && GoMod(totalHours, 24) <= 0;
  }

  /** Two hours before the baseline reads "-120m", not "-2h 0m". */
  lemma FormatTwoHoursEarly()
    ensures FormatDuration(-2 * Hour) == "-120m"
  {
    FormatNegative(-2 * Hour);
    assert 2 * Hour / Minute == 120;
    assert NatToString(120) == "120" by {
      assert NatToString(1) == "1";
      assert NatToString(12) == "12";
    }
  }

  /** Ninety minutes reads "1h 30m". */
  lemma FormatNinetyMinutes()
    ensures FormatDuration(90 * Minute) == "1h 30m"
  {
    var d: Duration := 5_400_000_000_000;
    assert Hour == 3_600_000_000_000 && d == 90 * Minute;
    FormatHours(d);
    assert d / Hour == 1;
    assert d / Minute == 90;
    assert NatToString(1) == "1";
    assert NatToString(30) == "30" by {
      assert NatToString(3) == "3";
    }
  }

  /** Four whole days read "4d 0h". */
  lemma FormatFourDays()
    ensures FormatDuration(96 * Hour) == "4d 0h"
  {
    FormatDays(96 * Hour);
    assert 96 * Hour / Hour / 24 == 4 && 96 * Hour / Hour % 24 == 0;
  }

  /** `truncateString`: `s` itself when it fits in `maxLen` bytes, else its
      first `maxLen - 3` bytes and "..." (the Go slice expression panics for
      `maxLen < 3` on a longer string, which callers never do). */
  function TruncateString(s: string, maxLen: int): (r: string)
    requires |s| <= maxLen || maxLen >= 3
    ensures |s| <= maxLen ==> r == s
    ensures |s| > maxLen ==> |r| == maxLen && r[..maxLen - 3] == s[..maxLen - 3] && r[maxLen - 3..] == "..."
  {
    if |s| <= maxLen then s else s[..maxLen - 3] + "..."
  }

  /** Truncating again changes nothing, and the result never exceeds the
      limit. */
  lemma TruncateIdempotent(s: string, maxLen: int)
    requires maxLen >= 3
    ensures |TruncateString(s, maxLen)| <= maxLen
    ensures TruncateString(TruncateString(s, maxLen), maxLen) == TruncateString(s, maxLen)
  {
  }

  /** A latency cell: the formatted duration when present, else the
      printer's placeholder. */
  function DurationCell(d: Option<Duration>, absent: string): (cell: string)
    ensures d.None? ==> cell == absent
    ensures d.Some? ==> cell == FormatDuration(d.value)
  {
    if d.Some? then FormatDuration(d.value) else absent
  }

  /** Both placeholders ("N/A" in the table, empty in the CSV) differ from
      every rendered latency, so a reader can tell an absent latency from a
      present one. */
  lemma PlaceholderIsDistinct(d: Option<Duration>)
    ensures DurationCell(d, "N/A") == "N/A" <==> d.None?
    ensures DurationCell(d, "") == "" <==> d.None?
  {
    if d.Some? {
      var s := FormatDuration(d.value);
      assert IsDurationChar(s[0]);
    }
  }
}
