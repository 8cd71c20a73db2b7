/**
 * The trend calculator of `compute_trend_pct`: the change in chargeback
 * count from the window of equal length just before the requested one.
 * Dates are day numbers; "today" is a parameter.
 */
module Trends {
  import opened Wrappers
  import opened Selection
  import opened Filters

  /** The inclusive day range `[start, end]`. */
  datatype Window = Window(start: int, end: int)

  /**
   * The requested window, or the 30 days ending today when either bound
   * is missing.
   */
  function CurrentWindow(startDate: Option<int>, endDate: Option<int>, today: int): (w: Window)
    ensures startDate.None? || endDate.None? ==> w.end == today && w.end - w.start + 1 == 30
    ensures startDate.Some? && endDate.Some? ==> w == Window(startDate.value, endDate.value)
  {
    if startDate.None? || endDate.None? then Window(today - 29, today)
    else Window(startDate.value, endDate.value)
  }

  /**
   * The comparison window: as many days as `w` (the same end - start), and
   * ending the day before `w` starts.
   */
  function PreviousWindow(w: Window): (p: Window)
    ensures p.end - p.start == w.end - w.start
    ensures p.end + 1 == w.start
  {
    var periodLen := w.end - w.start;
    Window(w.start - (periodLen + 1), w.start - 1)
  }

  function InWindow(w: Window, d: int): bool
  {
    w.start <= d <= w.end
  }

  /** The number of rows whose date lies in `w`. */
  function CountInWindow(rows: seq<Record>, w: Window): nat
  {
    if rows == [] then 0
    else CountInWindow(rows[1..], w) + (if InWindow(w, rows[0].date) then 1 else 0)
  }

  /**
   * `compute_trend_pct`, exact: the percentage change from the previous
   * window's count to the current one's, or 0 when the previous window is
   * empty.
   */
  function TrendPct(rows: seq<Record>, startDate: Option<int>, endDate: Option<int>, today: int): real
  {
    var w := CurrentWindow(startDate, endDate, today);
    var current := CountInWindow(rows, w);
    var previous := CountInWindow(rows, PreviousWindow(w));
    PctChange(current, previous)
  }

  /** The percentage change from `previous` to `current`, or 0 when `previous` is 0. */
  function PctChange(current: nat, previous: nat): real
  {
    if previous == 0 then 0.0
    else ((current - previous) as real) / (previous as real) * 100.0
  }

  lemma PctChangeDoubling(previous: nat)
    requires previous > 0
    ensures PctChange(2 * previous, previous) == 100.0
  {
    var p := previous as real;
    assert (2 * previous - previous) as real == p;
    assert p / p == 1.0;
  }

  /** The filter parameters that give only the window's two date bounds. */
  function DateOnly(w: Window): Filters
  {
    Filters(Some(w.start), Some(w.end), None, None, None, None, None, None)
  }

  /**
   * Counting a window agrees with the filter engine given only that
   * window's start and end dates.
   */
  lemma {:induction false} CountInWindowIsFilterCount(rows: seq<Record>, w: Window)
    ensures CountInWindow(rows, w) == |Keep(rows, DateOnly(w))|
  {
    if rows != [] {
      CountInWindowIsFilterCount(rows[1..], w);
      var p := (r: Record) => Matches(DateOnly(w), r);
      assert rows == [rows[0]] + rows[1..];
      SelectAppend([rows[0]], rows[1..], p);
      assert Select([rows[0]], p) == (if p(rows[0]) then [rows[0]] else []) by {
        assert [rows[0]][..0] == [];
      }
    }
  }

  /** The previous window's dates precede the current window's and do not overlap it. */
  lemma WindowsDisjoint(w: Window, d: int)
    requires InWindow(PreviousWindow(w), d)
    ensures d < w.start && !InWindow(w, d)
  {
  }

  /**
   * The trend's sign follows the counts: with a non-empty previous window
   * it is positive exactly when the current window has more chargebacks,
   * negative exactly when it has fewer, and never below -100.
   */
  lemma TrendSign(rows: seq<Record>, startDate: Option<int>, endDate: Option<int>, today: int)
    ensures var w := CurrentWindow(startDate, endDate, today);
      var current := CountInWindow(rows, w);
      var previous := CountInWindow(rows, PreviousWindow(w));
      var t := TrendPct(rows, startDate, endDate, today);
      && (previous == 0 ==> t == 0.0)
      && (previous > 0 ==> (t > 0.0 <==> current > previous) && (t < 0.0 <==> current < previous))
      && t >= -100.0
  {
    var w := CurrentWindow(startDate, endDate, today);
    var current: int := CountInWindow(rows, w);
    var previous: int := CountInWindow(rows, PreviousWindow(w));
    if previous > 0 {
      var q := ((current - previous) as real) / (previous as real);
      assert q * (previous as real) == (current - previous) as real;
      assert q >= -1.0;
    }
  }

  /** A current window with twice the previous window's (non-zero) count is a 100% rise. */
  lemma TrendDoubling(rows: seq<Record>, startDate: Option<int>, endDate: Option<int>, today: int)
    requires var w := CurrentWindow(startDate, endDate, today);
      CountInWindow(rows, PreviousWindow(w)) > 0
      && CountInWindow(rows, w) == 2 * CountInWindow(rows, PreviousWindow(w))
    ensures TrendPct(rows, startDate, endDate, today) == 100.0
  {
    var w := CurrentWindow(startDate, endDate, today);
    PctChangeDoubling(CountInWindow(rows, PreviousWindow(w)));
  }
}
