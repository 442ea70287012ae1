/**
 * Period arithmetic of the roadmap board (static/js/roadmap.js): how many
 * columns fit the window, which month, quarter or sprint each column shows,
 * and which quarter or sprint a feature's date falls into.
 */
module RoadmapPeriods {
  import opened Text
  import opened Dates

  /** The views the sidebar buttons select (`data-view`). */
  datatype View = MonthView | QuarterView | SprintView | ReleaseView | KanbanView | GanttView

  /** Math.min(Math.max(x, lo), hi). */
  function Clamp(x: int, lo: int, hi: int): (r: int)
    requires lo <= hi
    ensures lo <= r <= hi
    ensures lo <= x <= hi ==> r == x
    ensures x < lo ==> r == lo
    ensures x > hi ==> r == hi
  {
    if x < lo then lo else if x > hi then hi else x
  }

  const SidebarWidth := 200
  const Padding := 100
  const MinColumnWidth := 220

  /** The fewest and the most columns a view shows. */
  function ColumnBounds(v: View): (int, int) {
    match v
    case MonthView => (3, 5)
    case QuarterView => (2, 4)
    case SprintView => (3, 6)
    case _ => (3, 5)
  }

  /**
   * getOptimalColumnCount: as many 220-pixel columns as fit beside the
   * sidebar and padding, clamped to the view's bounds. Dafny's `/` by a
   * positive divisor rounds down like Math.floor, also for narrow windows
   * where the available width is negative.
   */
  function OptimalColumnCount(v: View, screenWidth: int): (r: int)
    ensures ColumnBounds(v).0 <= r <= ColumnBounds(v).1
    ensures var fit := (screenWidth - SidebarWidth - Padding) / MinColumnWidth;
            ColumnBounds(v).0 <= fit <= ColumnBounds(v).1 ==> r == fit
  {
    var maxColumns := (screenWidth - SidebarWidth - Padding) / MinColumnWidth;
    Clamp(maxColumns, ColumnBounds(v).0, ColumnBounds(v).1)
  }

  /** The fixed range of each view, whatever the width. */
  lemma ColumnCountRanges(screenWidth: int)
    ensures 3 <= OptimalColumnCount(MonthView, screenWidth) <= 5
    ensures 2 <= OptimalColumnCount(QuarterView, screenWidth) <= 4
    ensures 3 <= OptimalColumnCount(SprintView, screenWidth) <= 6
    ensures forall v :: v != MonthView && v != QuarterView && v != SprintView ==>
              3 <= OptimalColumnCount(v, screenWidth) <= 5
  {}

  /** A wider window never shows fewer columns. */
  lemma ColumnCountMonotone(v: View, w1: int, w2: int)
    requires w1 <= w2
    ensures OptimalColumnCount(v, w1) <= OptimalColumnCount(v, w2)
  {
    var a := w1 - SidebarWidth - Padding;
    var b := w2 - SidebarWidth - Padding;
    assert a / MinColumnWidth <= b / MinColumnWidth;
  }

  // ---------------------------------------------------------------------------
  // Quarters
  // ---------------------------------------------------------------------------

  datatype Quarter = Quarter(q: int, year: int)

  /** JavaScript's `%`: the remainder takes the sign of the dividend. */
  function JsRem(a: int, b: int): (r: int)
    requires b > 0
    ensures -b < r < b
    ensures a >= 0 ==> r >= 0
    ensures a < 0 ==> r <= 0
  {
    if a >= 0 then a % b else -((-a) % b)
  }

  /** The double-remainder idiom ((x % 4) + 4) % 4 is the mathematical modulus. */
  lemma JsModulusIdiom(x: int)
    ensures JsRem(JsRem(x, 4) + 4, 4) == x % 4
  {
    if x < 0 {
      var k := (-x) / 4;
      var m := (-x) % 4;
      assert -x == 4 * k + m;
      assert JsRem(x, 4) == -m;
      if m == 0 {
        assert x == 4 * (-k);
        assert x % 4 == 0;
      } else {
        assert x == 4 * (-k - 1) + (4 - m);
        assert x % 4 == 4 - m;
      }
    }
  }

  /**
   * The quarter shown in column i when the view is shifted by quarterOffset
   * (k = quarterOffset + i), for today's year and 0-based month.
   */
  function QuarterAt(todayYear: int, todayMonthIndex: int, k: int): Quarter
    requires 0 <= todayMonthIndex < 12
  {
    var currentQuarter := todayMonthIndex / 3;
    var x := currentQuarter + k;
    Quarter(JsRem(JsRem(x, 4) + 4, 4) + 1, todayYear + x / 4)
  }

  /** Quarters counted from year 0: the position of a quarter on the time line. */
  function QuarterIndex(qr: Quarter): int { 4 * qr.year + qr.q - 1 }

  /** Every column's quarter number is 1..4, and column k is k quarters after today's quarter. */
  lemma QuarterAtIndex(todayYear: int, todayMonthIndex: int, k: int)
    requires 0 <= todayMonthIndex < 12
    ensures 1 <= QuarterAt(todayYear, todayMonthIndex, k).q <= 4
    ensures QuarterIndex(QuarterAt(todayYear, todayMonthIndex, k))
            == QuarterIndex(Quarter(todayMonthIndex / 3 + 1, todayYear)) + k
  {
    var x := todayMonthIndex / 3 + k;
    JsModulusIdiom(x);
  }

  /** Consecutive columns advance by one quarter; Q4 rolls over to Q1 of the next year. */
  lemma QuarterAtNext(todayYear: int, todayMonthIndex: int, k: int)
    requires 0 <= todayMonthIndex < 12
    ensures var a := QuarterAt(todayYear, todayMonthIndex, k);
            QuarterAt(todayYear, todayMonthIndex, k + 1)
            == if a.q == 4 then Quarter(1, a.year + 1) else Quarter(a.q + 1, a.year)
  {
    QuarterAtIndex(todayYear, todayMonthIndex, k);
    QuarterAtIndex(todayYear, todayMonthIndex, k + 1);
  }

  /** The column label `Q${quarter} ${year}`. */
  function QuarterLabel(qr: Quarter): string {
    "Q" + IntToString(qr.q) + " " + IntToString(qr.year)
  }

  /** Different quarters get different labels, so a label names one column. */
  lemma QuarterLabelInjective(a: Quarter, b: Quarter)
    requires 1 <= a.q <= 4 && 1 <= b.q <= 4
    requires QuarterLabel(a) == QuarterLabel(b)
    ensures a == b
  {
    assert IntToString(a.q) == [DigitChar(a.q)];
    assert IntToString(b.q) == [DigitChar(b.q)];
    assert QuarterLabel(a)[1] == DigitChar(a.q);
    assert QuarterLabel(b)[1] == DigitChar(b.q);
    assert QuarterLabel(a)[3..] == IntToString(a.year);
    assert QuarterLabel(b)[3..] == IntToString(b.year);
    ParseIntOfIntToString(a.year);
    ParseIntOfIntToString(b.year);
  }

  /** getQuarterForDate: the quarter holding a date's month. */
  function QuarterOfDate(d: Date): (r: Quarter)
    requires Valid(d)
    ensures 1 <= r.q <= 4 && r.year == d.year
    ensures 3 * (r.q - 1) < d.month <= 3 * r.q
  {
    Quarter((d.month - 1) / 3 + 1, d.year)
  }

  // ---------------------------------------------------------------------------
  // Months
  // ---------------------------------------------------------------------------

  datatype YearMonth = YearMonth(year: int, month: int)

  /** The month shown in column i when the view is shifted by monthOffset (k = monthOffset + i). */
  function MonthAt(todayYear: int, todayMonthIndex: int, k: int): (r: YearMonth)
    ensures 1 <= r.month <= 12
  {
    var d := JsLocalDate(todayYear, todayMonthIndex + k, 1);
    YearMonth(d.year, d.month)
  }

  function MonthIndex(ym: YearMonth): int { 12 * ym.year + ym.month - 1 }

  /** Column k is k months after today's month. */
  lemma MonthAtIndex(todayYear: int, todayMonthIndex: int, k: int)
    requires todayYear >= 100 && 0 <= todayMonthIndex < 12
    ensures MonthIndex(MonthAt(todayYear, todayMonthIndex, k)) == 12 * todayYear + todayMonthIndex + k
  {}

  /** Consecutive month columns advance by one month; December rolls over to January. */
  lemma MonthAtNext(todayYear: int, todayMonthIndex: int, k: int)
    requires todayYear >= 100 && 0 <= todayMonthIndex < 12
    ensures var a := MonthAt(todayYear, todayMonthIndex, k);
            MonthAt(todayYear, todayMonthIndex, k + 1)
            == if a.month == 12 then YearMonth(a.year + 1, 1) else YearMonth(a.year, a.month + 1)
  {
    MonthAtIndex(todayYear, todayMonthIndex, k);
    MonthAtIndex(todayYear, todayMonthIndex, k + 1);
  }

  // ---------------------------------------------------------------------------
  // Sprints
  // ---------------------------------------------------------------------------

  /** The column label `Sprint ${n}`. */
  function SprintLabel(n: int): string { "Sprint " + IntToString(n) }

  const DayMs := 1000 * 60 * 60 * 24
  const WeekMs := DayMs * 7

  /** Math.ceil(a / b) for a positive divisor. */
  function CeilDiv(a: int, b: int): (r: int)
    requires b > 0
    ensures (r - 1) * b < a <= r * b
  {
    var q := (-a) / b;
    var m := (-a) % b;
    assert -a == q * b + m;
    -q
  }

  lemma CeilDivUnique(a: int, b: int, r: int)
    requires b > 0 && (r - 1) * b < a <= r * b
    ensures CeilDiv(a, b) == r
  {
  }

  /**
   * getSprintForDate: the two-week period, counted from now, that a date
   * falls into, clamped to sprints 1..8. Times are milliseconds.
   */
  function SprintForDate(dateMs: int, nowMs: int): (r: int)
    ensures 1 <= r <= 8
  {
    var diffWeeks := CeilDiv(dateMs - nowMs, WeekMs);
    Clamp(CeilDiv(diffWeeks, 2), 1, 8)
  }

  /** Ceiling twice equals ceiling once: ceil(ceil(a / w) / 2) == ceil(a / 2w). */
  lemma NestedCeil(a: int)
    ensures CeilDiv(CeilDiv(a, WeekMs), 2) == CeilDiv(a, 2 * WeekMs)
  {
    var w := CeilDiv(a, WeekMs);
    var s := CeilDiv(w, 2);
    assert (s - 1) * (2 * WeekMs) < a <= s * (2 * WeekMs) by {
      assert w <= 2 * s && w >= 2 * s - 1;
      assert a <= w * WeekMs <= 2 * s * WeekMs;
      assert a > (w - 1) * WeekMs >= (2 * s - 2) * WeekMs;
    }
    CeilDivUnique(a, 2 * WeekMs, s);
  }

  /**
   * Sprint k holds exactly the dates more than 2(k-1) weeks and at most 2k
   * weeks after now; sprint 1 also takes everything earlier and sprint 8
   * everything later.
   */
  lemma SprintForDateWindow(dateMs: int, nowMs: int, k: int)
    requires 1 <= k <= 8
    ensures SprintForDate(dateMs, nowMs) == k
            <==> (k == 1 || (k - 1) * (2 * WeekMs) < dateMs - nowMs)
                 && (k == 8 || dateMs - nowMs <= k * (2 * WeekMs))
  {
    var a := dateMs - nowMs;
    NestedCeil(a);
    var s := CeilDiv(a, 2 * WeekMs);
    if s < k {
      assert a <= s * (2 * WeekMs) <= (k - 1) * (2 * WeekMs);
    } else if s > k {
      assert a > (s - 1) * (2 * WeekMs) >= k * (2 * WeekMs);
    }
  }
}
