/**
 * Calendar dates as integer (year, month 1..12, day) triples, the ISO 8601
 * complete calendar date in extended format (YYYY-MM-DD) that both the page
 * scripts and the Flask backend exchange, JavaScript's month/day
 * normalisation in `new Date(y, m, d)`, and the one-day shift between a
 * local midnight and a UTC midnight.
 */
module Dates {
  import opened Wrappers
  import opened Text

  datatype Date = Date(year: int, month: int, day: int)

  predicate IsLeapYear(y: int) {
    (y % 4 == 0 && y % 100 != 0) || y % 400 == 0
  }

  function DaysInMonth(y: int, m: int): (n: int)
    ensures 28 <= n <= 31
  {
    if m == 2 then (if IsLeapYear(y) then 29 else 28)
    else if m == 4 || m == 6 || m == 9 || m == 11 then 30
    else 31
  }

  predicate Valid(d: Date) {
    1 <= d.month <= 12 && 1 <= d.day <= DaysInMonth(d.year, d.month)
  }

  /** Strict calendar order. */
  predicate Before(a: Date, b: Date) {
    a.year < b.year
    || (a.year == b.year && (a.month < b.month || (a.month == b.month && a.day < b.day)))
  }

  predicate NotAfter(a: Date, b: Date) { a == b || Before(a, b) }

  lemma BeforeTransitive(a: Date, b: Date, c: Date)
    requires Before(a, b) && Before(b, c)
    ensures Before(a, c)
  {}

  function NextDay(d: Date): (r: Date)
    requires Valid(d)
    ensures Valid(r) && Before(d, r)
  {
    if d.day < DaysInMonth(d.year, d.month) then Date(d.year, d.month, d.day + 1)
    else if d.month < 12 then Date(d.year, d.month + 1, 1)
    else Date(d.year + 1, 1, 1)
  }

  function PrevDay(d: Date): (r: Date)
    requires Valid(d)
    ensures Valid(r) && Before(r, d)
  {
    if d.day > 1 then Date(d.year, d.month, d.day - 1)
    else if d.month > 1 then Date(d.year, d.month - 1, DaysInMonth(d.year, d.month - 1))
    else Date(d.year - 1, 12, 31)
  }

  /** NextDay and PrevDay undo each other. */
  lemma NextPrevInverse(d: Date)
    requires Valid(d)
    ensures PrevDay(NextDay(d)) == d && NextDay(PrevDay(d)) == d
  {}

  /** The date n days after d: `timedelta(days=n)` in Python, n * 86400000 ms in JavaScript. */
  function AddDays(d: Date, n: nat): (r: Date)
    requires Valid(d)
    ensures Valid(r)
    ensures n == 0 ==> r == d
    ensures n > 0 ==> Before(d, r)
    decreases n
  {
    if n == 0 then d
    else
      var r := AddDays(NextDay(d), n - 1);
      assert n - 1 > 0 ==> Before(NextDay(d), r);
      r
  }

  /** Adding days is monotone: a later offset gives a later date. */
  lemma {:induction false} AddDaysMonotone(d: Date, m: nat, n: nat)
    requires Valid(d) && m < n
    ensures Before(AddDays(d, m), AddDays(d, n))
    decreases m
  {
    if m == 0 {
    } else {
      AddDaysMonotone(NextDay(d), m - 1, n - 1);
    }
  }

  // ---------------------------------------------------------------------------
  // JavaScript's `new Date(year, monthIndex, day)` in local time.
  // ---------------------------------------------------------------------------

  /** Two-digit years 0..99 are read as 1900..1999 by the Date constructor. */
  function JsYear(y: int): int {
    if 0 <= y <= 99 then 1900 + y else y
  }

  /** Moves a day beyond the end of its month into the following months. */
  function CarryDaysForward(y: int, m: int, d: int): (r: Date)
    requires 1 <= m <= 12 && d >= 1
    ensures Valid(r)
    decreases d
  {
    if d <= DaysInMonth(y, m) then Date(y, m, d)
    else if m < 12 then CarryDaysForward(y, m + 1, d - DaysInMonth(y, m))
    else CarryDaysForward(y + 1, 1, d - DaysInMonth(y, m))
  }

  /** Moves a day before the start of its month into the preceding months. */
  function BorrowDaysBackward(y: int, m: int, d: int): (r: Date)
    requires 1 <= m <= 12
    ensures Valid(r)
    decreases if d < 1 then 1 - d else 0
  {
    if d >= 1 then CarryDaysForward(y, m, d)
    else if m > 1 then BorrowDaysBackward(y, m - 1, d + DaysInMonth(y, m - 1))
    else BorrowDaysBackward(y - 1, 12, d + 31)
  }

  /**
   * The local calendar date of `new Date(y, monthIndex, day)`: the month index
   * is 0-based and may fall outside 0..11, the day may fall outside the month;
   * both overflow into neighbouring months and years.
   */
  function JsLocalDate(y: int, monthIndex: int, day: int): (r: Date)
    ensures Valid(r)
  {
    BorrowDaysBackward(JsYear(y) + monthIndex / 12, monthIndex % 12 + 1, day)
  }

  /** With an in-range month index and day, the constructor builds exactly that date. */
  lemma JsLocalDateInRange(y: int, monthIndex: int, day: int)
    requires !(0 <= y <= 99) && 0 <= monthIndex < 12
    requires 1 <= day <= DaysInMonth(y, monthIndex + 1)
    ensures JsLocalDate(y, monthIndex, day) == Date(y, monthIndex + 1, day)
  {}

  // ---------------------------------------------------------------------------
  // Local time versus UTC.
  // ---------------------------------------------------------------------------

  /** Where the browser's time zone lies; offsets are less than a day. */
  datatype Zone = WestOfUtc | Utc | EastOfUtc

  /** The UTC date of the local midnight that starts d (what toISOString reports for it). */
  function UtcDateOfLocalMidnight(d: Date, z: Zone): (r: Date)
    requires Valid(d)
    ensures Valid(r) && NotAfter(r, d)
  {
    if z == EastOfUtc then PrevDay(d) else d
  }

  /** The local date of the UTC midnight that starts d (what `new Date("YYYY-MM-DD")` shows locally). */
  function LocalDateOfUtcMidnight(d: Date, z: Zone): (r: Date)
    requires Valid(d)
    ensures Valid(r) && NotAfter(r, d)
  {
    if z == WestOfUtc then PrevDay(d) else d
  }

  // ---------------------------------------------------------------------------
  // YYYY-MM-DD (ISO 8601:2004 section 4.1.2.2, complete representation,
  // extended format).
  // ---------------------------------------------------------------------------

  function Pad2(n: int): (s: string)
    requires 0 <= n < 100
    ensures |s| == 2 && AllDigits(s)
  {
    [DigitChar(n / 10), DigitChar(n % 10)]
  }

  function Pad4(n: int): (s: string)
    requires 0 <= n < 10000
    ensures |s| == 4 && AllDigits(s)
  {
    Pad2(n / 100) + Pad2(n % 100)
  }

  function Value2(s: string): int
    requires |s| == 2 && AllDigits(s)
  {
    10 * DigitVal(s[0]) + DigitVal(s[1])
  }

  function Value4(s: string): int
    requires |s| == 4 && AllDigits(s)
  {
    100 * Value2(s[..2]) + Value2(s[2..])
  }

  lemma Value2Pad2(n: int)
    requires 0 <= n < 100
    ensures Value2(Pad2(n)) == n
  {}

  lemma Value4Pad4(n: int)
    requires 0 <= n < 10000
    ensures Value4(Pad4(n)) == n
  {
    var s := Pad4(n);
    assert s[..2] == Pad2(n / 100) && s[2..] == Pad2(n % 100);
    Value2Pad2(n / 100);
    Value2Pad2(n % 100);
  }

  lemma Pad2Value2(s: string)
    requires |s| == 2 && AllDigits(s)
    ensures Pad2(Value2(s)) == s
  {}

  lemma Pad4Value4(s: string)
    requires |s| == 4 && AllDigits(s)
    ensures Pad4(Value4(s)) == s
  {
    assert s[..2] + s[2..] == s;
    Pad2Value2(s[..2]);
    Pad2Value2(s[2..]);
  }

  function PadLeft(s: string, width: nat): (r: string)
    ensures |r| >= width
    decreases width - |s|
  {
    if |s| >= width then s else PadLeft("0" + s, width)
  }

  /**
   * The date part of `Date.prototype.toISOString()` and of Python's
   * `date.isoformat()`: four digits for years 0..9999, a signed six-digit
   * year otherwise.
   */
  function FormatIso(d: Date): string
    requires Valid(d)
  {
    var y := if 0 <= d.year <= 9999 then Pad4(d.year)
             else if d.year > 9999 then "+" + PadLeft(NatToString(d.year), 6)
             else "-" + PadLeft(NatToString(-d.year), 6);
    y + "-" + Pad2(d.month) + "-" + Pad2(d.day)
  }

  /** The pattern ^\d{4}-\d{2}-\d{2}$. */
  predicate IsIsoShape(s: string) {
    |s| == 10 && AllDigits(s[..4]) && s[4] == '-' && AllDigits(s[5..7]) && s[7] == '-' && AllDigits(s[8..])
  }

  function ShapeDate(s: string): Date
    requires IsIsoShape(s)
  {
    Date(Value4(s[..4]), Value2(s[5..7]), Value2(s[8..]))
  }

  /**
   * Python's `datetime.fromisoformat(s).date()` for the date-only form: the
   * shape must match and the fields must name a real day of years 1..9999;
   * anything else raises ValueError (None).
   */
  function ParseIsoDate(s: string): (r: Option<Date>)
    ensures r.Some? ==> Valid(r.value) && 1 <= r.value.year <= 9999
  {
    if IsIsoShape(s) && ShapeDate(s).year >= 1 && Valid(ShapeDate(s)) then Some(ShapeDate(s)) else None
  }

  /** A real date of years 0..9999 is written in the YYYY-MM-DD shape. */
  lemma FormatIsoShape(d: Date)
    requires Valid(d) && 0 <= d.year <= 9999
    ensures IsIsoShape(FormatIso(d)) && ShapeDate(FormatIso(d)) == d
  {
    var s := FormatIso(d);
    assert s[..4] == Pad4(d.year);
    assert s[5..7] == Pad2(d.month);
    assert s[8..] == Pad2(d.day);
    Value4Pad4(d.year);
    Value2Pad2(d.month);
    Value2Pad2(d.day);
  }

  /** Round trip one way: parsing what isoformat wrote gives the date back. */
  lemma ParseFormatIso(d: Date)
    requires Valid(d) && 1 <= d.year <= 9999
    ensures ParseIsoDate(FormatIso(d)) == Some(d)
  {
    FormatIsoShape(d);
  }

  /** Round trip the other way: a string that parses is the canonical rendering of its date. */
  lemma FormatParseIso(s: string)
    requires ParseIsoDate(s).Some?
    ensures FormatIso(ParseIsoDate(s).value) == s
  {
    var d := ParseIsoDate(s).value;
    assert s[..4] + "-" + s[5..7] + "-" + s[8..] == s;
    Pad4Value4(s[..4]);
    Pad2Value2(s[5..7]);
    Pad2Value2(s[8..]);
  }
}
