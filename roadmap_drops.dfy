/**
 * What the board sends when a card is dropped on a column (the onAdd
 * handlers and the update lambdas of static/js/roadmap.js), and where the
 * updated feature is then counted.
 */
module RoadmapDrops {
  import opened Wrappers
  import opened Text
  import opened Dates
  import opened Json
  import opened RoadmapPeriods
  import opened RoadmapFormat
  import opened RoadmapBoard

  // ---------------------------------------------------------------------------
  // Status and release drops
  // ---------------------------------------------------------------------------

  /** The Kanban status drop sends only the new status. */
  function StatusDropBody(status: string): (body: Object)
    ensures body.Keys == {"status"} && body["status"] == JStr(status)
  {
    map["status" := JStr(status)]
  }

  /** The release drop sends only the release: empty for the 'Unassigned' column. */
  function ReleaseDropBody(column: string): (body: Object)
    ensures body.Keys == {"release"} && body["release"].JStr?
    ensures column == "Unassigned" ==> body["release"] == JStr("")
    ensures column != "Unassigned" ==> body["release"] == JStr(column)
  {
    map["release" := JStr(if column == "Unassigned" then "" else column)]
  }

  /** The release sent for a column is bucketed back into that column (column names are never empty). */
  lemma ReleaseDropRoundTrip(column: string)
    requires column != ""
    ensures ReleaseKeyOf(ReleaseDropBody(column)["release"].str) == column
  {}

  // ---------------------------------------------------------------------------
  // Quarter drops
  // ---------------------------------------------------------------------------

  /** The regular expression /Q(\d) (\d{4})/ matches at position i. */
  predicate QuarterMatchAt(s: string, i: int) {
    0 <= i && i + 7 <= |s| && s[i] == 'Q' && IsDigit(s[i + 1]) && s[i + 2] == ' ' && AllDigits(s[i + 3..i + 7])
  }

  /** The leftmost match at or after position i. */
  function FirstQuarterMatch(s: string, i: nat): (r: Option<nat>)
    ensures r.Some? ==> i <= r.value && QuarterMatchAt(s, r.value)
    ensures r.Some? ==> forall j :: i <= j < r.value ==> !QuarterMatchAt(s, j)
    ensures r.None? ==> forall j :: i <= j ==> !QuarterMatchAt(s, j)
    decreases |s| - i
  {
    if i + 7 > |s| then None
    else if QuarterMatchAt(s, i) then Some(i)
    else FirstQuarterMatch(s, i + 1)
  }

  /** The two capture groups, read with parseInt: the quarter digit and the four-digit year. */
  function ParseQuarterLabel(s: string): Option<(int, int)> {
    match FirstQuarterMatch(s, 0)
    case None => None
    case Some(i) => Some((DigitVal(s[i + 1]), Value4(s[i + 3..i + 7])))
  }

  /**
   * The quarter update lambda: the 15th of the middle month of the quarter,
   * built in local time and sent as the UTC date toISOString reports. A
   * heading the pattern does not match makes `.slice` throw, and nothing is
   * sent (None).
   */
  function QuarterDropDate(heading: string, z: Zone): Option<string> {
    match ParseQuarterLabel(heading)
    case None => None
    case Some((q, year)) =>
      var quarterMonth := (q - 1) * 3;
      var newDate := JsLocalDate(year, quarterMonth + 1, 15);
      Some(FormatIso(UtcDateOfLocalMidnight(newDate, z)))
  }

  function QuarterDropBody(heading: string, z: Zone): (body: Option<Object>)
    ensures body.Some? <==> QuarterDropDate(heading, z).Some?
    ensures body.Some? ==> body.value.Keys == {"date"} && body.value["date"] == JStr(QuarterDropDate(heading, z).value)
  {
    match QuarterDropDate(heading, z)
    case None => None
    case Some(date) => Some(map["date" := JStr(date)])
  }

  lemma NatToStringFourDigits(y: int)
    requires 1000 <= y <= 9999
    ensures |NatToString(y)| == 4
  {
    var a := y / 10;
    var b := a / 10;
    var c := b / 10;
    assert 100 <= a <= 999 && 10 <= b <= 99 && 1 <= c <= 9;
    assert |NatToString(c)| == 1;
    assert |NatToString(b)| == 2;
    assert |NatToString(a)| == 3;
  }

  /** The pattern reads back the quarter and year of every heading getQuartersForView writes for years 1000..9999. */
  lemma ParseQuarterLabelOfLabel(q: int, year: int)
    requires 1 <= q <= 4 && 1000 <= year <= 9999
    ensures ParseQuarterLabel(QuarterLabel(Quarter(q, year))) == Some((q, year))
  {
    var s := QuarterLabel(Quarter(q, year));
    var ys := NatToString(year);
    NatToStringFourDigits(year);
    assert IntToString(q) == [DigitChar(q)];
    assert s == ['Q', DigitChar(q), ' '] + ys;
    assert s[3..7] == ys;
    assert QuarterMatchAt(s, 0);
    DigitsValueOfNatToString(year);
    DigitsValueOfFour(ys);
  }

  /**
   * The 15th of a month, sent from any zone and read back in any zone, in
   * either reading, stays in that month.
   */
  lemma MidMonthReadBack(year: int, month: int, dropZone: Zone, viewZone: Zone, today: Date)
    requires 1000 <= year <= 9999 && 1 <= month <= 12 && Valid(today)
    ensures var sent := FormatIso(UtcDateOfLocalMidnight(Date(year, month, 15), dropZone));
            && ParseIsoDate(sent).Some?
            && LocalDateOfUtcMidnight(ParseIsoDate(sent).value, viewZone).year == year
            && LocalDateOfUtcMidnight(ParseIsoDate(sent).value, viewZone).month == month
            && ParseDate(sent, today).Some?
            && ParseDate(sent, today).value.year == year
            && ParseDate(sent, today).value.month == month
  {
    var local := Date(year, month, 15);
    var sent := UtcDateOfLocalMidnight(local, dropZone);
    assert sent.year == year && sent.month == month && 14 <= sent.day <= 15;
    ParseFormatIso(sent);
    ParseDateOfIso(sent, today);
    var viewed := LocalDateOfUtcMidnight(sent, viewZone);
    assert viewed.year == year && viewed.month == month;
  }

  /** The date sent for a heading the pattern reads as quarter q of a year from 1000 on. */
  lemma QuarterDropDateOfParsed(heading: string, q: int, year: int, z: Zone)
    requires 1 <= q <= 4 && 1000 <= year <= 9999
    requires ParseQuarterLabel(heading) == Some((q, year))
    ensures QuarterDropDate(heading, z) == Some(FormatIso(UtcDateOfLocalMidnight(Date(year, (q - 1) * 3 + 2, 15), z)))
  {
    JsLocalDateInRange(year, (q - 1) * 3 + 1, 15);
  }

  /** A stored date both readings place in the middle month of quarter q is counted in that quarter. */
  lemma QuarterOfStoredDate(date: string, q: int, year: int, viewZone: Zone, today: Date)
    requires 1 <= q <= 4 && Valid(today)
    requires ParseIsoDate(date).Some?
    requires var viewed := LocalDateOfUtcMidnight(ParseIsoDate(date).value, viewZone);
             viewed.year == year && viewed.month == (q - 1) * 3 + 2
    requires ParseDate(date, today).Some?
    requires ParseDate(date, today).value.year == year && ParseDate(date, today).value.month == (q - 1) * 3 + 2
    ensures QuarterOfFeatureAsWritten(Feature(0, "", "", "", "", "", date), viewZone) == Some(Quarter(q, year))
    ensures QuarterOfFeature(Feature(0, "", "", "", "", "", date), today) == Some(Quarter(q, year))
  {
    var m := (q - 1) * 3 + 2;
    assert (m - 1) / 3 + 1 == q;
    var viewed := LocalDateOfUtcMidnight(ParseIsoDate(date).value, viewZone);
    assert QuarterOfDate(viewed) == Quarter(q, year);
    assert QuarterOfDate(ParseDate(date, today).value) == Quarter(q, year);
  }

  lemma QuarterOfMidQuarterDate(q: int, year: int, dropZone: Zone, viewZone: Zone, today: Date)
    requires 1 <= q <= 4 && 1000 <= year <= 9999 && Valid(today)
    ensures var date := FormatIso(UtcDateOfLocalMidnight(Date(year, (q - 1) * 3 + 2, 15), dropZone));
            && ParseIsoDate(date).Some?
            && QuarterOfFeatureAsWritten(Feature(0, "", "", "", "", "", date), viewZone) == Some(Quarter(q, year))
            && QuarterOfFeature(Feature(0, "", "", "", "", "", date), today) == Some(Quarter(q, year))
  {
    var m := (q - 1) * 3 + 2;
    var date := FormatIso(UtcDateOfLocalMidnight(Date(year, m, 15), dropZone));
    MidMonthReadBack(year, m, dropZone, viewZone, today);
    var viewed := LocalDateOfUtcMidnight(ParseIsoDate(date).value, viewZone);
    assert viewed.year == year && viewed.month == m;
    var local := ParseDate(date, today).value;
    assert local.year == year && local.month == m;
    QuarterOfStoredDate(date, q, year, viewZone, today);
  }

  /**
   * Quarter round trip: whatever the zone the card is dropped in and the zone
   * the board is later viewed in, the date sent for column "Qq YYYY" is
   * accepted by the backend and counted in that same quarter, both by the
   * quarter view's UTC reading and by the local reading.
   */
  lemma QuarterDropRoundTrip(q: int, year: int, dropZone: Zone, viewZone: Zone, today: Date)
    requires 1 <= q <= 4 && 1000 <= year <= 9999 && Valid(today)
    ensures var date := QuarterDropDate(QuarterLabel(Quarter(q, year)), dropZone);
            && date.Some?
            && ParseIsoDate(date.value).Some?
            && QuarterOfFeatureAsWritten(Feature(0, "", "", "", "", "", date.value), viewZone) == Some(Quarter(q, year))
            && QuarterOfFeature(Feature(0, "", "", "", "", "", date.value), today) == Some(Quarter(q, year))
  {
    var heading := QuarterLabel(Quarter(q, year));
    ParseQuarterLabelOfLabel(q, year);
    QuarterDropDateOfParsed(heading, q, year, dropZone);
    QuarterOfMidQuarterDate(q, year, dropZone, viewZone, today);
  }

  // ---------------------------------------------------------------------------
  // Month drops
  // ---------------------------------------------------------------------------

  /**
   * The month drop: the 15th of the column's month in local time, sent as the
   * UTC date. The column's month is taken as already recovered from its
   * locale-formatted name.
   */
  function MonthDropDate(column: YearMonth, z: Zone): string
    requires 1 <= column.month <= 12
  {
    FormatIso(UtcDateOfLocalMidnight(JsLocalDate(column.year, column.month - 1, 15), z))
  }

  /** Month round trip: the date sent for a month column is accepted by the backend and counted in that column. */
  lemma MonthDropRoundTrip(column: YearMonth, z: Zone, today: Date)
    requires 1 <= column.month <= 12 && 1000 <= column.year <= 9999 && Valid(today)
    ensures var date := MonthDropDate(column, z);
            ParseIsoDate(date).Some?
            && InMonthColumn(Feature(0, "", "", "", "", "", date), column, today)
  {
    JsLocalDateInRange(column.year, column.month - 1, 15);
    assert MonthDropDate(column, z) == FormatIso(UtcDateOfLocalMidnight(Date(column.year, column.month, 15), z));
    MidMonthReadBack(column.year, column.month, z, z, today);
  }

  // ---------------------------------------------------------------------------
  // Sprint drops
  // ---------------------------------------------------------------------------

  const FortnightMs := 14 * DayMs

  /** The sprint number in a column heading: parseInt(heading.replace('Sprint ', '')). */
  function SprintNumber(heading: string): Option<int> {
    ParseInt(ReplaceFirst(heading, "Sprint ", ""))
  }

  lemma SprintNumberOfLabel(n: int)
    ensures SprintNumber(SprintLabel(n)) == Some(n)
  {
    ReplaceFirstPrefix("Sprint ", IntToString(n), "");
    ParseIntOfIntToString(n);
  }

  /**
   * The sprint update lambda as written: now plus (k - 1) fortnights, sent as
   * the UTC date of that instant, given here as a day count since the epoch.
   * A heading without a number gives an invalid date whose toISOString throws
   * (None).
   */
  function SprintDropDayAsWritten(heading: string, nowMs: int): Option<int> {
    FortnightStartDay(SprintNumber(heading), nowMs)
  }

  /** The UTC day holding now plus k - 1 fortnights, for a parsed number k. */
  function FortnightStartDay(k: Option<int>, nowMs: int): Option<int> {
    match k
    case None => None
    case Some(k) => Some((nowMs + (k - 1) * FortnightMs) / DayMs)
  }

  /** The sprint a stored date is counted in: `new Date(date)` is the UTC midnight of that day. */
  function SprintOfDay(day: int, nowMs: int): (r: int)
    ensures 1 <= r <= 8
  {
    SprintForDate(day * DayMs, nowMs)
  }

  /** The UTC midnight of the day holding instant t is at most a day before t. */
  lemma MidnightBounds(t: int)
    ensures t - DayMs < (t / DayMs) * DayMs <= t
  {}

  /** The day each lambda stores for a heading whose number parses to k. */
  lemma SprintDropDaysOfNumber(heading: string, k: int, nowMs: int)
    requires SprintNumber(heading) == Some(k)
    ensures SprintDropDayAsWritten(heading, nowMs) == Some((nowMs + (k - 1) * FortnightMs) / DayMs)
    ensures SprintDropDay(heading, nowMs) == Some((nowMs + (k - 1) * FortnightMs + 7 * DayMs) / DayMs)
  {
  }

  /** A stored day whose midnight lies in (e - DayMs, e] for e = j fortnights after now is counted in sprint j. */
  lemma SprintOfDayNearBoundary(day: int, nowMs: int, j: int)
    requires 1 <= j <= 8
    requires j * FortnightMs - DayMs < day * DayMs - nowMs <= j * FortnightMs
    ensures SprintOfDay(day, nowMs) == j
  {
    SprintForDateWindow(day * DayMs, nowMs, j);
  }

  /** The midnight of the day k - 1 fortnights after now is counted in sprint k - 1 (clamped to 1..8). */
  lemma SprintOfFortnightStart(k: int, nowMs: int)
    requires k >= 2
    ensures SprintOfDay((nowMs + (k - 1) * FortnightMs) / DayMs, nowMs) == Clamp(k - 1, 1, 8)
  {
    var t := nowMs + (k - 1) * FortnightMs;
    var day := t / DayMs;
    MidnightBounds(t);
    if k - 1 <= 8 {
      SprintOfDayNearBoundary(day, nowMs, k - 1);
    } else {
      assert 7 * FortnightMs < day * DayMs - nowMs;
      SprintForDateWindow(day * DayMs, nowMs, 8);
    }
  }

  /**
   * As written, a card dropped on "Sprint k" for k >= 2 is stored at the very
   * start of that fortnight, which getSprintForDate counts in sprint k - 1.
   */
  lemma SprintDropAsWrittenLandsOneEarlier(k: int, nowMs: int)
    requires k >= 2
    ensures var day := SprintDropDayAsWritten(SprintLabel(k), nowMs);
            day.Some? && SprintOfDay(day.value, nowMs) == Clamp(k - 1, 1, 8)
  {
    SprintNumberOfLabel(k);
    SprintDropDaysOfNumber(SprintLabel(k), k, nowMs);
    SprintOfFortnightStart(k, nowMs);
  }

  lemma SprintLabelTwo()
    ensures SprintLabel(2) == "Sprint 2"
  {
    assert IntToString(2) == "2";
  }

  /** The concrete case: dropping a card on "Sprint 2" shows it in "Sprint 1". */
  lemma SprintTwoDropShowsInSprintOne(nowMs: int)
    ensures var day := SprintDropDayAsWritten("Sprint 2", nowMs);
            day.Some? && SprintOfDay(day.value, nowMs) == 1
  {
    SprintLabelTwo();
    SprintDropAsWrittenLandsOneEarlier(2, nowMs);
  }

  /** The corrected lambda: a week into the target fortnight, clear of both of its boundaries. */
  function SprintDropDay(heading: string, nowMs: int): Option<int> {
    FortnightMiddleDay(SprintNumber(heading), nowMs)
  }

  /** The UTC day holding now plus k - 1 fortnights and a week, for a parsed number k. */
  function FortnightMiddleDay(k: Option<int>, nowMs: int): Option<int> {
    match k
    case None => None
    case Some(k) => Some((nowMs + (k - 1) * FortnightMs + 7 * DayMs) / DayMs)
  }

  /** The midnight of the day a week into fortnight k is counted in sprint k. */
  lemma SprintOfFortnightMiddle(k: int, nowMs: int)
    requires 1 <= k <= 8
    ensures SprintOfDay((nowMs + (k - 1) * FortnightMs + 7 * DayMs) / DayMs, nowMs) == k
  {
    var t := nowMs + (k - 1) * FortnightMs + 7 * DayMs;
    MidnightBounds(t);
    SprintForDateWindow((t / DayMs) * DayMs, nowMs, k);
  }

  /** Sprint round trip: a card dropped on any of the sprints 1..8 is counted in that sprint. */
  lemma SprintDropRoundTrip(k: int, nowMs: int)
    requires 1 <= k <= 8
    ensures var day := SprintDropDay(SprintLabel(k), nowMs);
            day.Some? && SprintOfDay(day.value, nowMs) == k
  {
    SprintNumberOfLabel(k);
    SprintDropDaysOfNumber(SprintLabel(k), k, nowMs);
    SprintOfFortnightMiddle(k, nowMs);
  }
}
