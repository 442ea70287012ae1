/**
 * The string helpers of the roadmap board (static/js/roadmap.js): truncating
 * titles, reading a stored date as a local calendar date, and normalising a
 * date for a date input.
 */
module RoadmapFormat {
  import opened Wrappers
  import opened Text
  import opened Dates

  /** truncateText: at most maxLength characters of the text, marked with "..." when cut. */
  function TruncateText(text: string, maxLength: nat): (r: string)
    ensures |r| <= maxLength + 3
    ensures |text| <= maxLength ==> r == text
    ensures |text| > maxLength ==> |r| == maxLength + 3 && r[..maxLength] == text[..maxLength]
  {
    if text == "" then ""
    else if |text| > maxLength then text[..maxLength] + "..."
    else text
  }

  /**
   * parseDate: the empty string means today; otherwise the text is split on
   * '-' and the first three parts go through parseInt into the local-time
   * Date constructor, month first made 0-based. A missing or non-numeric
   * part gives an Invalid Date (None).
   */
  function ParseDate(s: string, today: Date): (r: Option<Date>)
    requires Valid(today)
    ensures r.Some? ==> Valid(r.value)
    ensures s == "" ==> r == Some(today)
  {
    if s == "" then Some(today) else DateOfParts(Split(s, '-'))
  }

  /** The local date the first three '-'-separated parts name, through parseInt and the Date constructor. */
  function DateOfParts(parts: seq<string>): (r: Option<Date>)
    ensures r.Some? ==> Valid(r.value)
  {
    if |parts| < 3 then None
    else
      var y, m, d := ParseInt(parts[0]), ParseInt(parts[1]), ParseInt(parts[2]);
      if y.Some? && m.Some? && d.Some? then Some(JsLocalDate(y.value, m.value - 1, d.value))
      else None
  }

  lemma DigitsValueOfTwo(s: string)
    requires |s| == 2 && AllDigits(s)
    ensures DigitsValue(s) == Value2(s)
  {
    var a := s[..1];
    assert a[..0] == [];
    assert DigitsValue(a) == DigitVal(s[0]);
    assert DigitsValue(s) == DigitsValue(a) * 10 + DigitVal(s[1]);
  }

  lemma DigitsValueOfFour(s: string)
    requires |s| == 4 && AllDigits(s)
    ensures DigitsValue(s) == Value4(s)
  {
    var a := s[..3];
    assert a[..2] == s[..2];
    DigitsValueOfTwo(s[..2]);
    assert DigitsValue(a) == Value2(s[..2]) * 10 + DigitVal(s[2]);
    assert DigitsValue(s) == DigitsValue(a) * 10 + DigitVal(s[3]);
    assert Value2(s[2..]) == 10 * DigitVal(s[2]) + DigitVal(s[3]);
  }

  lemma ParseIntPad4(n: int)
    requires 0 <= n < 10000
    ensures ParseInt(Pad4(n)) == Some(n)
  {
    DigitsValueOfFour(Pad4(n));
    Value4Pad4(n);
    ParseIntOfDigits(Pad4(n));
  }

  lemma ParseIntPad2(n: int)
    requires 0 <= n < 100
    ensures ParseInt(Pad2(n)) == Some(n)
  {
    DigitsValueOfTwo(Pad2(n));
    Value2Pad2(n);
    ParseIntOfDigits(Pad2(n));
  }

  /** A YYYY-MM-DD rendering splits on '-' into its three fields. */
  lemma SplitIso(d: Date)
    requires Valid(d) && 0 <= d.year <= 9999
    ensures Split(FormatIso(d), '-') == [Pad4(d.year), Pad2(d.month), Pad2(d.day)]
  {
    var y, m, dd := Pad4(d.year), Pad2(d.month), Pad2(d.day);
    assert FormatIso(d) == y + ['-'] + (m + ['-'] + dd);
    SplitAtFirstSeparator(y, m + ['-'] + dd, '-');
    SplitAtFirstSeparator(m, dd, '-');
    SplitWithoutSeparator(dd, '-');
  }

  /**
   * Reading back a stored date: for every real date from year 100 on,
   * parseDate of its YYYY-MM-DD rendering is that same local date, with
   * no time-zone shift.
   */
  lemma ParseDateOfIso(d: Date, today: Date)
    requires Valid(d) && Valid(today) && 100 <= d.year <= 9999
    ensures ParseDate(FormatIso(d), today) == Some(d)
  {
    FormatIsoShape(d);
    SplitIso(d);
    ParseIntPad4(d.year);
    ParseIntPad2(d.month);
    ParseIntPad2(d.day);
    DateOfThreeParts(Pad4(d.year), Pad2(d.month), Pad2(d.day), d.year, d.month, d.day);
    JsLocalDateInRange(d.year, d.month - 1, d.day);
  }

  /** Three parts that parseInt reads as numbers name the local date of those numbers. */
  lemma DateOfThreeParts(a: string, b: string, c: string, y: int, m: int, dd: int)
    requires ParseInt(a) == Some(y) && ParseInt(b) == Some(m) && ParseInt(c) == Some(dd)
    ensures DateOfParts([a, b, c]) == Some(JsLocalDate(y, m - 1, dd))
  {
  }

  /** Years 0..99 are read as 1900..1999: "0050-01-01" is 1 January 1950. */
  lemma ParseDateTwoDigitYear(today: Date)
    requires Valid(today)
    ensures ParseDate("0050-01-01", today) == Some(Date(1950, 1, 1))
  {
    var d := Date(50, 1, 1);
    assert FormatIso(d) == "0050-01-01";
    SplitIso(d);
    ParseIntPad4(50);
    ParseIntPad2(1);
    assert JsLocalDate(50, 0, 1) == Date(1950, 1, 1);
    assert DateOfParts([Pad4(50), Pad2(1), Pad2(1)]) == Some(Date(1950, 1, 1));
  }

  datatype InputDateError = InvalidTimeValue

  /**
   * formatDateForInput: the empty string stays empty, a YYYY-MM-DD string is
   * kept as it is, and anything else is handed to the host's Date parser
   * (hostParse: the UTC date it assigns, None for an invalid date) and
   * rendered with toISOString, which throws a RangeError on an invalid date.
   */
  function FormatDateForInput(s: string, hostParse: Option<Date>): (r: Result<string, InputDateError>)
    requires hostParse.Some? ==> Valid(hostParse.value)
    ensures s == "" ==> r == Ok("")
    ensures IsIsoShape(s) ==> r == Ok(s)
    ensures r.Err? <==> s != "" && !IsIsoShape(s) && hostParse.None?
  {
    if s == "" then Ok("")
    else if IsIsoShape(s) then Ok(s)
    else match hostParse
      case None => Err(InvalidTimeValue)
      case Some(d) => Ok(FormatIso(d))
  }

  /**
   * Every value the function returns for a date of years 0..9999 is either
   * empty or of the YYYY-MM-DD shape, so feeding it back returns it unchanged
   * whatever the host parser would do.
   */
  lemma FormatDateForInputIdempotent(s: string, hostParse: Option<Date>, hostParse2: Option<Date>)
    requires hostParse.Some? ==> Valid(hostParse.value) && 0 <= hostParse.value.year <= 9999
    requires hostParse2.Some? ==> Valid(hostParse2.value)
    requires FormatDateForInput(s, hostParse).Ok?
    ensures var r := FormatDateForInput(s, hostParse).value;
            (r == "" || IsIsoShape(r)) && FormatDateForInput(r, hostParse2) == Ok(r)
  {
    if s != "" && !IsIsoShape(s) {
      FormatIsoShape(hostParse.value);
    }
  }
}
