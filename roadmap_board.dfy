/**
 * The roadmap board (class RoadmapManager in static/js/roadmap.js): the
 * in-memory list of features, the navigation offsets of the period views,
 * the columns each view groups features into and their counts, the drag
 * reorder, the local delete and save, and the Gantt task rows handed to the chart
 * chart.
 */
module RoadmapBoard {
  import opened Wrappers
  import opened Text
  import opened Dates
  import opened RoadmapPeriods
  import opened RoadmapFormat

  /**
   * A feature row as the backend returns it. A null release or description
   * is the empty string here; every use in the board treats both as falsy.
   * `date` is the YYYY-MM-DD text of the stored date.
   */
  datatype Feature = Feature(
    id: int,
    title: string,
    description: string,
    priority: string,
    status: string,
    release: string,
    date: string)

  // ---------------------------------------------------------------------------
  // Counting and searching
  // ---------------------------------------------------------------------------

  /** The number of features satisfying p: `features.filter(p).length`. */
  function Count(fs: seq<Feature>, p: Feature -> bool): (n: nat)
    ensures n <= |fs|
  {
    if |fs| == 0 then 0 else (if p(fs[0]) then 1 else 0) + Count(fs[1..], p)
  }

  lemma {:induction false} CountAppend(a: seq<Feature>, b: seq<Feature>, p: Feature -> bool)
    ensures Count(a + b, p) == Count(a, p) + Count(b, p)
  {
    if |a| > 0 {
      assert (a + b)[1..] == a[1..] + b;
      CountAppend(a[1..], b, p);
    } else {
      assert a + b == b;
    }
  }

  /** Array.prototype.findIndex by id: the first position holding that id, -1 when there is none. */
  function FindIndex(fs: seq<Feature>, id: int): (r: int)
    ensures -1 <= r < |fs|
    ensures r >= 0 ==> fs[r].id == id && forall j :: 0 <= j < r ==> fs[j].id != id
    ensures r == -1 ==> forall j :: 0 <= j < |fs| ==> fs[j].id != id
  {
    if |fs| == 0 then -1
    else if fs[0].id == id then 0
    else
      var r := FindIndex(fs[1..], id);
      if r < 0 then -1 else r + 1
  }

  // ---------------------------------------------------------------------------
  // Status columns (renderKanban)
  // ---------------------------------------------------------------------------

  const Statuses: seq<string> := ["planned", "in-progress", "completed"]

  function StatusCount(fs: seq<Feature>, status: string): nat {
    Count(fs, (f: Feature) => f.status == status)
  }

  /** Features whose status has no column are not shown on the Kanban board. */
  function UnlistedStatusCount(fs: seq<Feature>): nat {
    Count(fs, (f: Feature) => f.status !in Statuses)
  }

  /** The three status columns and the unlisted features partition the feature list. */
  lemma {:induction false} StatusColumnsPartition(fs: seq<Feature>)
    ensures StatusCount(fs, "planned") + StatusCount(fs, "in-progress") + StatusCount(fs, "completed")
            + UnlistedStatusCount(fs) == |fs|
  {
    if |fs| > 0 {
      StatusColumnsPartition(fs[1..]);
    }
  }

  // ---------------------------------------------------------------------------
  // Release columns (getReleasesForView, renderReleaseAsKanban)
  // ---------------------------------------------------------------------------

  /** The column a release value belongs to: `release || 'Unassigned'`. */
  function ReleaseKeyOf(release: string): string {
    if release == "" then "Unassigned" else release
  }

  function ReleaseKey(f: Feature): string { ReleaseKeyOf(f.release) }

  function ReleaseKeys(fs: seq<Feature>): (r: seq<string>)
    ensures |r| == |fs| && forall i :: 0 <= i < |fs| ==> r[i] == ReleaseKey(fs[i])
  {
    seq(|fs|, i requires 0 <= i < |fs| => ReleaseKey(fs[i]))
  }

  predicate Distinct(s: seq<string>) {
    forall i, j :: 0 <= i < j < |s| ==> s[i] != s[j]
  }

  /** `Array.from(new Set(keys))`: the keys without repeats, in order of first occurrence. */
  function Dedup(keys: seq<string>): (r: seq<string>)
    ensures Distinct(r)
    ensures forall k :: k in r <==> k in keys
    ensures |r| <= |keys|
  {
    if |keys| == 0 then []
    else
      var r := Dedup(keys[..|keys| - 1]);
      var last := keys[|keys| - 1];
      assert forall k :: k in keys <==> k in keys[..|keys| - 1] || k == last by {
        assert keys == keys[..|keys| - 1] + [last];
      }
      if last in r then r else r + [last]
  }

  /** The position of the first occurrence of k. */
  function FirstIndex(keys: seq<string>, k: string): (r: nat)
    requires k in keys
    ensures r < |keys| && keys[r] == k && forall j :: 0 <= j < r ==> keys[j] != k
  {
    if keys[0] == k then 0 else 1 + FirstIndex(keys[1..], k)
  }

  lemma FirstIndexOfPrefix(keys: seq<string>, n: nat, k: string)
    requires n <= |keys| && k in keys[..n]
    ensures FirstIndex(keys, k) == FirstIndex(keys[..n], k)
  {
    var b := FirstIndex(keys[..n], k);
    assert keys[b] == k;
  }

  /** Dedup keeps keys in the order in which they first occur. */
  lemma {:induction false} DedupFirstOccurrenceOrder(keys: seq<string>)
    ensures forall i, j :: 0 <= i < j < |Dedup(keys)| ==>
              FirstIndex(keys, Dedup(keys)[i]) < FirstIndex(keys, Dedup(keys)[j])
  {
    if |keys| > 0 {
      var n := |keys| - 1;
      var prefix := keys[..n];
      DedupFirstOccurrenceOrder(prefix);
      var r0 := Dedup(prefix);
      var r := Dedup(keys);
      forall x | x in r0 ensures FirstIndex(keys, x) == FirstIndex(prefix, x) && FirstIndex(prefix, x) < n {
        FirstIndexOfPrefix(keys, n, x);
      }
      forall i, j | 0 <= i < j < |r| ensures FirstIndex(keys, r[i]) < FirstIndex(keys, r[j]) {
        if j < |r0| {
          assert r[i] == r0[i] && r[j] == r0[j];
        } else {
          assert r[i] == r0[i] && r[j] == keys[n];
          assert r[j] !in prefix;
          assert FirstIndex(keys, r[j]) == n;
        }
      }
    }
  }

  /** getReleasesForView over a feature list. */
  function Releases(fs: seq<Feature>): (r: seq<string>)
    ensures Distinct(r)
    ensures forall f :: f in fs ==> ReleaseKey(f) in r
    ensures forall k :: k in r ==> exists f :: f in fs && ReleaseKey(f) == k
  {
    var keys := ReleaseKeys(fs);
    assert forall f :: f in fs ==> ReleaseKey(f) in keys by {
      forall f | f in fs ensures ReleaseKey(f) in keys {
        var i :| 0 <= i < |fs| && fs[i] == f;
        assert keys[i] == ReleaseKey(f);
      }
    }
    assert forall k :: k in keys ==> exists f :: f in fs && ReleaseKey(f) == k by {
      forall k | k in keys ensures exists f :: f in fs && ReleaseKey(f) == k {
        var i :| 0 <= i < |keys| && keys[i] == k;
        assert fs[i] in fs && ReleaseKey(fs[i]) == k;
      }
    }
    Dedup(keys)
  }

  /** The size of the column for release key r. */
  function ReleaseCount(fs: seq<Feature>, r: string): nat {
    Count(fs, (f: Feature) => ReleaseKey(f) == r)
  }

  /** The sum of the counts of the given columns. */
  function ColumnTotal(cols: seq<string>, fs: seq<Feature>): nat {
    if |cols| == 0 then 0 else ReleaseCount(fs, cols[0]) + ColumnTotal(cols[1..], fs)
  }

  /** How many columns carry key k. */
  function Hits(cols: seq<string>, k: string): nat {
    if |cols| == 0 then 0 else (if cols[0] == k then 1 else 0) + Hits(cols[1..], k)
  }

  lemma {:induction false} HitsOfDistinct(cols: seq<string>, k: string)
    requires Distinct(cols) && k in cols
    ensures Hits(cols, k) == 1
  {
    if cols[0] == k {
      HitsAbsent(cols[1..], k);
    } else {
      HitsOfDistinct(cols[1..], k);
    }
  }

  lemma {:induction false} HitsAbsent(cols: seq<string>, k: string)
    requires k !in cols
    ensures Hits(cols, k) == 0
  {
    if |cols| > 0 {
      HitsAbsent(cols[1..], k);
    }
  }

  lemma {:induction false} ColumnTotalUnfold(cols: seq<string>, fs: seq<Feature>)
    requires |fs| > 0
    ensures ColumnTotal(cols, fs) == Hits(cols, ReleaseKey(fs[0])) + ColumnTotal(cols, fs[1..])
  {
    if |cols| > 0 {
      ColumnTotalUnfold(cols[1..], fs);
    }
  }

  /**
   * Every feature is counted in exactly one release column: the counts of
   * the columns getReleasesForView produces add up to the number of features.
   */
  lemma {:induction false} ReleaseColumnsPartition(cols: seq<string>, fs: seq<Feature>)
    requires Distinct(cols)
    requires forall f :: f in fs ==> ReleaseKey(f) in cols
    ensures ColumnTotal(cols, fs) == |fs|
  {
    if |fs| == 0 {
      ColumnTotalEmpty(cols, fs);
    } else {
      ColumnTotalUnfold(cols, fs);
      HitsOfDistinct(cols, ReleaseKey(fs[0]));
      ReleaseColumnsPartition(cols, fs[1..]);
    }
  }

  lemma {:induction false} ColumnTotalEmpty(cols: seq<string>, fs: seq<Feature>)
    requires |fs| == 0
    ensures ColumnTotal(cols, fs) == 0
  {
    if |cols| > 0 {
      ColumnTotalEmpty(cols[1..], fs);
    }
  }

  /** The release board's columns together show every feature exactly once. */
  lemma ReleaseBoardShowsAll(fs: seq<Feature>)
    ensures ColumnTotal(Releases(fs), fs) == |fs|
  {
    ReleaseColumnsPartition(Releases(fs), fs);
  }

  // ---------------------------------------------------------------------------
  // Month and quarter columns
  // ---------------------------------------------------------------------------

  /**
   * The month column a feature counts in (renderMonthAsKanban): its date read
   * with parseDate, so in local time without a shift. An unreadable date
   * (Invalid Date) matches no column.
   */
  predicate InMonthColumn(f: Feature, col: YearMonth, today: Date)
    requires Valid(today)
  {
    var d := ParseDate(f.date, today);
    d.Some? && d.value.year == col.year && d.value.month == col.month
  }

  function MonthCount(fs: seq<Feature>, col: YearMonth, today: Date): nat
    requires Valid(today)
  {
    Count(fs, (f: Feature) => InMonthColumn(f, col, today))
  }

  /**
   * The quarter column a feature counts in, read the way
   * renderQuarterAsKanban reads it: `new Date(feature.date)` is the UTC
   * midnight of the stored date, and getMonth/getFullYear see it in the
   * browser's zone.
   */
  function QuarterOfFeatureAsWritten(f: Feature, z: Zone): Option<Quarter> {
    match ParseIsoDate(f.date)
    case None => None
    case Some(d) => Some(QuarterOfDate(LocalDateOfUtcMidnight(d, z)))
  }

  /** The quarter column a feature should count in: the quarter of the same local date the month view uses. */
  function QuarterOfFeature(f: Feature, today: Date): Option<Quarter>
    requires Valid(today)
  {
    match ParseDate(f.date, today)
    case None => None
    case Some(d) => Some(QuarterOfDate(d))
  }

  /**
   * West of UTC the quarter view reads a first-of-quarter date as the last day
   * of the previous quarter: a feature stored on 1 April 2025 is counted in
   * Q1 2025 while the month view shows it in April.
   */
  lemma QuarterViewShiftsWestOfUtc(today: Date)
    requires Valid(today)
    ensures var f := Feature(1, "Launch", "", "high", "planned", "", "2025-04-01");
            QuarterOfFeatureAsWritten(f, WestOfUtc) == Some(Quarter(1, 2025))
            && InMonthColumn(f, YearMonth(2025, 4), today)
            && QuarterOfFeature(f, today) == Some(Quarter(2, 2025))
  {
    var d := Date(2025, 4, 1);
    assert FormatIso(d) == "2025-04-01";
    ParseFormatIso(d);
    ParseDateOfIso(d, today);
    assert LocalDateOfUtcMidnight(d, WestOfUtc) == Date(2025, 3, 31);
  }

  /**
   * With the local reading, the quarter view and the month view agree in
   * every zone: a feature counted in a month column is counted in the
   * quarter holding that month.
   */
  lemma QuarterAgreesWithMonth(f: Feature, col: YearMonth, today: Date)
    requires Valid(today) && InMonthColumn(f, col, today)
    ensures QuarterOfFeature(f, today) == Some(Quarter((col.month - 1) / 3 + 1, col.year))
  {}

  function QuarterCount(fs: seq<Feature>, col: Quarter, today: Date): nat
    requires Valid(today)
  {
    Count(fs, (f: Feature) => QuarterOfFeature(f, today) == Some(col))
  }

  /** A quarter column holds exactly the features of its three month columns. */
  lemma {:induction false} QuarterCountIsMonthSum(fs: seq<Feature>, q: int, year: int, today: Date)
    requires Valid(today) && 1 <= q <= 4
    ensures QuarterCount(fs, Quarter(q, year), today)
            == MonthCount(fs, YearMonth(year, 3 * q - 2), today)
             + MonthCount(fs, YearMonth(year, 3 * q - 1), today)
             + MonthCount(fs, YearMonth(year, 3 * q), today)
  {
    if |fs| > 0 {
      QuarterCountIsMonthSum(fs[1..], q, year, today);
      FeatureInQuarterIsInOneMonth(fs[0], q, year, today);
    }
  }

  /** A feature is in a quarter's column exactly when it is in one of that quarter's three month columns. */
  lemma FeatureInQuarterIsInOneMonth(f: Feature, q: int, year: int, today: Date)
    requires Valid(today) && 1 <= q <= 4
    ensures (if QuarterOfFeature(f, today) == Some(Quarter(q, year)) then 1 else 0)
            == (if InMonthColumn(f, YearMonth(year, 3 * q - 2), today) then 1 else 0)
             + (if InMonthColumn(f, YearMonth(year, 3 * q - 1), today) then 1 else 0)
             + (if InMonthColumn(f, YearMonth(year, 3 * q), today) then 1 else 0)
  {
    var d := ParseDate(f.date, today);
    if d.Some? {
      var qd := QuarterOfDate(d.value);
      assert qd == Quarter(q, year) <==> d.value.year == year && 3 * q - 2 <= d.value.month <= 3 * q;
    }
  }

  // ---------------------------------------------------------------------------
  // Column index in the timeline (renderFeatures)
  // ---------------------------------------------------------------------------

  function IndexOf(refs: seq<string>, key: string): (r: int)
    ensures -1 <= r < |refs|
    ensures r >= 0 ==> refs[r] == key && forall j :: 0 <= j < r ==> refs[j] != key
    ensures r == -1 ==> key !in refs
  {
    if |refs| == 0 then -1
    else if refs[0] == key then 0
    else
      var r := IndexOf(refs[1..], key);
      if r < 0 then -1 else r + 1
  }

  /** In the release timeline a feature goes to its key's column, or to the last column. */
  function ReleaseColumnIndex(refs: seq<string>, key: string): (r: int)
    requires |refs| > 0
    ensures 0 <= r < |refs|
    ensures key in refs ==> refs[r] == key
    ensures key !in refs ==> r == |refs| - 1
  {
    var i := IndexOf(refs, key);
    if i == -1 then |refs| - 1 else i
  }

  /** With the columns getReleasesForView makes, every feature lands in its own key's column. */
  lemma ReleaseTimelinePlacement(fs: seq<Feature>, f: Feature)
    requires f in fs
    ensures |Releases(fs)| > 0
    ensures Releases(fs)[ReleaseColumnIndex(Releases(fs), ReleaseKey(f))] == ReleaseKey(f)
  {}

  function FindMonth(refs: seq<YearMonth>, d: Date): (r: int)
    ensures -1 <= r < |refs|
    ensures r >= 0 ==> refs[r].year == d.year && refs[r].month == d.month
    ensures r >= 0 ==> forall j :: 0 <= j < r ==> !(refs[j].year == d.year && refs[j].month == d.month)
    ensures r == -1 ==> forall j :: 0 <= j < |refs| ==> !(refs[j].year == d.year && refs[j].month == d.month)
  {
    if |refs| == 0 then -1
    else if refs[0].year == d.year && refs[0].month == d.month then 0
    else
      var r := FindMonth(refs[1..], d);
      if r < 0 then -1 else r + 1
  }

  /**
   * In the month timeline a feature goes to its month's column; a date before
   * the first column goes to the first, any other unmatched or invalid date
   * to the last. `localDate` is the feature's date as `new Date(feature.date)`
   * shows it locally (None for an Invalid Date, whose comparisons are false).
   */
  function MonthColumnIndex(refs: seq<YearMonth>, localDate: Option<Date>): (r: int)
    requires |refs| > 0
    ensures 0 <= r < |refs|
    ensures localDate.Some? && FindMonth(refs, localDate.value) >= 0 ==>
              r == FindMonth(refs, localDate.value)
              && refs[r].year == localDate.value.year && refs[r].month == localDate.value.month
    ensures localDate.Some? && FindMonth(refs, localDate.value) < 0 ==>
              r == (if Before(localDate.value, Date(refs[0].year, refs[0].month, 1)) then 0 else |refs| - 1)
    ensures localDate.None? ==> r == |refs| - 1
  {
    match localDate
    case None => |refs| - 1
    case Some(d) =>
      var i := FindMonth(refs, d);
      if i >= 0 then i
      else if Before(d, Date(refs[0].year, refs[0].month, 1)) then 0
      else |refs| - 1
  }

  // ---------------------------------------------------------------------------
  // Reorder (initializeDragAndDrop onEnd)
  // ---------------------------------------------------------------------------

  function RemoveAt(s: seq<Feature>, k: nat): (r: seq<Feature>)
    requires k < |s|
    ensures |r| == |s| - 1
  {
    s[..k] + s[k + 1..]
  }

  function InsertAt(s: seq<Feature>, p: nat, x: Feature): (r: seq<Feature>)
    requires p <= |s|
    ensures |r| == |s| + 1 && r[p] == x
  {
    s[..p] + [x] + s[p..]
  }

  /**
   * `splice(findIndex(id), 1)` then `splice(newIndex, 0, feature)`. An id
   * that is absent gives index -1, and splice(-1, 1) removes the last
   * feature instead; an index past the end appends.
   */
  function Reorder(fs: seq<Feature>, id: int, newIndex: nat): seq<Feature>
    requires |fs| > 0
  {
    var i := FindIndex(fs, id);
    var k := if i >= 0 then i else |fs| - 1;
    var rest := RemoveAt(fs, k);
    InsertAt(rest, if newIndex <= |rest| then newIndex else |rest|, fs[k])
  }

  lemma RemoveInsertMultiset(fs: seq<Feature>, k: nat, p: nat)
    requires k < |fs| && p <= |fs| - 1
    ensures multiset(InsertAt(RemoveAt(fs, k), p, fs[k])) == multiset(fs)
  {
    var rest := RemoveAt(fs, k);
    assert rest == fs[..k] + fs[k + 1..];
    assert fs == fs[..k] + [fs[k]] + fs[k + 1..];
    assert multiset(fs) == multiset(fs[..k]) + multiset([fs[k]]) + multiset(fs[k + 1..]);
    assert multiset(rest) == multiset(fs[..k]) + multiset(fs[k + 1..]);
    assert rest == rest[..p] + rest[p..];
    assert multiset(rest) == multiset(rest[..p]) + multiset(rest[p..]);
    var r := InsertAt(rest, p, fs[k]);
    assert r == rest[..p] + [fs[k]] + rest[p..];
    assert multiset(r) == multiset(rest[..p]) + multiset([fs[k]]) + multiset(rest[p..]);
    assert multiset(r) == multiset(rest) + multiset([fs[k]]);
    assert multiset(fs) == multiset(rest) + multiset([fs[k]]);
  }

  lemma RemoveInsertedAt(rest: seq<Feature>, p: nat, x: Feature)
    requires p <= |rest|
    ensures RemoveAt(InsertAt(rest, p, x), p) == rest
  {
    var r := InsertAt(rest, p, x);
    assert r[..p] == rest[..p] && r[p + 1..] == rest[p..];
  }

  /**
   * The reorder is a permutation; the moved feature ends at newIndex (the end
   * when newIndex is past it); and the other features keep their relative order.
   */
  lemma ReorderPermutes(fs: seq<Feature>, id: int, newIndex: nat)
    requires |fs| > 0
    ensures var r := Reorder(fs, id, newIndex);
            var p := if newIndex < |fs| then newIndex else |fs| - 1;
            var k := if FindIndex(fs, id) >= 0 then FindIndex(fs, id) else |fs| - 1;
            |r| == |fs| && multiset(r) == multiset(fs)
            && r[p] == fs[k]
            && RemoveAt(r, p) == RemoveAt(fs, k)
  {
    var i := FindIndex(fs, id);
    var k := if i >= 0 then i else |fs| - 1;
    var rest := RemoveAt(fs, k);
    var p := if newIndex <= |rest| then newIndex else |rest|;
    RemoveInsertMultiset(fs, k, p);
    RemoveInsertedAt(rest, p, fs[k]);
  }

  // ---------------------------------------------------------------------------
  // Delete (deleteFeature)
  // ---------------------------------------------------------------------------

  /** `features.filter((f: Feature) => f.id !== id)`. */
  function RemoveId(fs: seq<Feature>, id: int): (r: seq<Feature>)
    ensures forall f :: f in r <==> f in fs && f.id != id
    ensures |r| + Count(fs, (f: Feature) => f.id == id) == |fs|
  {
    if |fs| == 0 then []
    else
      var rest := RemoveId(fs[1..], id);
      assert forall f :: f in fs <==> f == fs[0] || f in fs[1..] by {
        assert fs == [fs[0]] + fs[1..];
      }
      if fs[0].id == id then rest else [fs[0]] + rest
  }

  /** Deleting an id that is not on the board changes nothing. */
  lemma {:induction false} RemoveAbsentId(fs: seq<Feature>, id: int)
    requires FindIndex(fs, id) == -1
    ensures RemoveId(fs, id) == fs
  {
    if |fs| > 0 {
      RemoveAbsentId(fs[1..], id);
      assert [fs[0]] + fs[1..] == fs;
    }
  }

  // ---------------------------------------------------------------------------
  // Applying an update response (the onAdd handlers)
  // ---------------------------------------------------------------------------

  /** Which fields an onAdd handler copies from the response into the local feature. */
  datatype CopiedFields = StatusOnly | DateOnly | AllFields

  /**
   * The local update after a PUT: the feature with the response's id gets
   * the copied fields. An error body has no id, so findIndex gives -1 and
   * the assignment throws a TypeError; the list is left as it was. A
   * response for an id no longer on the board does the same.
   */
  function ApplyResponse(fs: seq<Feature>, copied: CopiedFields, response: Result<Feature, string>): (r: seq<Feature>)
    ensures |r| == |fs|
    ensures forall i :: 0 <= i < |fs| ==> r[i].id == fs[i].id
    ensures response.Err? ==> r == fs
    ensures response.Ok? && FindIndex(fs, response.value.id) < 0 ==> r == fs
    ensures response.Ok? && 0 <= FindIndex(fs, response.value.id) ==>
              var i := FindIndex(fs, response.value.id);
              && (copied == StatusOnly ==> r[i] == fs[i].(status := response.value.status))
              && (copied == DateOnly ==> r[i] == fs[i].(date := response.value.date))
              && (copied == AllFields ==> r[i] == response.value)
  {
    match response
    case Err(_) => fs
    case Ok(u) =>
      var i := FindIndex(fs, u.id);
      if i < 0 then fs
      else
        var merged := match copied
          case StatusOnly => fs[i].(status := u.status)
          case DateOnly => fs[i].(date := u.date)
          case AllFields => u;
        fs[i := merged]
  }

  /** Only the feature with the response's id changes. */
  lemma ApplyResponseFrame(fs: seq<Feature>, copied: CopiedFields, u: Feature)
    ensures var r := ApplyResponse(fs, copied, Ok(u));
            forall i :: 0 <= i < |fs| && i != FindIndex(fs, u.id) ==> r[i] == fs[i]
  {}

  /** A status drop that the server accepted moves one feature from its old status column to the new one. */
  lemma StatusDropMovesOneFeature(fs: seq<Feature>, u: Feature)
    requires 0 <= FindIndex(fs, u.id)
    requires fs[FindIndex(fs, u.id)].status != u.status
    ensures var r := ApplyResponse(fs, StatusOnly, Ok(u));
            StatusCount(r, u.status) == StatusCount(fs, u.status) + 1
            && StatusCount(r, fs[FindIndex(fs, u.id)].status) == StatusCount(fs, fs[FindIndex(fs, u.id)].status) - 1
  {
    var i := FindIndex(fs, u.id);
    var r := ApplyResponse(fs, StatusOnly, Ok(u));
    var old_ := fs[i].status;
    assert fs == fs[..i] + [fs[i]] + fs[i + 1..];
    assert r == fs[..i] + [r[i]] + fs[i + 1..];
    CountAppend(fs[..i] + [fs[i]], fs[i + 1..], (f: Feature) => f.status == u.status);
    CountAppend(fs[..i], [fs[i]], (f: Feature) => f.status == u.status);
    CountAppend(fs[..i] + [r[i]], fs[i + 1..], (f: Feature) => f.status == u.status);
    CountAppend(fs[..i], [r[i]], (f: Feature) => f.status == u.status);
    CountAppend(fs[..i] + [fs[i]], fs[i + 1..], (f: Feature) => f.status == old_);
    CountAppend(fs[..i], [fs[i]], (f: Feature) => f.status == old_);
    CountAppend(fs[..i] + [r[i]], fs[i + 1..], (f: Feature) => f.status == old_);
    CountAppend(fs[..i], [r[i]], (f: Feature) => f.status == old_);
  }

  // ---------------------------------------------------------------------------
  // Gantt tasks (buildTasksArray)
  // ---------------------------------------------------------------------------

  /** A task row for the Gantt chart; start and end are YYYY-MM-DD texts. */
  datatype Task = Task(id: string, name: string, start: string, end: string, progress: int, customClass: string)

  /**
   * `durations[priority] || durations['medium']`: a week for high priority,
   * three for low, two for any other priority.
   */
  function DurationDays(priority: string): (n: nat)
    ensures n in {7, 14, 21}
    ensures n == 7 <==> priority == "high"
    ensures n == 21 <==> priority == "low"
  {
    if priority == "high" then 7 else if priority == "low" then 21 else 14
  }

  /** Percent done: all for completed, half for in-progress, none otherwise. */
  function Progress(status: string): (p: int)
    ensures p in {0, 50, 100}
    ensures p == 100 <==> status == "completed"
    ensures p == 50 <==> status == "in-progress"
  {
    if status == "completed" then 100 else if status == "in-progress" then 50 else 0
  }

  /**
   * A feature becomes a task when it has a title and a date the host reads
   * as a valid time; stored dates are YYYY-MM-DD texts, read as UTC midnight.
   */
  predicate Schedulable(f: Feature) {
    f.title != "" && f.date != "" && ParseIsoDate(f.date).Some?
  }

  function TaskFor(f: Feature, index: nat): (t: Task)
    requires Schedulable(f)
    ensures t.start == f.date
    ensures t.end == FormatIso(AddDays(ParseIsoDate(f.date).value, DurationDays(f.priority)))
    ensures t.progress == Progress(f.status)
    ensures |t.name| <= 43
  {
    var start := ParseIsoDate(f.date).value;
    FormatParseIso(f.date);
    Task(
      "task_" + (if f.id != 0 then IntToString(f.id) else IntToString(index)),
      TruncateText(f.title, 40),
      FormatIso(start),
      FormatIso(AddDays(start, DurationDays(f.priority))),
      Progress(f.status),
      "task-" + (if f.priority == "" then "medium" else f.priority)
        + "-" + (if f.status == "" then "planned" else f.status))
  }

  /**
   * The task's id is "task_" and the feature's id, or its index when the id
   * is 0; its name is the title cut at 40 characters; its class names the
   * priority and status, "medium" and "planned" standing in for empty ones.
   */
  lemma TaskForFields(f: Feature, index: nat)
    requires Schedulable(f)
    ensures var t := TaskFor(f, index);
            && t.name == TruncateText(f.title, 40)
            && t.id == "task_" + (if f.id != 0 then IntToString(f.id) else IntToString(index))
            && t.customClass == "task-" + (if f.priority == "" then "medium" else f.priority)
                                + "-" + (if f.status == "" then "planned" else f.status)
  {}

  /** The tasks of a feature list, skipping features that cannot be scheduled. */
  function Tasks(fs: seq<Feature>): seq<Task>
  {
    if |fs| == 0 then []
    else
      var n := |fs| - 1;
      Tasks(fs[..n]) + (if Schedulable(fs[n]) then [TaskFor(fs[n], n)] else [])
  }

  function SchedulableCount(fs: seq<Feature>): nat {
    Count(fs, (f: Feature) => Schedulable(f))
  }

  /** One task per schedulable feature, so never more tasks than features. */
  lemma {:induction false} TasksLength(fs: seq<Feature>)
    ensures |Tasks(fs)| == SchedulableCount(fs) <= |fs|
  {
    if |fs| > 0 {
      var n := |fs| - 1;
      TasksLength(fs[..n]);
      assert fs == fs[..n] + [fs[n]];
      CountAppend(fs[..n], [fs[n]], (f: Feature) => Schedulable(f));
    }
  }

  /** Every task comes from a schedulable feature at its index, and every schedulable feature yields its task. */
  lemma TasksUnfold(fs: seq<Feature>)
    requires |fs| > 0
    ensures var n := |fs| - 1;
            Tasks(fs) == Tasks(fs[..n]) + (if Schedulable(fs[n]) then [TaskFor(fs[n], n)] else [])
  {}

  /** Every task comes from a schedulable feature at its index. */
  lemma {:induction false} TasksComeFromFeatures(fs: seq<Feature>)
    ensures forall t :: t in Tasks(fs) ==>
              exists i :: 0 <= i < |fs| && Schedulable(fs[i]) && t == TaskFor(fs[i], i)
  {
    if |fs| > 0 {
      var n := |fs| - 1;
      var prefix := fs[..n];
      TasksComeFromFeatures(prefix);
      TasksUnfold(fs);
      var last := if Schedulable(fs[n]) then [TaskFor(fs[n], n)] else [];
      assert Tasks(fs) == Tasks(prefix) + last;
      forall t | t in Tasks(fs)
        ensures exists i :: 0 <= i < |fs| && Schedulable(fs[i]) && t == TaskFor(fs[i], i)
      {
        if t in Tasks(prefix) {
          var i :| 0 <= i < |prefix| && Schedulable(prefix[i]) && t == TaskFor(prefix[i], i);
          assert fs[i] == prefix[i];
        } else {
          assert t in last;
        }
      }
    }
  }

  /**
   * Every schedulable feature yields its task, placed after those of the
   * schedulable features before it: the order of the board is kept.
   */
  /** The tasks of all but the last feature come first, at their own positions. */
  lemma TasksSnocAt(fs: seq<Feature>, k: nat)
    requires |fs| > 0 && k < |Tasks(fs[..|fs| - 1])|
    ensures k < |Tasks(fs)| && Tasks(fs)[k] == Tasks(fs[..|fs| - 1])[k]
  {
    TasksUnfold(fs);
  }

  /** The last feature's task, when it has one, follows the tasks of the others. */
  lemma TasksSnocLast(fs: seq<Feature>)
    requires |fs| > 0 && Schedulable(fs[|fs| - 1])
    ensures |Tasks(fs[..|fs| - 1])| < |Tasks(fs)|
    ensures Tasks(fs)[|Tasks(fs[..|fs| - 1])|] == TaskFor(fs[|fs| - 1], |fs| - 1)
  {
    TasksUnfold(fs);
  }

  lemma {:induction false} TaskPosition(fs: seq<Feature>, i: nat)
    requires i < |fs| && Schedulable(fs[i])
    ensures SchedulableCount(fs[..i]) < |Tasks(fs)|
    ensures Tasks(fs)[SchedulableCount(fs[..i])] == TaskFor(fs[i], i)
  {
    var n := |fs| - 1;
    var prefix := fs[..n];
    TasksLength(prefix);
    if i == n {
      assert fs[..i] == prefix;
      TasksSnocLast(fs);
    } else {
      assert prefix[..i] == fs[..i];
      assert prefix[i] == fs[i];
      TaskPosition(prefix, i);
      TasksSnocAt(fs, SchedulableCount(fs[..i]));
    }
  }

  // ---------------------------------------------------------------------------
  // The board's state
  // ---------------------------------------------------------------------------

  class RoadmapManager {
    var currentView: View
    var features: seq<Feature>
    var selectedFeature: Option<Feature>
    var editingFeatureId: Option<int>
    var monthOffset: int
    var quarterOffset: int
    var sprintOffset: int

    /** A fresh board: month view, no features, every offset at the current period. */
    constructor()
      ensures currentView == MonthView && features == []
      ensures selectedFeature == None && editingFeatureId == None
      ensures monthOffset == 0 && quarterOffset == 0 && sprintOffset == 0
    {
      currentView := MonthView;
      features := [];
      selectedFeature := None;
      editingFeatureId := None;
      monthOffset := 0;
      quarterOffset := 0;
      sprintOffset := 0;
    }

    /** fetchFeatures after a successful response: the board holds the fetched rows. */
    method LoadFeatures(fetched: seq<Feature>)
      modifies this`features
      ensures features == fetched
    {
      features := fetched;
    }

    method SetView(v: View)
      modifies this`currentView
      ensures currentView == v
    {
      currentView := v;
    }

    /**
     * navigateTimeline: moves the offset of the named view by a screenful of
     * columns (the column count of the current view) in the given direction;
     * the other offsets stay.
     */
    method NavigateTimeline(viewType: View, direction: int, screenWidth: int)
      modifies this`monthOffset, this`quarterOffset, this`sprintOffset
      ensures var step := direction * OptimalColumnCount(currentView, screenWidth);
              monthOffset == old(monthOffset) + (if viewType == MonthView then step else 0)
              && quarterOffset == old(quarterOffset) + (if viewType == QuarterView then step else 0)
              && sprintOffset == old(sprintOffset) + (if viewType == SprintView then step else 0)
    {
      var columnCount := OptimalColumnCount(currentView, screenWidth);
      match viewType {
        case MonthView => monthOffset := monthOffset + direction * columnCount;
        case QuarterView => quarterOffset := quarterOffset + direction * columnCount;
        case SprintView => sprintOffset := sprintOffset + direction * columnCount;
        case _ =>
      }
    }

    /** resetToCurrentPeriod: every view goes back to the current period. */
    method ResetToCurrentPeriod()
      modifies this`monthOffset, this`quarterOffset, this`sprintOffset
      ensures monthOffset == 0 && quarterOffset == 0 && sprintOffset == 0
    {
      monthOffset := 0;
      quarterOffset := 0;
      sprintOffset := 0;
    }

    /** getReleasesForView on the board's features. */
    function ReleasesForView(): (r: seq<string>)
      reads this
      ensures Distinct(r)
      ensures forall f :: f in features ==> ReleaseKey(f) in r
      ensures forall k :: k in r ==> exists f :: f in features && ReleaseKey(f) == k
    {
      Releases(features)
    }

    /** getQuartersForView: one label per column, column i showing the quarter quarterOffset + i after today's. */
    method QuartersForView(todayYear: int, todayMonthIndex: int, screenWidth: int) returns (labels: seq<string>)
      requires 0 <= todayMonthIndex < 12
      ensures |labels| == OptimalColumnCount(currentView, screenWidth)
      ensures forall i :: 0 <= i < |labels| ==>
                labels[i] == QuarterLabel(QuarterAt(todayYear, todayMonthIndex, quarterOffset + i))
    {
      labels := [];
      var count := OptimalColumnCount(currentView, screenWidth);
      var i := 0;
      while i < count
        invariant 0 <= i <= count
        invariant |labels| == i
        invariant forall j :: 0 <= j < i ==>
                    labels[j] == QuarterLabel(QuarterAt(todayYear, todayMonthIndex, quarterOffset + j))
      {
        var k := quarterOffset + i;
        var currentQuarter := todayMonthIndex / 3;
        var year := todayYear + (currentQuarter + k) / 4;
        var quarter := JsRem(JsRem(currentQuarter + k, 4) + 4, 4) + 1;
        var column := "Q" + IntToString(quarter) + " " + IntToString(year);
        assert column == QuarterLabel(QuarterAt(todayYear, todayMonthIndex, k)) by {
          assert QuarterAt(todayYear, todayMonthIndex, k) == Quarter(quarter, year);
        }
        labels := labels + [column];
        i := i + 1;
      }
    }

    /** getSprintsForView: column i shows sprint sprintOffset + i + 1. */
    method SprintsForView(screenWidth: int) returns (labels: seq<string>)
      ensures |labels| == OptimalColumnCount(currentView, screenWidth)
      ensures forall i :: 0 <= i < |labels| ==> labels[i] == SprintLabel(sprintOffset + i + 1)
    {
      labels := [];
      var count := OptimalColumnCount(currentView, screenWidth);
      var i := 0;
      while i < count
        invariant 0 <= i <= count
        invariant |labels| == i
        invariant forall j :: 0 <= j < i ==> labels[j] == SprintLabel(sprintOffset + j + 1)
      {
        labels := labels + ["Sprint " + IntToString(sprintOffset + i + 1)];
        i := i + 1;
      }
    }

    /** getMonthsForView, as (year, month) columns rather than locale-formatted names. */
    method MonthsForView(todayYear: int, todayMonthIndex: int, screenWidth: int) returns (cols: seq<YearMonth>)
      ensures |cols| == OptimalColumnCount(currentView, screenWidth)
      ensures forall i :: 0 <= i < |cols| ==> cols[i] == MonthAt(todayYear, todayMonthIndex, monthOffset + i)
    {
      cols := [];
      var count := OptimalColumnCount(currentView, screenWidth);
      var i := 0;
      while i < count
        invariant 0 <= i <= count
        invariant |cols| == i
        invariant forall j :: 0 <= j < i ==> cols[j] == MonthAt(todayYear, todayMonthIndex, monthOffset + j)
      {
        var d := JsLocalDate(todayYear, todayMonthIndex + monthOffset + i, 1);
        cols := cols + [YearMonth(d.year, d.month)];
        i := i + 1;
      }
    }

    /** The onEnd handler of the timeline: moves the dragged feature to its drop position. */
    method OnEndReorder(featureId: int, newIndex: nat)
      requires |features| > 0
      modifies this`features
      ensures features == Reorder(old(features), featureId, newIndex)
    {
      var featureIndex := FindIndex(features, featureId);
      var k := if featureIndex >= 0 then featureIndex else |features| - 1;
      var feature := features[k];
      features := features[..k] + features[k + 1..];
      var p := if newIndex <= |features| then newIndex else |features|;
      features := features[..p] + [feature] + features[p..];
    }

    /**
     * deleteFeature: when the DELETE succeeded, every feature with the
     * selected id leaves the list; a failed request, or no selected feature
     * (a TypeError before the request), changes nothing.
     */
    method DeleteFeature(responseOk: bool)
      modifies this`features
      ensures selectedFeature.Some? && responseOk ==> features == RemoveId(old(features), selectedFeature.value.id)
      ensures selectedFeature.None? || !responseOk ==> features == old(features)
    {
      if selectedFeature.Some? && responseOk {
        features := RemoveId(features, selectedFeature.value.id);
      }
    }

    /**
     * saveFeature once the response has arrived. Creating: a successful
     * response is appended; an error is logged. Editing (editingFeatureId is
     * set and truthy): the returned row replaces the feature with that id and
     * editing ends.
     */
    method SaveFeature(response: Result<Feature, string>)
      requires editingFeatureId.Some? && editingFeatureId.value != 0 ==> response.Ok?
      modifies this`features, this`editingFeatureId
      ensures old(editingFeatureId).Some? && old(editingFeatureId).value != 0 ==>
                var i := FindIndex(old(features), old(editingFeatureId).value);
                features == (if i >= 0 then old(features)[i := response.value] else old(features))
                && editingFeatureId == None
      ensures !(old(editingFeatureId).Some? && old(editingFeatureId).value != 0) ==>
                features == (if response.Ok? then old(features) + [response.value] else old(features))
                && editingFeatureId == old(editingFeatureId)
    {
      if editingFeatureId.Some? && editingFeatureId.value != 0 {
        var idx := FindIndex(features, editingFeatureId.value);
        if idx >= 0 {
          features := features[idx := response.value];
        }
        editingFeatureId := None;
      } else if response.Ok? {
        features := features + [response.value];
      }
    }

    /** An onAdd handler once the PUT has answered. */
    method ApplyDropResponse(copied: CopiedFields, response: Result<Feature, string>)
      modifies this`features
      ensures features == ApplyResponse(old(features), copied, response)
    {
      match response {
        case Err(_) =>
        case Ok(u) =>
          var idx := FindIndex(features, u.id);
          if idx >= 0 {
            match copied {
              case StatusOnly => features := features[idx := features[idx].(status := u.status)];
              case DateOnly => features := features[idx := features[idx].(date := u.date)];
              case AllFields => features := features[idx := u];
            }
          }
      }
    }

    /** buildTasksArray: the Gantt rows of the board's features, in board order. */
    method BuildTasksArray() returns (tasks: seq<Task>)
      ensures tasks == Tasks(features)
      ensures |tasks| <= |features|
    {
      tasks := [];
      var i := 0;
      while i < |features|
        invariant 0 <= i <= |features|
        invariant tasks == Tasks(features[..i])
      {
        var feature := features[i];
        assert features[..i + 1][..i] == features[..i];
        assert features[..i + 1][i] == feature;
        if feature.title != "" && feature.date != "" {
          var startDate := ParseIsoDate(feature.date);
          if startDate.Some? {
            tasks := tasks + [TaskFor(feature, i)];
          }
        }
        i := i + 1;
      }
      assert features[..i] == features;
      TasksLength(features);
    }
  }
}
