/**
 * The roadmap list page (static/js/roadmaps.js): each roadmap annotated
 * with the viewer's role, search and filter over the list, the sort keys,
 * the statistics counters, the grid/list toggle, the relative-date labels
 * and the create-form validation.
 */
module RoadmapsPage {
  import opened Wrappers
  import opened Text
  import opened Json
  import opened RoadmapPeriods

  datatype Role = Owner | Member | Unknown

  /**
   * A roadmap as roadmaps.js reads it from the roadmap list; timestamps are
   * milliseconds, a missing (null) update time or feature count None, a null
   * description "".
   */
  datatype RawRoadmap = RawRoadmap(id: int, name: string, description: string, ownerId: int,
                                   createdAt: int, updatedAt: Option<int>, featureCount: Option<nat>)

  /** A roadmap after loadRoadmaps has added its metadata. */
  datatype Card = Card(id: int, name: string, description: string, ownerId: int, role: Role,
                       featureCount: nat, createdAt: int, lastUpdated: int, isActive: bool)

  /** getRoadmapRole: Unknown without a signed-in user, else Owner exactly for the user's own roadmaps. */
  function RoleOf(ownerId: int, currentUser: Option<int>): (r: Role)
    ensures currentUser.None? <==> r == Unknown
    ensures r == Owner <==> currentUser == Some(ownerId)
  {
    if currentUser.None? then Unknown
    else if ownerId == currentUser.value then Owner
    else Member
  }

  /**
   * The metadata loadRoadmaps adds: the role, the feature count (0 when
   * missing), the last update (the creation time when never updated), and
   * active for every roadmap.
   */
  function Annotate(r: RawRoadmap, currentUser: Option<int>): (c: Card)
    ensures c.id == r.id && c.name == r.name && c.description == r.description && c.ownerId == r.ownerId
    ensures c.createdAt == r.createdAt
    ensures c.role == RoleOf(r.ownerId, currentUser) && c.isActive
    ensures r.featureCount.Some? ==> c.featureCount == r.featureCount.value
    ensures r.featureCount.None? ==> c.featureCount == 0
    ensures r.updatedAt.Some? ==> c.lastUpdated == r.updatedAt.value
    ensures r.updatedAt.None? ==> c.lastUpdated == r.createdAt
  {
    Card(r.id, r.name, r.description, r.ownerId, RoleOf(r.ownerId, currentUser),
         if r.featureCount.Some? then r.featureCount.value else 0, r.createdAt,
         if r.updatedAt.Some? then r.updatedAt.value else r.createdAt, true)
  }

  function AnnotateAll(rs: seq<RawRoadmap>, currentUser: Option<int>): (cs: seq<Card>)
    ensures |cs| == |rs|
    ensures forall i :: 0 <= i < |rs| ==> cs[i] == Annotate(rs[i], currentUser)
  {
    seq(|rs|, i requires 0 <= i < |rs| => Annotate(rs[i], currentUser))
  }

  // ---------------------------------------------------------------------------
  // Filtering
  // ---------------------------------------------------------------------------

  /** Array.prototype.filter: the elements satisfying p, in their original order. */
  function Filter(cs: seq<Card>, p: Card -> bool): (r: seq<Card>)
    ensures |r| <= |cs|
    ensures forall c :: c in r <==> c in cs && p(c)
  {
    if cs == [] then []
    else if p(cs[0]) then [cs[0]] + Filter(cs[1..], p)
    else Filter(cs[1..], p)
  }

  /** Filtering keeps the original order: the result is a subsequence of the input. */
  predicate IsSubsequence(r: seq<Card>, cs: seq<Card>)
    decreases |cs|
  {
    r == [] || (cs != [] && ((r[0] == cs[0] && IsSubsequence(r[1..], cs[1..])) || IsSubsequence(r, cs[1..])))
  }

  lemma {:induction false} FilterIsSubsequence(cs: seq<Card>, p: Card -> bool)
    ensures IsSubsequence(Filter(cs, p), cs)
    decreases |cs|
  {
    if cs != [] {
      FilterIsSubsequence(cs[1..], p);
      var rest := Filter(cs[1..], p);
      if p(cs[0]) {
        assert Filter(cs, p) == [cs[0]] + rest;
        assert ([cs[0]] + rest)[1..] == rest;
      }
    }
  }

  /** Filtering with the same predicate twice is filtering once. */
  lemma {:induction false} FilterIdempotent(cs: seq<Card>, p: Card -> bool)
    ensures Filter(Filter(cs, p), p) == Filter(cs, p)
    decreases |cs|
  {
    if cs != [] {
      FilterIdempotent(cs[1..], p);
      if p(cs[0]) {
        var r := [cs[0]] + Filter(cs[1..], p);
        assert r[0] == cs[0] && r[1..] == Filter(cs[1..], p);
      }
    }
  }

  /** The lower-cased query occurs in the lower-cased name, or in the lower-cased description when there is one. */
  predicate MatchesQuery(c: Card, query: string) {
    Contains(ToLower(c.name), query) || (c.description != "" && Contains(ToLower(c.description), query))
  }

  /**
   * handleSearch: the input is lower-cased and trimmed; an empty query
   * keeps every roadmap, any other keeps the matching ones in order.
   */
  function Search(all: seq<Card>, input: string): (r: seq<Card>)
    ensures Trim(ToLower(input)) == "" ==> r == all
    ensures Trim(ToLower(input)) != "" ==>
              forall c :: c in r <==> c in all && MatchesQuery(c, Trim(ToLower(input)))
  {
    var query := Trim(ToLower(input));
    if query == "" then all else Filter(all, (c: Card) => MatchesQuery(c, query))
  }

  /** Search results keep the list order, and searching them again with the same query changes nothing. */
  lemma SearchOrderAndIdempotence(all: seq<Card>, input: string)
    ensures IsSubsequence(Search(all, input), all)
    ensures Search(Search(all, input), input) == Search(all, input)
  {
    var query := Trim(ToLower(input));
    if query == "" {
      SubsequenceOfSelf(all);
    } else {
      FilterIsSubsequence(all, (c: Card) => MatchesQuery(c, query));
      FilterIdempotent(all, (c: Card) => MatchesQuery(c, query));
    }
  }

  lemma {:induction false} SubsequenceOfSelf(cs: seq<Card>)
    ensures IsSubsequence(cs, cs)
    decreases |cs|
  {
    if cs != [] {
      SubsequenceOfSelf(cs[1..]);
    }
  }

  // ---------------------------------------------------------------------------
  // Sorting
  // ---------------------------------------------------------------------------

  /** The sort select: by name ascending, by creation or last update newest first, or no sort. */
  datatype SortKey = ByName | ByCreated | ByUpdated | Unsorted

  /** String comparison by character code. */
  predicate LexLess(a: string, b: string)
    decreases |a|
  {
    if a == [] then b != []
    else if b == [] then false
    else if a[0] < b[0] then true
    else a[0] == b[0] && LexLess(a[1..], b[1..])
  }

  lemma {:induction false} LexLessTransitive(a: string, b: string, c: string)
    requires LexLess(a, b) && LexLess(b, c)
    ensures LexLess(a, c)
    decreases |a|
  {
    if a != [] && a[0] == b[0] && b[0] == c[0] {
      LexLessTransitive(a[1..], b[1..], c[1..]);
    }
  }

  lemma {:induction false} LexLessIrreflexive(a: string)
    ensures !LexLess(a, a)
    decreases |a|
  {
    if a != [] {
      LexLessIrreflexive(a[1..]);
    }
  }

  /** a sorts strictly before b under the comparator handleSort gives to Array.prototype.sort. */
  predicate Precedes(a: Card, b: Card, key: SortKey) {
    match key
    case ByName => LexLess(a.name, b.name)
    case ByCreated => a.createdAt > b.createdAt
    case ByUpdated => a.lastUpdated > b.lastUpdated
    case Unsorted => false
  }

  lemma PrecedesTransitive(a: Card, b: Card, c: Card, key: SortKey)
    requires Precedes(a, b, key) && Precedes(b, c, key)
    ensures Precedes(a, c, key)
  {
    if key == ByName {
      LexLessTransitive(a.name, b.name, c.name);
    }
  }

  predicate SortedBy(cs: seq<Card>, key: SortKey) {
    forall i, j :: 0 <= i < j < |cs| ==> !Precedes(cs[j], cs[i], key)
  }

  /** Where a card goes in a sorted list: after every card it does not strictly precede (keeps the sort stable). */
  function InsertPosition(cs: seq<Card>, x: Card, key: SortKey): (k: nat)
    ensures k <= |cs|
    ensures forall i :: 0 <= i < k ==> !Precedes(x, cs[i], key)
    ensures k < |cs| ==> Precedes(x, cs[k], key)
  {
    if cs == [] || Precedes(x, cs[0], key) then 0
    else 1 + InsertPosition(cs[1..], x, key)
  }

  lemma InsertKeepsSorted(cs: seq<Card>, x: Card, key: SortKey)
    requires SortedBy(cs, key)
    ensures var k := InsertPosition(cs, x, key);
            SortedBy(cs[..k] + [x] + cs[k..], key)
  {
    var k := InsertPosition(cs, x, key);
    var res := cs[..k] + [x] + cs[k..];
    forall j | k <= j < |cs| ensures !Precedes(cs[j], x, key) {
      if Precedes(cs[j], x, key) {
        PrecedesTransitive(cs[j], x, cs[k], key);
        if j == k {
          if key == ByName {
            LexLessIrreflexive(cs[k].name);
          }
        }
      }
    }
    forall i, j | 0 <= i < j < |res| ensures !Precedes(res[j], res[i], key) {
      if j < k {
        assert res[i] == cs[i] && res[j] == cs[j];
      } else if j == k {
        assert res[i] == cs[i] && res[j] == x;
      } else if i == k {
        assert res[i] == x && res[j] == cs[j - 1];
      } else if i > k {
        assert res[i] == cs[i - 1] && res[j] == cs[j - 1];
      } else {
        assert res[i] == cs[i] && res[j] == cs[j - 1];
      }
    }
  }

  lemma InsertElements(cs: seq<Card>, x: Card, k: nat)
    requires k <= |cs|
    ensures multiset(cs[..k] + [x] + cs[k..]) == multiset(cs) + multiset{x}
  {
    assert cs == cs[..k] + cs[k..];
    calc {
      multiset(cs[..k] + [x] + cs[k..]);
      multiset(cs[..k] + [x]) + multiset(cs[k..]);
      multiset(cs[..k]) + multiset{x} + multiset(cs[k..]);
      multiset(cs[..k]) + multiset(cs[k..]) + multiset{x};
    }
  }

  /** Inserting one card into a sorted list after every card it does not strictly precede. */
  function InsertSorted(cs: seq<Card>, x: Card, key: SortKey): (r: seq<Card>)
    requires SortedBy(cs, key)
    ensures SortedBy(r, key) && |r| == |cs| + 1
    ensures multiset(r) == multiset(cs) + multiset{x}
  {
    var k := InsertPosition(cs, x, key);
    InsertKeepsSorted(cs, x, key);
    InsertElements(cs, x, k);
    cs[..k] + [x] + cs[k..]
  }

  /** Array.prototype.sort with handleSort's comparator: a stable sort, here insertion of each card in turn. */
  function SortBy(cs: seq<Card>, key: SortKey): (r: seq<Card>)
    ensures SortedBy(r, key) && |r| == |cs|
    ensures multiset(r) == multiset(cs)
    decreases |cs|
  {
    if cs == [] then []
    else
      var x := cs[|cs| - 1];
      assert cs == cs[..|cs| - 1] + [x];
      InsertSorted(SortBy(cs[..|cs| - 1], key), x, key)
  }

  /** An unknown sort key leaves the order unchanged. */
  lemma {:induction false} UnsortedKeepsOrder(cs: seq<Card>)
    ensures SortBy(cs, Unsorted) == cs
    decreases |cs|
  {
    if cs != [] {
      UnsortedKeepsOrder(cs[..|cs| - 1]);
      assert cs == cs[..|cs| - 1] + [cs[|cs| - 1]];
    }
  }

  // ---------------------------------------------------------------------------
  // The filter select
  // ---------------------------------------------------------------------------

  function Min(a: int, b: int): int { if a < b then a else b }

  /** handleFilter's list before the search is reapplied. */
  function ApplyFilter(all: seq<Card>, filter: string): (r: seq<Card>)
    ensures filter == "owned" ==> forall c :: c in r <==> c in all && c.role == Owner
    ensures filter == "member" ==> forall c :: c in r <==> c in all && c.role == Member
    ensures filter == "recent" ==> |r| == Min(10, |all|) && SortedBy(r, ByUpdated)
    ensures filter !in {"owned", "member", "recent"} ==> r == all
  {
    if filter == "owned" then Filter(all, (c: Card) => c.role == Owner)
    else if filter == "member" then Filter(all, (c: Card) => c.role == Member)
    else if filter == "recent" then SortBy(all, ByUpdated)[..Min(10, |all|)]
    else all
  }

  /**
   * The 'recent' filter keeps the newest roadmaps: every roadmap shown was
   * updated no earlier than every roadmap left out.
   */
  lemma RecentAreNewest(all: seq<Card>)
    ensures var sorted := SortBy(all, ByUpdated);
            var m := Min(10, |all|);
            && ApplyFilter(all, "recent") == sorted[..m]
            && (forall i, j :: 0 <= i < m <= j < |sorted| ==> sorted[i].lastUpdated >= sorted[j].lastUpdated)
            && multiset(sorted[..m]) <= multiset(all)
  {
    var sorted := SortBy(all, ByUpdated);
    var m := Min(10, |all|);
    assert sorted == sorted[..m] + sorted[m..];
    assert multiset(sorted) == multiset(sorted[..m]) + multiset(sorted[m..]);
  }

  // ---------------------------------------------------------------------------
  // Statistics
  // ---------------------------------------------------------------------------

  function CountWhere(cs: seq<Card>, p: Card -> bool): (n: nat)
    ensures n <= |cs|
  {
    |Filter(cs, p)|
  }

  datatype Stats = Stats(total: nat, active: nat, team: nat, owned: nat)

  /** calculateStatistics. */
  function Statistics(all: seq<Card>): (s: Stats)
    ensures s.total == |all| && s.active <= s.total && s.team <= s.total && s.owned <= s.total
  {
    Stats(|all|, CountWhere(all, (c: Card) => c.isActive),
          CountWhere(all, (c: Card) => c.role == Member), CountWhere(all, (c: Card) => c.role == Owner))
  }

  lemma {:induction false} CountsSplit(cs: seq<Card>)
    requires forall c :: c in cs ==> c.role != Unknown
    ensures CountWhere(cs, (c: Card) => c.role == Member) + CountWhere(cs, (c: Card) => c.role == Owner) == |cs|
    decreases |cs|
  {
    if cs != [] {
      CountsSplit(cs[1..]);
    }
  }

  /** With a signed-in user every roadmap is owned or shared, so owned + team = total; all are active. */
  lemma StatisticsWithUser(rs: seq<RawRoadmap>, user: int)
    ensures var s := Statistics(AnnotateAll(rs, Some(user)));
            s.owned + s.team == s.total && s.active == s.total
  {
    var cs := AnnotateAll(rs, Some(user));
    CountsSplit(cs);
    AllActive(cs);
  }

  lemma {:induction false} AllActive(cs: seq<Card>)
    requires forall c :: c in cs ==> c.isActive
    ensures CountWhere(cs, (c: Card) => c.isActive) == |cs|
    decreases |cs|
  {
    if cs != [] {
      AllActive(cs[1..]);
    }
  }

  /** Without a user every role is Unknown, so both role counters are 0. */
  lemma StatisticsWithoutUser(rs: seq<RawRoadmap>)
    ensures var s := Statistics(AnnotateAll(rs, None));
            s.owned == 0 && s.team == 0
  {
    var cs := AnnotateAll(rs, None);
    FilterNone(cs, (c: Card) => c.role == Member);
    FilterNone(cs, (c: Card) => c.role == Owner);
  }

  lemma {:induction false} FilterNone(cs: seq<Card>, p: Card -> bool)
    requires forall i :: 0 <= i < |cs| ==> !p(cs[i])
    ensures Filter(cs, p) == []
    decreases |cs|
  {
    if cs != [] {
      FilterNone(cs[1..], p);
    }
  }

  // ---------------------------------------------------------------------------
  // Relative dates
  // ---------------------------------------------------------------------------

  function Abs(x: int): nat { if x < 0 then -x else x }

  /**
   * formatDate: the whole days (rounded up) between now and the date,
   * whichever comes first, as "Yesterday", days, weeks or months ago; a
   * year or more shows the locale date (given).
   */
  function FormatRelativeDate(dateMs: int, nowMs: int, localeDate: string): string {
    var diffDays := CeilDiv(Abs(nowMs - dateMs), DayMs);
    if diffDays == 1 then "Yesterday"
    else if diffDays < 7 then IntToString(diffDays) + " days ago"
    else if diffDays < 30 then IntToString(CeilDiv(diffDays, 7)) + " weeks ago"
    else if diffDays < 365 then IntToString(CeilDiv(diffDays, 30)) + " months ago"
    else localeDate
  }

  /** The day count formatDate works from, and the bucket each count falls into. */
  lemma FormatRelativeDateBuckets(dateMs: int, nowMs: int, localeDate: string)
    ensures var d := CeilDiv(Abs(nowMs - dateMs), DayMs);
            && (d - 1) * DayMs < Abs(nowMs - dateMs) <= d * DayMs
            && (d == 1 ==> FormatRelativeDate(dateMs, nowMs, localeDate) == "Yesterday")
            && (d != 1 && d < 7 ==> FormatRelativeDate(dateMs, nowMs, localeDate) == IntToString(d) + " days ago")
            && (7 <= d < 30 ==> (exists w :: 1 <= w <= 5 && (w - 1) * 7 < d <= w * 7 &&
                                           FormatRelativeDate(dateMs, nowMs, localeDate) == IntToString(w) + " weeks ago"))
            && (30 <= d < 365 ==> (exists m :: 1 <= m <= 13 && (m - 1) * 30 < d <= m * 30 &&
                                             FormatRelativeDate(dateMs, nowMs, localeDate) == IntToString(m) + " months ago"))
            && (d >= 365 ==> FormatRelativeDate(dateMs, nowMs, localeDate) == localeDate)
  {
    var d := CeilDiv(Abs(nowMs - dateMs), DayMs);
    if 7 <= d < 30 {
      var w := CeilDiv(d, 7);
      assert 1 <= w <= 5;
      assert FormatRelativeDate(dateMs, nowMs, localeDate) == IntToString(w) + " weeks ago";
    }
    if 30 <= d < 365 {
      var m := CeilDiv(d, 30);
      assert (m - 1) * 30 < 365;
      assert 1 <= m <= 13;
      assert FormatRelativeDate(dateMs, nowMs, localeDate) == IntToString(m) + " months ago";
    }
  }

  // ---------------------------------------------------------------------------
  // The create form
  // ---------------------------------------------------------------------------

  /** validateForm: the form is valid, and the save button enabled, iff the trimmed name is non-empty. */
  function FormIsValid(name: string): (valid: bool)
    ensures valid <==> !AllSpace(name)
  {
    TrimEmptyIffAllSpace(name);
    |Trim(name)| > 0
  }

  /** handleSaveRoadmap: no request for a blank name; otherwise the trimmed fields are posted. */
  function SaveRoadmapBody(name: string, description: string, template: string, visibility: string): (body: Option<Object>)
    ensures body.None? <==> !FormIsValid(name)
    ensures body.Some? ==> "name" in body.value && body.value["name"] == JStr(Trim(name)) && Trim(name) != ""
  {
    if Trim(name) == "" then None
    else Some(map["name" := JStr(Trim(name)), "description" := JStr(Trim(description)),
                  "template" := JStr(template), "visibility" := JStr(visibility)])
  }

  /** Every body the page posts has a name add_roadmap accepts. */
  lemma SavedNameAccepted(name: string, description: string, template: string, visibility: string)
    requires SaveRoadmapBody(name, description, template, visibility).Some?
    ensures !Falsy(Get(SaveRoadmapBody(name, description, template, visibility).value, "name", JNull))
  {}

  // ---------------------------------------------------------------------------
  // Page state
  // ---------------------------------------------------------------------------

  datatype ListView = Grid | List

  function Toggled(v: ListView): (r: ListView)
    ensures r != v
  {
    if v == Grid then List else Grid
  }

  lemma ToggleTwice(v: ListView)
    ensures Toggled(Toggled(v)) == v
  {}

  class RoadmapsPage {
    var allRoadmaps: seq<Card>
    var filteredRoadmaps: seq<Card>
    var currentView: ListView
    var currentUser: Option<int>

    constructor ()
      ensures allRoadmaps == [] && filteredRoadmaps == [] && currentView == Grid && currentUser == None
    {
      allRoadmaps := [];
      filteredRoadmaps := [];
      currentView := Grid;
      currentUser := None;
    }

    /** loadRoadmaps: the served list, annotated, becomes both the full and the shown list. */
    method LoadRoadmaps(served: seq<RawRoadmap>)
      modifies this
      ensures allRoadmaps == AnnotateAll(served, currentUser) && filteredRoadmaps == allRoadmaps
      ensures currentView == old(currentView) && currentUser == old(currentUser)
    {
      allRoadmaps := AnnotateAll(served, currentUser);
      filteredRoadmaps := allRoadmaps;
    }

    method HandleSearch(input: string)
      modifies this
      ensures filteredRoadmaps == Search(allRoadmaps, input)
      ensures allRoadmaps == old(allRoadmaps) && currentView == old(currentView) && currentUser == old(currentUser)
    {
      filteredRoadmaps := Search(allRoadmaps, input);
    }

    /** handleFilter: a non-blank search box replaces the filtered list by the search over all roadmaps. */
    method HandleFilter(filter: string, searchBox: string)
      modifies this
      ensures Trim(searchBox) == "" ==> filteredRoadmaps == ApplyFilter(allRoadmaps, filter)
      ensures Trim(searchBox) != "" ==> filteredRoadmaps == Search(allRoadmaps, searchBox)
      ensures allRoadmaps == old(allRoadmaps) && currentView == old(currentView) && currentUser == old(currentUser)
    {
      filteredRoadmaps := ApplyFilter(allRoadmaps, filter);
      if Trim(searchBox) != "" {
        HandleSearch(searchBox);
      }
    }

    /** handleSort: the shown list is reordered, never changed in content. */
    method HandleSort(key: SortKey)
      modifies this
      ensures filteredRoadmaps == SortBy(old(filteredRoadmaps), key)
      ensures multiset(filteredRoadmaps) == multiset(old(filteredRoadmaps)) && SortedBy(filteredRoadmaps, key)
      ensures allRoadmaps == old(allRoadmaps) && currentView == old(currentView) && currentUser == old(currentUser)
    {
      filteredRoadmaps := SortBy(filteredRoadmaps, key);
    }

    method ToggleView()
      modifies this
      ensures currentView == Toggled(old(currentView))
      ensures allRoadmaps == old(allRoadmaps) && filteredRoadmaps == old(filteredRoadmaps) && currentUser == old(currentUser)
    {
      currentView := Toggled(currentView);
    }
  }
}
