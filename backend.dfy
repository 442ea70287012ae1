/**
 * The Flask backend of app.py: the roadmap, feature and persona tables held
 * as in-memory maps keyed by id, and the request handlers that read and
 * change them. A request body is the decoded JSON object; a handler's reply
 * is its status code and the row it serialises.
 */
module Backend {
  import opened Wrappers
  import opened Dates
  import opened Json
  import RoadmapDrops

  const Ok200 := 200
  const Created201 := 201
  const NoContent204 := 204
  const BadRequest400 := 400
  const NotFound404 := 404

  /** A row of the feature table. A JSON null in a nullable column stays JNull. */
  datatype FeatureRow = FeatureRow(
    id: int, title: Json, description: Json, priority: Json,
    status: Json, release: Json, roadmapId: int, date: Date)

  /** A row of the persona table. */
  datatype PersonaRow = PersonaRow(
    id: int, name: Json, age: Json, jobTitle: Json,
    demographics: Json, behaviors: Json, goals: Json, pains: Json)

  /**
   * datetime.fromisoformat(value).date() on the YYYY-MM-DD form; anything
   * else, a missing value (None) included, raises.
   */
  function FromIsoFormat(value: Json): (r: Option<Date>)
    ensures r.Some? ==> value.JStr? && ParseIsoDate(value.str) == r
    ensures value.JStr? && ParseIsoDate(value.str).Some? ==> r.Some?
  {
    if value.JStr? then ParseIsoDate(value.str) else None
  }

  /** The JSON object a handler replies with for a feature; the date is written with isoformat(). */
  function FeatureJson(row: FeatureRow): (o: Object)
    requires Valid(row.date)
    ensures o.Keys == {"id", "title", "description", "priority", "status", "release", "date"}
    ensures o["id"] == JInt(row.id) && o["date"] == JStr(FormatIso(row.date))
  {
    map["id" := JInt(row.id), "title" := row.title, "description" := row.description,
        "priority" := row.priority, "status" := row.status, "release" := row.release,
        "date" := JStr(FormatIso(row.date))]
  }

  // ---------------------------------------------------------------------------
  // Creating and merging feature rows
  // ---------------------------------------------------------------------------

  /**
   * The row add_feature_to_roadmap builds: missing optional fields default
   * to '' (release to None), a date that does not parse raises, and a null
   * title fails the NOT NULL constraint at commit; both are answered with 400.
   */
  function NewFeature(data: Object, roadmapId: int, id: int): (r: Result<FeatureRow, int>)
    ensures r.Err? <==> FromIsoFormat(Get(data, "date", JNull)).None? || Get(data, "title", JNull) == JNull
    ensures r.Err? ==> r.error == BadRequest400
    ensures r.Ok? ==> r.value.id == id && r.value.roadmapId == roadmapId
                      && Some(r.value.date) == FromIsoFormat(data["date"])
  {
    var date := FromIsoFormat(Get(data, "date", JNull));
    var title := Get(data, "title", JNull);
    if date.None? || title == JNull then Err(BadRequest400)
    else Ok(FeatureRow(id, title, Get(data, "description", JStr("")), Get(data, "priority", JStr("")),
                       Get(data, "status", JStr("")), Get(data, "release", JNull), roadmapId, date.value))
  }

  /** A row the database can hold and serialise: a title, and a date isoformat writes as YYYY-MM-DD. */
  predicate Storable(row: FeatureRow) {
    row.title != JNull && Valid(row.date) && 1 <= row.date.year <= 9999
  }

  /** Posting back what the backend served recreates the same row. */
  lemma NewFeatureOfJson(row: FeatureRow)
    requires Storable(row)
    ensures NewFeature(FeatureJson(row), row.roadmapId, row.id) == Ok(row)
  {
    ParseFormatIso(row.date);
  }

  /**
   * update_feature as written: every field but the date keeps its old value
   * when its key is absent, and the date is always parsed from the body, so a
   * body without a date is answered with 400 and nothing is committed.
   */
  function MergeFeatureAsWritten(row: FeatureRow, data: Object): (r: Result<FeatureRow, int>)
    ensures r.Err? ==> r.error == BadRequest400
    ensures "date" !in data ==> r == Err(BadRequest400)
    ensures r.Ok? ==> r.value.id == row.id && r.value.roadmapId == row.roadmapId
  {
    var title := Get(data, "title", row.title);
    var date := FromIsoFormat(Get(data, "date", JNull));
    if date.None? || title == JNull then Err(BadRequest400)
    else Ok(row.(title := title,
                 description := Get(data, "description", row.description),
                 priority := Get(data, "priority", row.priority),
                 status := Get(data, "status", row.status),
                 release := Get(data, "release", row.release),
                 date := date.value))
  }

  /**
   * The corrected merge: the date, like every other field, keeps its old
   * value when its key is absent and is parsed only when it is sent.
   */
  function MergeFeature(row: FeatureRow, data: Object): (r: Result<FeatureRow, int>)
    ensures r.Err? ==> r.error == BadRequest400
    ensures r.Ok? ==> r.value.id == row.id && r.value.roadmapId == row.roadmapId
  {
    var title := Get(data, "title", row.title);
    var date := if "date" in data then FromIsoFormat(data["date"]) else Some(row.date);
    if date.None? || title == JNull then Err(BadRequest400)
    else Ok(row.(title := title,
                 description := Get(data, "description", row.description),
                 priority := Get(data, "priority", row.priority),
                 status := Get(data, "status", row.status),
                 release := Get(data, "release", row.release),
                 date := date.value))
  }

  /** A field whose key the body leaves out keeps its old value; a field it sends is taken from it. */
  lemma MergeFeatureFields(row: FeatureRow, data: Object)
    requires MergeFeature(row, data).Ok?
    ensures var m := MergeFeature(row, data).value;
            && m.title == Get(data, "title", row.title)
            && m.description == Get(data, "description", row.description)
            && m.priority == Get(data, "priority", row.priority)
            && m.status == Get(data, "status", row.status)
            && m.release == Get(data, "release", row.release)
            && ("date" !in data ==> m.date == row.date)
            && ("date" in data ==> Some(m.date) == FromIsoFormat(data["date"]))
  {}

  /** The merge fails exactly on a null title or a date that was sent and does not parse. */
  lemma MergeFeatureErrors(row: FeatureRow, data: Object)
    ensures MergeFeature(row, data).Err?
            <==> Get(data, "title", row.title) == JNull || ("date" in data && FromIsoFormat(data["date"]).None?)
  {}

  /** Where a body carries a parsable date, the corrected merge agrees with the handler as written. */
  lemma MergeAgreesWhenDateSent(row: FeatureRow, data: Object)
    requires "date" in data && FromIsoFormat(data["date"]).Some?
    ensures MergeFeature(row, data) == MergeFeatureAsWritten(row, data)
  {}

  /** Putting back what the backend served changes nothing. */
  lemma MergeFeatureOfJson(row: FeatureRow)
    requires Storable(row)
    ensures MergeFeature(row, FeatureJson(row)) == Ok(row)
    ensures MergeFeatureAsWritten(row, FeatureJson(row)) == Ok(row)
  {
    ParseFormatIso(row.date);
  }

  /**
   * The Kanban status drop and the release drop send no date, so the handler
   * as written refuses both with 400 and the board's change is lost.
   */
  lemma StatusAndReleaseDropsRejected(row: FeatureRow, status: string, column: string)
    ensures MergeFeatureAsWritten(row, RoadmapDrops.StatusDropBody(status)) == Err(BadRequest400)
    ensures MergeFeatureAsWritten(row, RoadmapDrops.ReleaseDropBody(column)) == Err(BadRequest400)
  {}

  /** With the corrected merge, a status or release drop changes that one field and nothing else. */
  lemma StatusAndReleaseDropsMerged(row: FeatureRow, status: string, column: string)
    requires row.title != JNull
    ensures MergeFeature(row, RoadmapDrops.StatusDropBody(status)) == Ok(row.(status := JStr(status)))
    ensures MergeFeature(row, RoadmapDrops.ReleaseDropBody(column))
            == Ok(row.(release := RoadmapDrops.ReleaseDropBody(column)["release"]))
  {}

  // ---------------------------------------------------------------------------
  // Personas
  // ---------------------------------------------------------------------------

  /** update_persona: every field keeps its old value when its key is absent; a null name fails at commit. */
  function MergePersona(row: PersonaRow, data: Object): (r: Result<PersonaRow, int>)
    ensures r.Err? <==> Get(data, "name", row.name) == JNull
    ensures r.Err? ==> r.error == BadRequest400
    ensures r.Ok? ==> r.value.id == row.id
  {
    var name := Get(data, "name", row.name);
    if name == JNull then Err(BadRequest400)
    else Ok(PersonaRow(row.id, name,
                       Get(data, "age", row.age),
                       Get(data, "job_title", row.jobTitle),
                       Get(data, "demographics", row.demographics),
                       Get(data, "behaviors", row.behaviors),
                       Get(data, "goals", row.goals),
                       Get(data, "pains", row.pains)))
  }

  /** An empty body changes no persona field, and merging the same body twice is merging it once. */
  lemma MergePersonaIdempotent(row: PersonaRow, data: Object)
    requires MergePersona(row, data).Ok?
    ensures row.name != JNull ==> MergePersona(row, map[]) == Ok(row)
    ensures MergePersona(MergePersona(row, data).value, data) == MergePersona(row, data)
  {}

  // ---------------------------------------------------------------------------
  // Listing by date
  // ---------------------------------------------------------------------------

  predicate SortedByDate(rows: seq<FeatureRow>) {
    forall i, j :: 0 <= i < j < |rows| ==> NotAfter(rows[i].date, rows[j].date)
  }

  /** Where a row goes in a date-sorted list: after every row not later than it. */
  function InsertPosition(rows: seq<FeatureRow>, r: FeatureRow): (k: nat)
    requires SortedByDate(rows)
    ensures k <= |rows|
    ensures forall i :: 0 <= i < k ==> NotAfter(rows[i].date, r.date)
    ensures forall i :: k <= i < |rows| ==> Before(r.date, rows[i].date)
  {
    if rows == [] || Before(r.date, rows[0].date) then 0
    else 1 + InsertPosition(rows[1..], r)
  }

  /** Inserting a row at its position keeps the list sorted and adds exactly that row. */
  function InsertByDate(rows: seq<FeatureRow>, r: FeatureRow): (res: seq<FeatureRow>)
    requires SortedByDate(rows)
    ensures SortedByDate(res)
    ensures |res| == |rows| + 1
    ensures forall x :: x in res <==> x in rows || x == r
    ensures multiset(res) == multiset(rows) + multiset{r}
  {
    var k := InsertPosition(rows, r);
    InsertAtSorted(rows, r, k);
    InsertAtElements(rows, r, k);
    rows[..k] + [r] + rows[k..]
  }

  lemma InsertAtSorted(rows: seq<FeatureRow>, r: FeatureRow, k: nat)
    requires SortedByDate(rows) && k <= |rows|
    requires forall i :: 0 <= i < k ==> NotAfter(rows[i].date, r.date)
    requires forall i :: k <= i < |rows| ==> Before(r.date, rows[i].date)
    ensures SortedByDate(rows[..k] + [r] + rows[k..])
  {
    var res := rows[..k] + [r] + rows[k..];
    forall i, j | 0 <= i < j < |res| ensures NotAfter(res[i].date, res[j].date) {
      if j < k {
        assert res[i] == rows[i] && res[j] == rows[j];
      } else if j == k {
        assert res[i] == rows[i] && res[j] == r;
      } else if i == k {
        assert res[i] == r && res[j] == rows[j - 1];
      } else if i > k {
        assert res[i] == rows[i - 1] && res[j] == rows[j - 1];
      } else {
        assert res[i] == rows[i] && res[j] == rows[j - 1];
      }
    }
  }

  lemma InsertAtElements(rows: seq<FeatureRow>, r: FeatureRow, k: nat)
    requires k <= |rows|
    ensures multiset(rows[..k] + [r] + rows[k..]) == multiset(rows) + multiset{r}
    ensures forall x :: x in rows[..k] + [r] + rows[k..] <==> x in rows || x == r
  {
    assert rows == rows[..k] + rows[k..];
    calc {
      multiset(rows[..k] + [r] + rows[k..]);
      multiset(rows[..k] + [r]) + multiset(rows[k..]);
      multiset(rows[..k]) + multiset{r} + multiset(rows[k..]);
      multiset(rows[..k]) + multiset(rows[k..]) + multiset{r};
      multiset(rows[..k] + rows[k..]) + multiset{r};
    }
    forall x ensures x in rows[..k] + [r] + rows[k..] <==> x in rows || x == r {
      calc {
        x in rows[..k] + [r] + rows[k..];
        x in multiset(rows[..k] + [r] + rows[k..]);
        x in multiset(rows) + multiset{r};
      }
    }
  }

  /** Rows with distinct ids stay distinct when a row with a new id is inserted. */
  lemma InsertByDateDistinct(rows: seq<FeatureRow>, r: FeatureRow)
    requires SortedByDate(rows)
    requires forall i, j :: 0 <= i < j < |rows| ==> rows[i].id != rows[j].id
    requires forall x :: x in rows ==> x.id != r.id
    ensures var res := InsertByDate(rows, r);
            forall i, j :: 0 <= i < j < |res| ==> res[i].id != res[j].id
  {
    var k := InsertPosition(rows, r);
    assert InsertByDate(rows, r) == rows[..k] + [r] + rows[k..];
    InsertAtDistinct(rows, r, k);
  }

  lemma InsertAtDistinct(rows: seq<FeatureRow>, r: FeatureRow, k: nat)
    requires k <= |rows|
    requires forall i, j :: 0 <= i < j < |rows| ==> rows[i].id != rows[j].id
    requires forall x :: x in rows ==> x.id != r.id
    ensures var res := rows[..k] + [r] + rows[k..];
            forall i, j :: 0 <= i < j < |res| ==> res[i].id != res[j].id
  {
    var res := rows[..k] + [r] + rows[k..];
    assert forall i :: 0 <= i < k ==> res[i] == rows[i];
    assert res[k] == r;
    assert forall i :: k < i < |res| ==> res[i] == rows[i - 1];
    forall i, j | 0 <= i < j < |res| ensures res[i].id != res[j].id {
      if i == k {
        assert rows[j - 1] in rows;
      } else if j == k {
        assert rows[i] in rows;
      } else {
        var i', j' := if i < k then i else i - 1, if j < k then j else j - 1;
        assert res[i] == rows[i'] && res[j] == rows[j'] && i' < j';
      }
    }
  }

  // ---------------------------------------------------------------------------
  // The /demo seed data
  // ---------------------------------------------------------------------------

  datatype Sample = Sample(title: string, description: string, priority: string,
                           status: string, release: string, daysFromToday: nat)

  const DemoName := "Product Compass Demo"

  const DemoSamples: seq<Sample> := [
    Sample("Drag-and-Drop Interface", "Intuitive drag-and-drop interface for roadmap planning and task management.", "high", "completed", "Core Features", 0),
    Sample("Timeline Views", "Multiple timeline views including monthly, quarterly, and sprint-based planning.", "high", "completed", "Core Features", 0),
    Sample("Kanban Board", "Visual task management with customizable columns and drag-drop functionality.", "high", "completed", "Core Features", 0),
    Sample("Gantt Chart Integration", "Interactive Gantt charts for timeline visualization and dependency mapping.", "high", "in-progress", "Advanced Planning", 30),
    Sample("Team Collaboration", "Real-time collaboration features including comments, mentions, and notifications.", "medium", "in-progress", "Advanced Planning", 45),
    Sample("Resource Management", "Team workload tracking and resource allocation features.", "medium", "in-progress", "Advanced Planning", 60),
    Sample("Customer Feedback Portal", "Dedicated portal for collecting and organizing customer feedback and feature requests.", "high", "planned", "Customer Insights", 90),
    Sample("Persona Builder", "Tools for creating and managing detailed customer personas.", "medium", "planned", "Customer Insights", 90),
    Sample("Analytics Dashboard", "Comprehensive analytics for tracking project progress and team performance.", "medium", "planned", "Customer Insights", 120),
    Sample("AI-Powered Insights", "Machine learning features for predictive planning and risk assessment.", "low", "planned", "Future Innovation", 150),
    Sample("Advanced Exports", "Enhanced export options including PDF, Excel, and presentation formats.", "low", "planned", "Future Innovation", 180)
  ]

  /** The row the demo seeding stores for a sample. */
  function DemoRow(s: Sample, today: Date, roadmapId: int, id: int): (row: FeatureRow)
    requires Valid(today)
    ensures row.id == id && row.roadmapId == roadmapId && row.title == JStr(s.title)
    ensures Valid(row.date) && NotAfter(today, row.date)
  {
    FeatureRow(id, JStr(s.title), JStr(s.description), JStr(s.priority), JStr(s.status),
               JStr(s.release), roadmapId, AddDays(today, s.daysFromToday))
  }

  lemma DemoOffsetsNondecreasing(i: int, j: int)
    requires 0 <= i <= j < |DemoSamples|
    ensures DemoSamples[i].daysFromToday <= DemoSamples[j].daysFromToday
  {
    var offsets := seq(|DemoSamples|, k requires 0 <= k < |DemoSamples| => DemoSamples[k].daysFromToday);
    assert offsets == [0, 0, 0, 30, 45, 60, 90, 90, 120, 150, 180];
    assert offsets[i] <= offsets[j];
  }

  /** The samples are listed in date order, so the seeded roadmap lists them in the order written. */
  lemma DemoSamplesInDateOrder(today: Date, roadmapId: int)
    requires Valid(today)
    ensures forall i, j :: 0 <= i < j < |DemoSamples| ==>
              NotAfter(DemoRow(DemoSamples[i], today, roadmapId, i).date, DemoRow(DemoSamples[j], today, roadmapId, j).date)
  {
    forall i, j | 0 <= i < j < |DemoSamples|
      ensures NotAfter(AddDays(today, DemoSamples[i].daysFromToday), AddDays(today, DemoSamples[j].daysFromToday))
    {
      DemoOffsetsNondecreasing(i, j);
      if DemoSamples[i].daysFromToday < DemoSamples[j].daysFromToday {
        AddDaysMonotone(today, DemoSamples[i].daysFromToday, DemoSamples[j].daysFromToday);
      }
    }
  }

  // ---------------------------------------------------------------------------
  // The store
  // ---------------------------------------------------------------------------

  class Store {
    var roadmaps: map<int, Json>
    var features: map<int, FeatureRow>
    var personas: map<int, PersonaRow>
    var nextRoadmapId: int
    var nextFeatureId: int

    /** Every row is stored under its own id, and new ids are above every id in use. */
    ghost predicate Valid()
      reads this
    {
      && 1 <= nextFeatureId
      && (forall id :: id in roadmaps ==> id < nextRoadmapId)
      && (forall id :: id in features ==> features[id].id == id && 1 <= id < nextFeatureId)
      && (forall id :: id in personas ==> personas[id].id == id)
    }

    constructor ()
      ensures Valid()
      ensures roadmaps == map[] && features == map[] && personas == map[]
    {
      roadmaps := map[];
      features := map[];
      personas := map[];
      nextRoadmapId := 1;
      nextFeatureId := 1;
    }

    /** add_roadmap: a missing or falsy name is refused with 400; otherwise one new roadmap is stored (201). */
    method AddRoadmap(data: Object) returns (code: int, id: int)
      requires Valid()
      modifies this
      ensures Valid()
      ensures Falsy(Get(data, "name", JNull)) ==> code == BadRequest400 && roadmaps == old(roadmaps)
      ensures !Falsy(Get(data, "name", JNull)) ==>
                code == Created201 && id !in old(roadmaps) && roadmaps == old(roadmaps)[id := data["name"]]
      ensures features == old(features) && personas == old(personas)
    {
      var name := Get(data, "name", JNull);
      if Falsy(name) {
        return BadRequest400, 0;
      }
      id := nextRoadmapId;
      roadmaps := roadmaps[id := name];
      nextRoadmapId := nextRoadmapId + 1;
      code := Created201;
    }

    /**
     * get_features_by_roadmap: exactly the features of that roadmap, each
     * once, in non-decreasing date order (rows with equal dates come in no
     * promised order).
     */
    method FeaturesByRoadmap(roadmapId: int) returns (rows: seq<FeatureRow>)
      requires Valid()
      ensures SortedByDate(rows)
      ensures forall r :: r in rows <==> r.id in features && features[r.id] == r && r.roadmapId == roadmapId
      ensures forall i, j :: 0 <= i < j < |rows| ==> rows[i].id != rows[j].id
    {
      rows := [];
      var id := 1;
      while id < nextFeatureId
        invariant 1 <= id <= nextFeatureId
        invariant SortedByDate(rows)
        invariant forall r :: r in rows ==> r.id in features && features[r.id] == r && r.roadmapId == roadmapId && r.id < id
        invariant forall k :: k in features && k < id && features[k].roadmapId == roadmapId ==> features[k] in rows
        invariant forall i, j :: 0 <= i < j < |rows| ==> rows[i].id != rows[j].id
      {
        if id in features && features[id].roadmapId == roadmapId {
          InsertByDateDistinct(rows, features[id]);
          rows := InsertByDate(rows, features[id]);
        }
        id := id + 1;
      }
    }

    /** add_feature_to_roadmap: the row NewFeature builds is stored under a new id (201), or nothing changes (400). */
    method AddFeatureToRoadmap(roadmapId: int, data: Object) returns (code: int, row: Option<FeatureRow>)
      requires Valid()
      modifies this
      ensures Valid()
      ensures var built := NewFeature(data, roadmapId, old(nextFeatureId));
              && (built.Err? ==> code == BadRequest400 && row == None && features == old(features))
              && (built.Ok? ==> code == Created201 && row == Some(built.value)
                                && built.value.id !in old(features)
                                && features == old(features)[built.value.id := built.value])
      ensures roadmaps == old(roadmaps) && personas == old(personas)
    {
      var built := NewFeature(data, roadmapId, nextFeatureId);
      if built.Err? {
        return built.error, None;
      }
      features := features[nextFeatureId := built.value];
      nextFeatureId := nextFeatureId + 1;
      code, row := Created201, Some(built.value);
    }

    /**
     * update_feature: 404 for an unknown id; otherwise the body is merged
     * into the row as the handler writes it (the date is always parsed) and
     * committed (200), or refused (400) with nothing changed.
     */
    method UpdateFeature(featureId: int, data: Object) returns (code: int, row: Option<FeatureRow>)
      requires Valid()
      modifies this
      ensures Valid()
      ensures featureId !in old(features) ==> code == NotFound404 && row == None && features == old(features)
      ensures featureId in old(features) ==>
                var merged := MergeFeatureAsWritten(old(features)[featureId], data);
                && (merged.Err? ==> code == BadRequest400 && row == None && features == old(features))
                && (merged.Ok? ==> code == Ok200 && row == Some(merged.value)
                                   && features == old(features)[featureId := merged.value])
      ensures featureId in old(features) && "date" !in data ==> code == BadRequest400 && features == old(features)
      ensures roadmaps == old(roadmaps) && personas == old(personas) && nextFeatureId == old(nextFeatureId)
    {
      if featureId !in features {
        return NotFound404, None;
      }
      var merged := MergeFeatureAsWritten(features[featureId], data);
      if merged.Err? {
        return merged.error, None;
      }
      features := features[featureId := merged.value];
      code, row := Ok200, Some(merged.value);
    }

    /** delete_feature: 404 for an unknown id; otherwise exactly that feature is removed (204). */
    method DeleteFeature(featureId: int) returns (code: int)
      requires Valid()
      modifies this
      ensures Valid()
      ensures featureId !in old(features) ==> code == NotFound404 && features == old(features)
      ensures featureId in old(features) ==> code == NoContent204 && features == old(features) - {featureId}
      ensures roadmaps == old(roadmaps) && personas == old(personas) && nextFeatureId == old(nextFeatureId)
    {
      if featureId !in features {
        return NotFound404;
      }
      features := features - {featureId};
      code := NoContent204;
    }

    /** update_persona: 404 for an unknown id; otherwise MergePersona's row is committed (200) or refused (400). */
    method UpdatePersona(personaId: int, data: Object) returns (code: int, row: Option<PersonaRow>)
      requires Valid()
      modifies this
      ensures Valid()
      ensures personaId !in old(personas) ==> code == NotFound404 && row == None && personas == old(personas)
      ensures personaId in old(personas) ==>
                var merged := MergePersona(old(personas)[personaId], data);
                && (merged.Err? ==> code == BadRequest400 && row == None && personas == old(personas))
                && (merged.Ok? ==> code == Ok200 && row == Some(merged.value)
                                   && personas == old(personas)[personaId := merged.value])
      ensures roadmaps == old(roadmaps) && features == old(features)
    {
      if personaId !in personas {
        return NotFound404, None;
      }
      var merged := MergePersona(personas[personaId], data);
      if merged.Err? {
        return merged.error, None;
      }
      personas := personas[personaId := merged.value];
      code, row := Ok200, Some(merged.value);
    }

    predicate HasDemo()
      reads this
    {
      exists id :: id in roadmaps && roadmaps[id] == JStr(DemoName)
    }

    /** Stores one row per sample for the given roadmap under the next feature ids, in order. */
    method SeedDemoFeatures(samples: seq<Sample>, demoId: int, today: Date)
      requires Valid() && Dates.Valid(today)
      modifies this
      ensures Valid()
      ensures roadmaps == old(roadmaps) && personas == old(personas) && nextRoadmapId == old(nextRoadmapId)
      ensures nextFeatureId == old(nextFeatureId) + |samples|
      ensures forall id :: id in features <==> id in old(features) || old(nextFeatureId) <= id < nextFeatureId
      ensures forall k :: 0 <= k < |samples| ==>
                old(nextFeatureId) + k in features
                && features[old(nextFeatureId) + k] == DemoRow(samples[k], today, demoId, old(nextFeatureId) + k)
      ensures forall id :: id in old(features) ==> features[id] == old(features)[id]
    {
      var first := nextFeatureId;
      var i := 0;
      while i < |samples|
        invariant 0 <= i <= |samples|
        invariant nextFeatureId == first + i
        invariant Valid()
        invariant roadmaps == old(roadmaps) && personas == old(personas) && nextRoadmapId == old(nextRoadmapId)
        invariant forall id :: id in features <==> id in old(features) || first <= id < first + i
        invariant forall k :: 0 <= k < i ==>
                    first + k in features && features[first + k] == DemoRow(samples[k], today, demoId, first + k)
        invariant forall id :: id in old(features) ==> features[id] == old(features)[id]
      {
        var row := DemoRow(samples[i], today, demoId, first + i);
        features := features[first + i := row];
        nextFeatureId := nextFeatureId + 1;
        i := i + 1;
      }
    }

    /**
     * /demo: when no roadmap is named 'Product Compass Demo', creates it and
     * its 11 sample features dated from today; otherwise changes nothing.
     * Either way it redirects to the page of such a roadmap, whose id is
     * returned, so a second call adds nothing.
     */
    method Demo(today: Date) returns (demoId: int)
      requires Valid() && Dates.Valid(today)
      modifies this
      ensures Valid() && HasDemo()
      ensures demoId in roadmaps && roadmaps[demoId] == JStr(DemoName)
      ensures old(HasDemo()) ==>
                roadmaps == old(roadmaps) && features == old(features) && nextFeatureId == old(nextFeatureId)
      ensures !old(HasDemo()) ==>
                && demoId !in old(roadmaps) && roadmaps == old(roadmaps)[demoId := JStr(DemoName)]
                && nextFeatureId == old(nextFeatureId) + |DemoSamples|
                && (forall id :: id in features <==> id in old(features) || old(nextFeatureId) <= id < nextFeatureId)
                && (forall k :: 0 <= k < |DemoSamples| ==>
                      old(nextFeatureId) + k in features
                      && features[old(nextFeatureId) + k] == DemoRow(DemoSamples[k], today, demoId, old(nextFeatureId) + k))
                && (forall id :: id in old(features) ==> features[id] == old(features)[id])
      ensures personas == old(personas)
    {
      if id :| id in roadmaps && roadmaps[id] == JStr(DemoName) {
        return id;
      }
      demoId := CreateDemo(today);
    }

    /** The /demo branch that finds no demo roadmap: the roadmap under the next id, then its sample features. */
    method CreateDemo(today: Date) returns (demoId: int)
      requires Valid() && Dates.Valid(today)
      modifies this
      ensures Valid() && HasDemo()
      ensures demoId in roadmaps && roadmaps[demoId] == JStr(DemoName)
      ensures && demoId !in old(roadmaps) && roadmaps == old(roadmaps)[demoId := JStr(DemoName)]
              && nextFeatureId == old(nextFeatureId) + |DemoSamples|
              && (forall id :: id in features <==> id in old(features) || old(nextFeatureId) <= id < nextFeatureId)
              && (forall k :: 0 <= k < |DemoSamples| ==>
                    old(nextFeatureId) + k in features
                    && features[old(nextFeatureId) + k] == DemoRow(DemoSamples[k], today, demoId, old(nextFeatureId) + k))
              && (forall id :: id in old(features) ==> features[id] == old(features)[id])
      ensures personas == old(personas)
    {
      demoId := nextRoadmapId;
      roadmaps := roadmaps[demoId := JStr(DemoName)];
      nextRoadmapId := nextRoadmapId + 1;
      SeedDemoFeatures(DemoSamples, demoId, today);
      assert roadmaps[demoId] == JStr(DemoName);
    }
  }
}
