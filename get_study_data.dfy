/** Fetching EJScreen records for block groups and cities: the fixed nine-column
    record, the per-area fetch that turns request failures into `None`, and the
    batch collector that keeps the successes in input order and pauses between
    requests. */
module GetStudyData {
  import opened Common
  import opened EjscreenResponse
  import GetDataFromApi

  /** One flattened record: column name to value (`JNull` is `None`). */
  type Record = map<string, Json>

  const AreaIdColumn := "area_id"

  /** Where each of the eight indicator columns is read from. */
  datatype IndicatorSource = IndicatorSource(column: string, section: Section, key: string)

  const Indicators: seq<IndicatorSource> := [
    IndicatorSource("total_population", Demographics, "TOTALPOP"),
    IndicatorSource("percent_minority", Demographics, "PCT_MINORITY"),
    IndicatorSource("per_capita_income", Demographics, "PER_CAP_INC"),
    IndicatorSource("unemployment_rate", Demographics, "P_EMP_STAT_UNEMPLOYED"),
    IndicatorSource("pm25_air_quality", Main, "RAW_E_PM25"),
    IndicatorSource("traffic_exposure", Main, "RAW_E_TRAFFIC"),
    IndicatorSource("diesel_particulate_matter", Main, "RAW_E_DIESEL"),
    IndicatorSource("life_expectancy", Extras, "RAW_HI_LIFEEXP")
  ]

  /** The columns of every record: `area_id` and the eight indicators. */
  const RecordColumns: set<string> := {
    "area_id", "total_population", "percent_minority", "per_capita_income",
    "unemployment_rate", "pm25_air_quality", "traffic_exposure",
    "diesel_particulate_matter", "life_expectancy"
  }

  /** Optional area id as the value Python stores (`None` when absent). */
  function AreaIdValue(areaId: Option<string>): Json
  {
    if areaId.Some? then JStr(areaId.value) else JNull
  }

  /** The value a flattened record holds for one indicator, given the three
      sections: `section.get(key)`, `None` when the key is absent. */
  function Lookup(section: Json, key: string): Json
    requires section.JObj?
  {
    if key in section.fields then section.fields[key] else JNull
  }

  /** The flattened dictionary built from the three sections (lines 43-53):
      each `.get` raises AttributeError unless its section is an object. */
  function FlattenSections(demographics: Json, mainStats: Json, extras: Json, areaId: Option<string>): (r: Result<Record>)
    ensures r.Ok? <==> demographics.JObj? && mainStats.JObj? && extras.JObj?
    ensures r.Err? ==> r.error == AttributeError
    ensures r.Ok? ==> r.value.Keys == RecordColumns && r.value[AreaIdColumn] == AreaIdValue(areaId)
  {
    // Python evaluates the nine values in order; the first `.get` on a section
    // that is not a dict raises AttributeError
    if !demographics.JObj? || !mainStats.JObj? || !extras.JObj? then Err(AttributeError)
    else
      Ok(map[
        "total_population" := Lookup(demographics, "TOTALPOP"),
        "percent_minority" := Lookup(demographics, "PCT_MINORITY"),
        "per_capita_income" := Lookup(demographics, "PER_CAP_INC"),
        "unemployment_rate" := Lookup(demographics, "P_EMP_STAT_UNEMPLOYED"),
        "pm25_air_quality" := Lookup(mainStats, "RAW_E_PM25"),
        "traffic_exposure" := Lookup(mainStats, "RAW_E_TRAFFIC"),
        "diesel_particulate_matter" := Lookup(mainStats, "RAW_E_DIESEL"),
        "life_expectancy" := Lookup(extras, "RAW_HI_LIFEEXP"),
        "area_id" := AreaIdValue(areaId)
      ])
  }

  /** Each indicator column of a flattened record holds its source field, or
      `None` when that field is absent. */
  lemma FlattenSectionsIndicators(demographics: Json, mainStats: Json, extras: Json, areaId: Option<string>)
    requires demographics.JObj? && mainStats.JObj? && extras.JObj?
    ensures var rec := FlattenSections(demographics, mainStats, extras, areaId).value;
      forall i :: 0 <= i < |Indicators| ==>
        rec[Indicators[i].column] ==
          Lookup(match Indicators[i].section
                 case Demographics => demographics
                 case Main => mainStats
                 case Extras => extras,
                 Indicators[i].key)
  {
  }

  /** The flattening of a decoded response into one record (lines 37-53). Any
      section or field that is absent gives `None`; a present section that is
      not an object makes a `.get` raise AttributeError. */
  function Flatten(response: Json, areaId: Option<string>): (r: Result<Record>)
    ensures r.Ok? <==> WellShaped(response)
    ensures r.Err? ==> r.error == AttributeError
    ensures r.Ok? ==> r.value.Keys == RecordColumns
    ensures r.Ok? ==> r.value[AreaIdColumn] == AreaIdValue(areaId)
  {
    var sections :- ReadSections(response);
    FlattenSections(sections.0, sections.1, sections.2, areaId)
  }

  /** Every indicator of a flattened response is the field its source section
      holds, `None` when the section or the field is absent. */
  lemma FlattenIndicators(response: Json, areaId: Option<string>)
    requires WellShaped(response)
    ensures forall i :: 0 <= i < |Indicators| ==>
      Flatten(response, areaId).value[Indicators[i].column] ==
        Indicator(response, Indicators[i].section, Indicators[i].key)
  {
    var d, m, e := JObj(SectionOf(response, Demographics)), JObj(SectionOf(response, Main)), JObj(SectionOf(response, Extras));
    FlattenSectionsIndicators(d, m, e, areaId);
  }

  /** A record always has exactly nine columns, so it is never an empty (falsy)
      dictionary. */
  lemma RecordHasNineColumns()
    ensures |RecordColumns| == 9
  {
    var cols := [
      "area_id", "total_population", "percent_minority", "per_capita_income",
      "unemployment_rate", "pm25_air_quality", "traffic_exposure",
      "diesel_particulate_matter", "life_expectancy"
    ];
    assert RecordColumns == set c | c in cols;
    assert forall i, j :: 0 <= i < j < |cols| ==> cols[i] != cols[j];
    DistinctCardinality(cols);
  }

  lemma {:induction false} DistinctCardinality(s: seq<string>)
    requires forall i, j :: 0 <= i < j < |s| ==> s[i] != s[j]
    ensures |set c | c in s| == |s|
  {
    if s != [] {
      DistinctCardinality(s[1..]);
      assert (set c | c in s) == {s[0]} + (set c | c in s[1..]);
      assert s[0] !in (set c | c in s[1..]);
    }
  }

  /** Every field of a response with no sections at all is `None`. */
  lemma EmptyResponseFlattensToNulls(areaId: string)
    ensures Flatten(EmptyObject, Some(areaId)).Ok?
    ensures var rec := Flatten(EmptyObject, Some(areaId)).value;
      rec[AreaIdColumn] == JStr(areaId) &&
      forall c :: c in rec && c != AreaIdColumn ==> rec[c] == JNull
  {
  }

  /** The query for one block group: display name and area id are both the
      block-group id. */
  function BlockGroupParams(areaId: string): (p: Params)
    ensures p.Keys == ParamKeys && FixedQuery(p)
    ensures p["namestr"] == areaId && p["areaid"] == areaId && p["areatype"] == "blockgroup"
  {
    map[
      "namestr" := areaId,
      "geometry" := "",
      "distance" := "",
      "unit" := "9035",
      "areatype" := "blockgroup",
      "areaid" := areaId,
      "f" := "json"
    ]
  }

  /** The query for one city: the city name is the display name. */
  function CityParams(city: string, areaId: string): (p: Params)
    ensures p.Keys == ParamKeys && FixedQuery(p)
    ensures p["namestr"] == city && p["areaid"] == areaId && p["areatype"] == "city"
  {
    map[
      "namestr" := city,
      "geometry" := "",
      "distance" := "",
      "unit" := "9035",
      "areatype" := "city",
      "areaid" := areaId,
      "f" := "json"
    ]
  }

  /** Both ways of building a query agree: the block-group query is the generic
      one with the default area type and no city name, and the city query is the
      generic one with area type `city` whenever the city name is non-empty. An
      empty city name is sent as is here but replaced by the area id there. */
  lemma {:induction false} QueriesAgree(areaId: string, city: string)
    ensures BlockGroupParams(areaId) ==
      GetDataFromApi.FetchParams(areaId, GetDataFromApi.DefaultAreaType, None)
    ensures city != "" ==>
      CityParams(city, areaId) == GetDataFromApi.FetchParams(areaId, "city", Some(city))
    ensures city == "" && areaId != "" ==>
      CityParams(city, areaId) != GetDataFromApi.FetchParams(areaId, "city", Some(city))
  {
    var generic := GetDataFromApi.FetchParams(areaId, GetDataFromApi.DefaultAreaType, None);
    assert BlockGroupParams(areaId).Keys == generic.Keys;
    if city != "" {
      var p, q := CityParams(city, areaId), GetDataFromApi.FetchParams(areaId, "city", Some(city));
      assert p.Keys == q.Keys;
      assert forall k :: k in p ==> p[k] == q[k];
    } else if areaId != "" {
      assert CityParams(city, areaId)["namestr"] != GetDataFromApi.FetchParams(areaId, "city", Some(city))["namestr"];
    }
  }

  /** One request and its flattening: `None` when the request raised a
      RequestException, the record otherwise; a badly shaped body raises
      AttributeError past this function. */
  function GetEjscreenData(server: Server, params: Params, areaId: Option<string>): (r: Result<Option<Record>>)
    ensures r == Ok(None) <==> RaisesRequestException(server(params))
    ensures r.Err? <==> !RaisesRequestException(server(params)) && !WellShaped(Body(server(params)))
    ensures r.Err? ==> r.error == AttributeError
    ensures r.Ok? && r.value.Some? ==>
      && !RaisesRequestException(server(params))
      && Flatten(Body(server(params)), areaId) == Ok(r.value.value)
      && r.value.value.Keys == RecordColumns && r.value.value[AreaIdColumn] == AreaIdValue(areaId)
  {
    var reply := server(params);
    if RaisesRequestException(reply) then Ok(None)
    else
      var flattened :- Flatten(reply.body.value, areaId);
      Ok(Some(flattened))
  }

  /** The record a successful fetch yields is the flattening of the response
      the generic fetch returns for the same query. */
  lemma FetchThenFlatten(server: Server, areaId: string)
    requires !RaisesRequestException(server(BlockGroupParams(areaId)))
    ensures var raw := GetDataFromApi.FetchEjscreenData(server, areaId, GetDataFromApi.DefaultAreaType, None);
      var flat := Flatten(raw, Some(areaId));
      GetEjscreenData(server, BlockGroupParams(areaId), Some(areaId)) ==
        (if flat.Ok? then Ok(Some(flat.value)) else Err(flat.error))
  {
    QueriesAgree(areaId, "");
  }

  /** `get_ejscreen_data_city`: the city query, tagged with the city's area id;
      `None` exactly when the request raises, AttributeError escaping exactly
      when a decoded body is badly shaped, and otherwise the flattened body. */
  function GetEjscreenDataCity(server: Server, city: string, areaId: string): (r: Result<Option<Record>>)
    ensures r == Ok(None) <==> RaisesRequestException(server(CityParams(city, areaId)))
    ensures r.Err? <==>
      !RaisesRequestException(server(CityParams(city, areaId))) && !WellShaped(Body(server(CityParams(city, areaId))))
    ensures r.Err? ==> r.error == AttributeError
    ensures r.Ok? && r.value.Some? ==>
      && !RaisesRequestException(server(CityParams(city, areaId)))
      && Flatten(Body(server(CityParams(city, areaId))), Some(areaId)) == Ok(r.value.value)
      && r.value.value.Keys == RecordColumns
      && AreaIdColumn in r.value.value && r.value.value[AreaIdColumn] == JStr(areaId)
  {
    GetEjscreenData(server, CityParams(city, areaId), Some(areaId))
  }

  /** `get_ejscreen_data_bg`: the block-group query, tagged with the block-group
      id; `None` exactly when the request raises, AttributeError escaping
      exactly when a decoded body is badly shaped, and otherwise the flattened
      body. */
  function GetEjscreenDataBg(server: Server, areaId: string): (r: Result<Option<Record>>)
    ensures r == Ok(None) <==> RaisesRequestException(server(BlockGroupParams(areaId)))
    ensures r.Err? <==>
      !RaisesRequestException(server(BlockGroupParams(areaId))) && !WellShaped(Body(server(BlockGroupParams(areaId))))
    ensures r.Err? ==> r.error == AttributeError
    ensures r.Ok? && r.value.Some? ==>
      && !RaisesRequestException(server(BlockGroupParams(areaId)))
      && Flatten(Body(server(BlockGroupParams(areaId))), Some(areaId)) == Ok(r.value.value)
      && r.value.value.Keys == RecordColumns
      && AreaIdColumn in r.value.value && r.value.value[AreaIdColumn] == JStr(areaId)
  {
    GetEjscreenData(server, BlockGroupParams(areaId), Some(areaId))
  }
}

/** The batch collector of `fetch_multiple_block_groups`: one request per id in
    order, failures skipped without stopping, a pause between requests. */
module BatchCollector {
  import opened Common
  import opened EjscreenResponse
  import opened GetStudyData

  /** A per-id fetch: the exception it raises, or `None`, or a record. */
  type Fetcher = string -> Result<Option<Record>>

  /** The block-group fetch against one server, as a per-id oracle. */
  function BgFetcher(server: Server): Fetcher
  {
    id => GetEjscreenDataBg(server, id)
  }

  /** What the collector does to the outside world, in order. */
  datatype Event = Request(areaId: string) | Sleep(seconds: real)

  /** Default pause between two requests, in seconds. */
  const DefaultDelay: real := 1.0

  /** `if result:` on an optional record: `None` and `{}` are false (Python
      truthiness, as `GetDataFromApi.TruthyName` is for an optional string). */
  predicate TruthyRecord(result: Option<Record>)
  {
    result.Some? && |result.value| > 0
  }

  /** The state a run over some ids ends in: the records kept, the events
      performed and the exception that ended it early, if any. */
  datatype Run = Run(rows: seq<Record>, events: seq<Event>, raised: Option<Error>)

  /** The collector's work on the ids that remain: request the first, keep its
      record when truthy, pause unless it was the last, and go on. An exception
      from a fetch ends the run right after that request, and so does the
      ValueError `time.sleep` raises for a negative delay, at the first pause. */
  function Process(fetch: Fetcher, ids: seq<string>, delay: real): (run: Run)
    ensures |run.rows| <= |ids|
  {
    if ids == [] then Run([], [], None)
    else
      var request := Request(ids[0]);
      var result := fetch(ids[0]);
      if result.Err? then Run([], [request], Some(result.error))
      else if PauseRaises(0, |ids|, delay) then Run(Kept(result.value), [request], Some(ValueError))
      else
        var pause := if |ids| > 1 then [Sleep(delay)] else [];
        var rest := Process(fetch, ids[1..], delay);
        Run(Kept(result.value) + rest.rows, [request] + pause + rest.events, rest.raised)
  }

  /** Records and events already collected, followed by the rest of a run. */
  function Then(rows: seq<Record>, events: seq<Event>, rest: Run): Run
  {
    Run(rows + rest.rows, events + rest.events, rest.raised)
  }

  /** The table a run returns: the exception it raised, or its rows (an empty
      table when nothing was kept). */
  function Outcome(run: Run): Result<seq<Record>>
  {
    if run.raised.Some? then Err(run.raised.value) else Ok(run.rows)
  }

  /** The record a fetch contributes to the table: itself when truthy. */
  function Kept(result: Option<Record>): seq<Record>
  {
    if TruthyRecord(result) then [result.value] else []
  }

  /** The pause after the request at position `i` of `total`. */
  function Pause(i: nat, total: nat, delay: real): seq<Event>
  {
    if i + 1 < total then [Sleep(delay)] else []
  }

  /** The pause after the request at position `i` of `total` is due and
      `time.sleep` rejects its negative length. */
  predicate PauseRaises(i: nat, total: nat, delay: real)
  {
    i + 1 < total && delay < 0.0
  }

  /** One iteration of the collector's loop: with the ids before `i` done,
      handling `ids[i]` either ends the run with its exception or with the
      pause's ValueError, or adds its record, its request and its pause to what
      was collected. */
  lemma Advance(fetch: Fetcher, ids: seq<string>, i: nat, rows: seq<Record>, events: seq<Event>, delay: real)
    requires i < |ids|
    requires Process(fetch, ids, delay) == Then(rows, events, Process(fetch, ids[i..], delay))
    ensures fetch(ids[i]).Err? ==>
      Process(fetch, ids, delay) == Run(rows, events + [Request(ids[i])], Some(fetch(ids[i]).error))
    ensures fetch(ids[i]).Ok? && PauseRaises(i, |ids|, delay) ==>
      Process(fetch, ids, delay) ==
        Run(rows + Kept(fetch(ids[i]).value), events + [Request(ids[i])], Some(ValueError))
    ensures fetch(ids[i]).Ok? && !PauseRaises(i, |ids|, delay) ==>
      Process(fetch, ids, delay) ==
        Then(rows + Kept(fetch(ids[i]).value), events + [Request(ids[i])] + Pause(i, |ids|, delay),
             Process(fetch, ids[i + 1..], delay))
  {
    assert ids[i..][0] == ids[i] && ids[i..][1..] == ids[i + 1..];
    var rest := Process(fetch, ids[i + 1..], delay);
    if fetch(ids[i]).Ok? && !PauseRaises(i, |ids|, delay) {
      var kept := Kept(fetch(ids[i]).value);
      assert rows + (kept + rest.rows) == rows + kept + rest.rows;
      assert events + ([Request(ids[i])] + Pause(i, |ids|, delay) + rest.events)
          == events + [Request(ids[i])] + Pause(i, |ids|, delay) + rest.events;
    }
  }

  /** With every id handled, what was collected is the whole run. */
  lemma Finish(fetch: Fetcher, ids: seq<string>, rows: seq<Record>, events: seq<Event>, delay: real)
    requires Process(fetch, ids, delay) == Then(rows, events, Process(fetch, ids[|ids|..], delay))
    ensures Process(fetch, ids, delay) == Run(rows, events, None)
  {
    assert ids[|ids|..] == [];
    assert rows + [] == rows && events + [] == events;
  }

  /** Fetches every id in order with `fetch` (in the source always
      `BgFetcher(server)`, that is `get_ejscreen_data_bg`), keeps the truthy
      records, skips failed requests without stopping and pauses between
      requests but not after the last; a negative delay raises ValueError at
      the first pause. */
  method FetchMultipleBlockGroups(fetch: Fetcher, ids: seq<string>, delay: real)
    returns (table: Result<seq<Record>>, events: seq<Event>)
    ensures table == Outcome(Process(fetch, ids, delay))
    ensures events == Process(fetch, ids, delay).events
  {
    var dataList: seq<Record> := [];
    events := [];
    var total := |ids|;
    var i := 0;
    while i < total
      invariant 0 <= i <= total
      invariant Process(fetch, ids, delay) == Then(dataList, events, Process(fetch, ids[i..], delay))
    {
      var areaId := ids[i];
      Advance(fetch, ids, i, dataList, events, delay);
      ghost var rows0, events0 := dataList, events;
      events := events + [Request(areaId)];
      var result := fetch(areaId);
      if result.Err? {
        table := Err(result.error);
        return;
      }
      if TruthyRecord(result.value) {
        dataList := dataList + [result.value.value];
      }
      assert dataList == rows0 + Kept(result.value);
      if i + 1 < total {
        if delay < 0.0 {
          table := Err(ValueError);
          return;
        }
        events := events + [Sleep(delay)];
      }
      assert events == events0 + [Request(areaId)] + Pause(i, total, delay);
      i := i + 1;
    }
    Finish(fetch, ids, dataList, events, delay);
    if dataList == [] {
      table := Ok([]);
      return;
    }
    table := Ok(dataList);
  }

  // ---------------------------------------------------------------------------
  // What a batch run promises

  /** The block-group fetch skips an id (gives `None`) exactly when its request
      raises a RequestException, and raises past the collector exactly when the
      body of a reply with a status outside 400-599 is not shaped as expected;
      a record it yields is tagged with the id and has the nine columns, so it
      is always truthy. */
  lemma BgFetchOutcome(server: Server, id: string)
    ensures BgFetcher(server)(id) == Ok(None) <==> RaisesRequestException(server(BlockGroupParams(id)))
    ensures BgFetcher(server)(id).Err? <==>
      !RaisesRequestException(server(BlockGroupParams(id))) && !WellShaped(Body(server(BlockGroupParams(id))))
    ensures BgFetcher(server)(id).Ok? && BgFetcher(server)(id).value.Some? ==>
      && TruthyRecord(BgFetcher(server)(id).value)
      && BgFetcher(server)(id).value.value[AreaIdColumn] == JStr(id)
  {
    var r := GetEjscreenDataBg(server, id);
    if r.Ok? && r.value.Some? {
      RecordHasNineColumns();
    }
  }

  /** The fetch of `id` raises past the collector. */
  predicate Aborts(fetch: Fetcher, id: string)
  {
    fetch(id).Err?
  }

  /** The fetch of `id` yields a record the collector keeps. */
  function Succeeds(fetch: Fetcher): string -> bool
  {
    id => fetch(id).Ok? && TruthyRecord(fetch(id).value)
  }

  /** The record kept for an id whose fetch succeeds. */
  function RecordOf(fetch: Fetcher, id: string): Record
  {
    var r := fetch(id);
    if r.Ok? && r.value.Some? then r.value.value else map[]
  }

  function RecordsOf(fetch: Fetcher, ids: seq<string>): (rows: seq<Record>)
    ensures |rows| == |ids|
  {
    seq(|ids|, j requires 0 <= j < |ids| => RecordOf(fetch, ids[j]))
  }

  /** Handling `ids[k]` raises: its fetch raises, or the pause after it is
      due and the delay is negative. */
  predicate Stops(fetch: Fetcher, ids: seq<string>, delay: real, k: int)
    requires 0 <= k < |ids|
  {
    Aborts(fetch, ids[k]) || PauseRaises(k, |ids|, delay)
  }

  /** `ids[k]` is the first id whose handling raises. */
  predicate FirstStop(fetch: Fetcher, ids: seq<string>, delay: real, k: int)
  {
    && 0 <= k < |ids|
    && Stops(fetch, ids, delay, k)
    && forall j :: 0 <= j < k ==> !Stops(fetch, ids, delay, j)
  }

  /** The exception that handling `ids[k]` raises: its fetch's, or else the
      pause's ValueError. */
  function StopError(fetch: Fetcher, ids: seq<string>, delay: real, k: int): Error
    requires 0 <= k < |ids| && Stops(fetch, ids, delay, k)
  {
    if Aborts(fetch, ids[k]) then fetch(ids[k]).error else ValueError
  }

  /** A failed fetch never stops the batch: the run ends early exactly when
      some fetch raises, or when a pause is due and the delay is negative. */
  lemma {:induction false} BatchAbortsOnlyOnRaisingFetch(fetch: Fetcher, ids: seq<string>, delay: real)
    ensures Process(fetch, ids, delay).raised.Some? <==>
      (delay < 0.0 && |ids| > 1) || exists k :: 0 <= k < |ids| && Aborts(fetch, ids[k])
  {
    if ids != [] && !Aborts(fetch, ids[0]) && !PauseRaises(0, |ids|, delay) {
      BatchAbortsOnlyOnRaisingFetch(fetch, ids[1..], delay);
      if exists k :: 0 <= k < |ids| && Aborts(fetch, ids[k]) {
        var k :| 0 <= k < |ids| && Aborts(fetch, ids[k]);
        assert ids[1..][k - 1] == ids[k];
      }
    }
  }

  /** A run that raises ends with the exception of the first id whose handling
      raises, right after requesting that id, so no later id is requested:
      the events are the requests of `ids[..k+1]` with a pause after each but
      the last. */
  lemma {:induction false} BatchStopsAtFirstRaise(fetch: Fetcher, ids: seq<string>, delay: real)
    requires Process(fetch, ids, delay).raised.Some?
    ensures var run := Process(fetch, ids, delay);
      exists k ::
        && FirstStop(fetch, ids, delay, k)
        && run.raised.value == StopError(fetch, ids, delay, k)
        && |run.events| == 2 * k + 1
        && run.events[2 * k] == Request(ids[k])
        && Alternates(run.events, ids[..k + 1], delay)
  {
    var run := Process(fetch, ids, delay);
    if Stops(fetch, ids, delay, 0) {
      assert FirstStop(fetch, ids, delay, 0);
      assert run.events == [Request(ids[0])];
      assert ids[..1][0] == ids[0];
    } else {
      var rest := Process(fetch, ids[1..], delay);
      ProcessStep(fetch, ids, delay);
      BatchStopsAtFirstRaise(fetch, ids[1..], delay);
      var k :| && FirstStop(fetch, ids[1..], delay, k)
               && rest.raised.value == StopError(fetch, ids[1..], delay, k)
               && |rest.events| == 2 * k + 1
               && rest.events[2 * k] == Request(ids[1..][k])
               && Alternates(rest.events, ids[1..][..k + 1], delay);
      FirstStopOfTail(fetch, ids, delay, k);
      assert run.events[2 * (k + 1)] == rest.events[2 * k];
      AlternatesConsPrefix(rest.events, ids, k, delay);
    }
  }

  /** With a negative delay and two or more ids the run never gets past the
      first id: its fetch raises, or else the pause after it raises
      ValueError. */
  lemma NegativeDelayStopsAtFirstPause(fetch: Fetcher, ids: seq<string>, delay: real)
    requires delay < 0.0 && |ids| > 1
    ensures var run := Process(fetch, ids, delay);
      && run.events == [Request(ids[0])]
      && Outcome(run) == Err(if Aborts(fetch, ids[0]) then fetch(ids[0]).error else ValueError)
  {
  }

  /** `AlternatesCons` for the first `k + 2` ids. */
  lemma AlternatesConsPrefix(rest: seq<Event>, ids: seq<string>, k: nat, delay: real)
    requires k + 1 < |ids| && Alternates(rest, ids[1..][..k + 1], delay)
    ensures Alternates([Request(ids[0]), Sleep(delay)] + rest, ids[..k + 2], delay)
  {
    assert ids[..k + 2][1..] == ids[1..][..k + 1];
    AlternatesCons(rest, ids[..k + 2], delay);
  }

  lemma FirstStopOfTail(fetch: Fetcher, ids: seq<string>, delay: real, k: int)
    requires ids != [] && !Stops(fetch, ids, delay, 0) && FirstStop(fetch, ids[1..], delay, k)
    ensures FirstStop(fetch, ids, delay, k + 1) && ids[k + 1] == ids[1..][k]
    ensures StopError(fetch, ids, delay, k + 1) == StopError(fetch, ids[1..], delay, k)
  {
    forall j | 1 <= j < k + 2
      ensures ids[j] == ids[1..][j - 1]
      ensures Stops(fetch, ids, delay, j) == Stops(fetch, ids[1..], delay, j - 1)
    {
    }
  }

  /** A run that raises nothing returns the records of the ids whose fetch
      succeeded, in input order. */
  lemma {:induction false} BatchKeepsSuccessesInOrder(fetch: Fetcher, ids: seq<string>, delay: real)
    requires Process(fetch, ids, delay).raised.None?
    ensures Process(fetch, ids, delay).rows == RecordsOf(fetch, Filter(ids, Succeeds(fetch)))
  {
    if ids != [] {
      NothingRaisedRowsStep(fetch, ids, delay);
      BatchKeepsSuccessesInOrder(fetch, ids[1..], delay);
      var rest := RecordsOf(fetch, Filter(ids[1..], Succeeds(fetch)));
      if Succeeds(fetch)(ids[0]) {
        assert Filter(ids, Succeeds(fetch)) == [ids[0]] + Filter(ids[1..], Succeeds(fetch));
        assert RecordsOf(fetch, Filter(ids, Succeeds(fetch))) == [RecordOf(fetch, ids[0])] + rest;
      }
    }
  }

  /** Every record `fetch` yields carries the id it was fetched for. */
  ghost predicate TagsRecords(fetch: Fetcher)
  {
    forall id :: Succeeds(fetch)(id) ==>
      AreaIdColumn in RecordOf(fetch, id) && RecordOf(fetch, id)[AreaIdColumn] == JStr(id)
  }

  /** The block-group fetch tags each record with its block-group id. */
  lemma BgFetcherTagsRecords(server: Server)
    ensures TagsRecords(BgFetcher(server))
  {
    forall id | Succeeds(BgFetcher(server))(id)
      ensures AreaIdColumn in RecordOf(BgFetcher(server), id)
      ensures RecordOf(BgFetcher(server), id)[AreaIdColumn] == JStr(id)
    {
      BgFetchOutcome(server, id);
    }
  }

  /** Each kept record carries the id it was fetched for; the kept ids are a
      subsequence of the input holding every succeeding id, and there are at
      most as many records as ids. */
  lemma BatchRowsTaggedWithTheirIds(fetch: Fetcher, ids: seq<string>, delay: real)
    requires TagsRecords(fetch)
    requires Process(fetch, ids, delay).raised.None?
    ensures var kept := Filter(ids, Succeeds(fetch));
      var rows := Process(fetch, ids, delay).rows;
      && IsSubsequence(kept, ids)
      && (forall i :: 0 <= i < |ids| && Succeeds(fetch)(ids[i]) ==> ids[i] in kept)
      && |rows| == |kept| <= |ids|
      && forall j :: 0 <= j < |kept| ==> AreaIdColumn in rows[j] && rows[j][AreaIdColumn] == JStr(kept[j])
  {
    var kept := Filter(ids, Succeeds(fetch));
    BatchKeepsSuccessesInOrder(fetch, ids, delay);
    FilterIsSubsequence(ids, Succeeds(fetch));
    forall i | 0 <= i < |ids| && Succeeds(fetch)(ids[i]) ensures ids[i] in kept {
      FilterKeepsEveryMatch(ids, Succeeds(fetch), i);
    }
    forall j | 0 <= j < |kept| ensures Succeeds(fetch)(kept[j]) {
      assert kept[j] in kept;
    }
  }

  /** When no fetch yields a truthy record (each gives `None` or an empty
      dictionary) the table is empty, in particular for no ids at all, unless
      a pause with a negative delay raises first. */
  lemma {:induction false} NoSuccessGivesEmptyTable(fetch: Fetcher, ids: seq<string>, delay: real)
    requires forall k :: 0 <= k < |ids| ==> fetch(ids[k]).Ok? && !Succeeds(fetch)(ids[k])
    ensures 0.0 <= delay || |ids| <= 1 ==> Outcome(Process(fetch, ids, delay)) == Ok([])
    ensures delay < 0.0 && |ids| > 1 ==> Outcome(Process(fetch, ids, delay)) == Err(ValueError)
  {
    if ids != [] && !PauseRaises(0, |ids|, delay) {
      assert forall k :: 0 <= k < |ids[1..]| ==> ids[1..][k] == ids[k + 1];
      NoSuccessGivesEmptyTable(fetch, ids[1..], delay);
      assert fetch(ids[0]).Ok? && !TruthyRecord(fetch(ids[0]).value);
      var rest := Process(fetch, ids[1..], delay);
      assert Process(fetch, ids, delay).rows == [] + rest.rows;
      assert Process(fetch, ids, delay).raised == rest.raised;
      assert rest.rows == [] && rest.raised.None?;
      assert Process(fetch, ids, delay).rows == [];
    } else if ids == [] {
      assert Process(fetch, ids, delay) == Run([], [], None);
    } else {
      assert fetch(ids[0]).Ok?;
    }
  }

  /** The number of pauses in a sequence of events. */
  function SleepCount(events: seq<Event>): nat
  {
    if events == [] then 0
    else (if events[0].Sleep? then 1 else 0) + SleepCount(events[1..])
  }

  /** A run that raises nothing alternates requests and pauses: one request per
      id in input order, one pause of `delay` between consecutive requests, and
      none after the last. */
  lemma {:induction false} BatchTrace(fetch: Fetcher, ids: seq<string>, delay: real)
    requires ids != [] && Process(fetch, ids, delay).raised.None?
    ensures Alternates(Process(fetch, ids, delay).events, ids, delay)
  {
    if |ids| > 1 {
      NothingRaisedFirstStep(fetch, ids, delay);
      ProcessStep(fetch, ids, delay);
      BatchTrace(fetch, ids[1..], delay);
      AlternatesCons(Process(fetch, ids[1..], delay).events, ids, delay);
    }
  }

  /** `events` requests each of `ids` in order, with one pause of `delay`
      between consecutive requests and none after the last. */
  predicate Alternates(events: seq<Event>, ids: seq<string>, delay: real)
  {
    && |events| == 2 * |ids| - 1
    && (forall j :: 0 <= j < |ids| ==> events[2 * j] == Request(ids[j]))
    && (forall j :: 0 <= j < |ids| - 1 ==> events[2 * j + 1] == Sleep(delay))
  }

  /** A request and a pause in front of an alternating trace of the other ids
      give an alternating trace of all of them. */
  lemma AlternatesCons(rest: seq<Event>, ids: seq<string>, delay: real)
    requires |ids| > 1 && Alternates(rest, ids[1..], delay)
    ensures Alternates([Request(ids[0]), Sleep(delay)] + rest, ids, delay)
  {
    var events := [Request(ids[0]), Sleep(delay)] + rest;
    forall j | 0 <= j < |ids| ensures events[2 * j] == Request(ids[j]) {
      if j > 0 {
        assert events[2 * j] == rest[2 * (j - 1)];
        assert ids[j] == ids[1..][j - 1];
      }
    }
    forall j | 0 <= j < |ids| - 1 ensures events[2 * j + 1] == Sleep(delay) {
      if j > 0 {
        assert events[2 * j + 1] == rest[2 * (j - 1) + 1];
      }
    }
  }

  /** A run that raises nothing keeps the first id's record, if truthy, then
      the rows of the run over the rest, which raises nothing either. */
  lemma NothingRaisedRowsStep(fetch: Fetcher, ids: seq<string>, delay: real)
    requires ids != [] && Process(fetch, ids, delay).raised.None?
    ensures fetch(ids[0]).Ok?
    ensures var rest := Process(fetch, ids[1..], delay);
      && Process(fetch, ids, delay).rows == Kept(fetch(ids[0]).value) + rest.rows
      && rest.raised.None?
  {
  }

  /** A run that raises nothing got past its first fetch and first pause. */
  lemma NothingRaisedFirstStep(fetch: Fetcher, ids: seq<string>, delay: real)
    requires |ids| > 1 && Process(fetch, ids, delay).raised.None?
    ensures fetch(ids[0]).Ok? && 0.0 <= delay
  {
  }

  /** A run over two or more ids whose first fetch and first pause do not
      raise: the first request and a pause, then the run over the rest. */
  lemma {:induction false} ProcessStep(fetch: Fetcher, ids: seq<string>, delay: real)
    requires |ids| > 1 && fetch(ids[0]).Ok? && 0.0 <= delay
    ensures var run, rest := Process(fetch, ids, delay), Process(fetch, ids[1..], delay);
      && run.events == [Request(ids[0]), Sleep(delay)] + rest.events
      && run.raised == rest.raised
  {
    var rest := Process(fetch, ids[1..], delay);
    assert Process(fetch, ids, delay).events == [Request(ids[0])] + [Sleep(delay)] + rest.events;
    AppendAssociative([Request(ids[0])], [Sleep(delay)], rest.events);
  }

  /** The collector pauses exactly once fewer than it has ids (never for no
      ids) when nothing raises, and an exception ends the run right after a
      request, never after a pause. */
  lemma {:induction false} BatchSleepCount(fetch: Fetcher, ids: seq<string>, delay: real)
    ensures var run := Process(fetch, ids, delay);
      run.raised.None? ==> SleepCount(run.events) == if ids == [] then 0 else |ids| - 1
    ensures var run := Process(fetch, ids, delay);
      run.raised.Some? ==> run.events != [] && run.events[|run.events| - 1].Request?
  {
    if ids != [] {
      BatchSleepCount(fetch, ids[1..], delay);
      var request := Request(ids[0]);
      var run := Process(fetch, ids, delay);
      var rest := Process(fetch, ids[1..], delay);
      if fetch(ids[0]).Ok? && !PauseRaises(0, |ids|, delay) {
        var pause := if |ids| > 1 then [Sleep(delay)] else [];
        assert run.events == [request] + pause + rest.events;
        SleepCountAppend([request] + pause, rest.events);
        SleepCountAppend([request], pause);
      }
    }
  }

  lemma {:induction false} SleepCountAppend(a: seq<Event>, b: seq<Event>)
    ensures SleepCount(a + b) == SleepCount(a) + SleepCount(b)
  {
    if a != [] {
      SleepCountAppend(a[1..], b);
      assert (a + b)[1..] == a[1..] + b;
    } else {
      assert a + b == b;
    }
  }

  /** Three ids whose second fetch fails: the first and third records come
      back, in that order. */
  lemma SecondOfThreeFails(fetch: Fetcher, a: string, b: string, c: string)
    requires Succeeds(fetch)(a) && Succeeds(fetch)(c)
    requires fetch(b) == Ok(None)
    ensures Outcome(Process(fetch, [a, b, c], DefaultDelay)) ==
      Ok([RecordOf(fetch, a), RecordOf(fetch, c)])
  {
    assert fetch(a).Ok? && TruthyRecord(fetch(a).value);
    assert fetch(c).Ok? && TruthyRecord(fetch(c).value);
    assert [a, b, c][1..] == [b, c];
    assert [b, c][1..] == [c];
    assert [c][1..] == [];
    var done := Process(fetch, [], DefaultDelay);
    assert done == Run([], [], None);
    var last := Process(fetch, [c], DefaultDelay);
    assert last.rows == [RecordOf(fetch, c)] + done.rows && last.raised.None?;
    var middle := Process(fetch, [b, c], DefaultDelay);
    assert middle.rows == [] + last.rows && middle.raised.None?;
    var all := Process(fetch, [a, b, c], DefaultDelay);
    assert all.rows == [RecordOf(fetch, a)] + middle.rows && all.raised.None?;
    assert all.rows == [RecordOf(fetch, a), RecordOf(fetch, c)];
  }
}
