/** Fetching one area's raw EJScreen response and flattening it into a single
    dictionary by merging its three sections. */
module GetDataFromApi {
  import opened Common
  import opened EjscreenResponse

  const DefaultAreaType := "blockgroup"

  /** Python truthiness of an optional string: `None` and `""` are false
      (`BatchCollector.TruthyRecord` is the same test on an optional record). */
  predicate TruthyName(s: Option<string>)
  {
    s.Some? && s.value != ""
  }

  /** The query for one area: the display name is the city name when one is
      given and non-empty, and the area id otherwise. */
  function FetchParams(areaId: string, areaType: string, cityName: Option<string>): (p: Params)
    ensures p.Keys == ParamKeys && FixedQuery(p)
    ensures p["namestr"] == (if TruthyName(cityName) then cityName.value else areaId)
    ensures p["areatype"] == areaType && p["areaid"] == areaId
  {
    map[
      "namestr" := if TruthyName(cityName) then cityName.value else areaId,
      "geometry" := "",
      "distance" := "",
      "unit" := "9035",
      "areatype" := areaType,
      "areaid" := areaId,
      "f" := "json"
    ]
  }

  /** The decoded response, or `None` (`JNull`) when the request raised a
      RequestException; a body that is JSON `null` reads the same. */
  function FetchEjscreenData(server: Server, areaId: string, areaType: string, cityName: Option<string>): (r: Json)
    ensures var reply := server(FetchParams(areaId, areaType, cityName));
            if RaisesRequestException(reply) then r == JNull else r == Body(reply)
  {
    var reply := server(FetchParams(areaId, areaType, cityName));
    if RaisesRequestException(reply) then JNull else reply.body.value
  }

  /** `dict(x)` for `{**x}`: only a JSON object is a mapping. */
  function AsMapping(section: Json): Result<map<string, Json>>
  {
    if section.JObj? then Ok(section.fields) else Err(TypeError)
  }

  /** `{**demographics, **main_stats, **extras}` over the three sections. */
  function ExtractFields(response: Json): (r: Result<map<string, Json>>)
    ensures r.Ok? <==> WellShaped(response)
    ensures r.Ok? ==>
      r.value.Keys == SectionOf(response, Demographics).Keys + SectionOf(response, Main).Keys + SectionOf(response, Extras).Keys
    ensures r.Ok? ==> forall k :: k in r.value ==>
      r.value[k] == (if k in SectionOf(response, Extras) then SectionOf(response, Extras)[k]
                     else if k in SectionOf(response, Main) then SectionOf(response, Main)[k]
                     else SectionOf(response, Demographics)[k])
  {
    var sections :- ReadSections(response);
    var demographics :- AsMapping(sections.0);
    var main :- AsMapping(sections.1);
    var extras :- AsMapping(sections.2);
    Ok(demographics + main + extras)
  }

  /** A response that is not shaped as expected raises: AttributeError when a
      `.get` meets a non-dict, TypeError when `**` does. */
  lemma ExtractFieldsErrors(response: Json)
    ensures !response.JObj? ==> ExtractFields(response) == Err(AttributeError)
    ensures response.JObj? && "data" in response.fields && !response.fields["data"].JObj? ==>
      ExtractFields(response) == Err(AttributeError)
    ensures response.JObj? && ObjectOrAbsent(response.fields, "data") && !WellShaped(response) ==>
      ExtractFields(response) == Err(TypeError)
  {
  }

  /** Absent `data`, `demographics`, `main` or `extras` objects add nothing; in
      particular an empty response flattens to an empty dictionary. */
  lemma {:induction false} MissingSectionsContributeNothing(response: Json)
    requires WellShaped(response)
    ensures "data" !in response.fields ==>
      ExtractFields(response) == Ok(SectionOf(response, Extras))
    ensures "extras" !in response.fields ==>
      ExtractFields(response) == Ok(SectionOf(response, Demographics) + SectionOf(response, Main))
    ensures ExtractFields(EmptyObject) == Ok(map[])
  {
    var d, m, e := SectionOf(response, Demographics), SectionOf(response, Main), SectionOf(response, Extras);
    if "data" !in response.fields {
      assert d == map[] && m == map[];
      assert d + m + e == e;
    }
    if "extras" !in response.fields {
      assert e == map[];
      assert d + m + e == d + m;
    }
    assert SectionOf(EmptyObject, Demographics) == map[];
    var empty: map<string, Json> := map[];
    assert empty + empty + empty == empty;
  }
}
