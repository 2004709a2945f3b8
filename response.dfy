/** The EJScreen request and response as both API modules see them: the query
    parameters, the HTTP reply as an oracle, and the three sections of a decoded
    response (`data.demographics`, `data.main`, `extras`). */
module EjscreenResponse {
  import opened Common

  /** Query parameters of one GET request. */
  type Params = map<string, string>

  /** The seven query keys every request sends. */
  const ParamKeys: set<string> := {"namestr", "geometry", "distance", "unit", "areatype", "areaid", "f"}

  /** The parameters that are the same for every request: no geometry, no buffer
      distance, unit code 9035 and a JSON response. */
  predicate FixedQuery(p: Params)
  {
    && "geometry" in p && p["geometry"] == ""
    && "distance" in p && p["distance"] == ""
    && "unit" in p && p["unit"] == "9035"
    && "f" in p && p["f"] == "json"
  }

  /** What one GET with a 30-second timeout yields: no reply at all (connection
      error, timeout), or a status code and a body that decodes to JSON or not. */
  datatype HttpReply =
    | Unreachable
    | Reply(status: int, body: Option<Json>)

  /** The remote service, as a function from query parameters to reply. */
  type Server = Params -> HttpReply

  /** `requests.get`, `raise_for_status()` or `response.json()` raises a
      RequestException: a transport failure, a 4xx or 5xx status, or a body that
      is not JSON. */
  predicate RaisesRequestException(reply: HttpReply)
  {
    reply.Unreachable? || 400 <= reply.status < 600 || reply.body.None?
  }

  /** The decoded body of a reply that raised nothing. */
  function Body(reply: HttpReply): Json
    requires !RaisesRequestException(reply)
  {
    reply.body.value
  }

  datatype Section = Demographics | Main | Extras

  function SectionKey(section: Section): string
  {
    match section
    case Demographics => "demographics"
    case Main => "main"
    case Extras => "extras"
  }

  /** `key` is absent from `m` or names a JSON object. */
  predicate ObjectOrAbsent(m: map<string, Json>, key: string)
  {
    key !in m || m[key].JObj?
  }

  /** A response every `.get` of the extraction code can be applied to: a JSON
      object whose `data`, `data.demographics`, `data.main` and `extras` are each
      absent or objects. */
  predicate WellShaped(response: Json)
  {
    && response.JObj?
    && ObjectOrAbsent(response.fields, "data")
    && ObjectOrAbsent(response.fields, "extras")
    && ("data" in response.fields ==>
          && ObjectOrAbsent(response.fields["data"].fields, "demographics")
          && ObjectOrAbsent(response.fields["data"].fields, "main"))
  }

  /** The fields of one section of a well-shaped response; an absent section
      (or an absent `data`) is empty. */
  function SectionOf(response: Json, section: Section): map<string, Json>
    requires WellShaped(response)
  {
    var top := response.fields;
    var holder := if section == Extras then top
                  else if "data" in top then top["data"].fields
                  else map[];
    var key := SectionKey(section);
    if key in holder then holder[key].fields else map[]
  }

  /** The value of `key` in one section, `None` when the section or the key is
      absent. */
  function Indicator(response: Json, section: Section, key: string): Json
    requires WellShaped(response)
  {
    var fields := SectionOf(response, section);
    if key in fields then fields[key] else JNull
  }

  /** The three section lookups, in the source's order:
      `data.get("data", {}).get("demographics", {})`,
      `data.get("data", {}).get("main", {})` and `data.get("extras", {})`.
      They raise AttributeError exactly when the response is not an object or
      its `data` is present and not an object; on a well-shaped response they
      yield the three sections, an absent one as an empty object. */
  function ReadSections(response: Json): (r: Result<(Json, Json, Json)>)
    ensures r.Ok? <==> response.JObj? && ObjectOrAbsent(response.fields, "data")
    ensures r.Err? ==> r.error == AttributeError
    ensures WellShaped(response) ==>
      r == Ok((JObj(SectionOf(response, Demographics)),
               JObj(SectionOf(response, Main)),
               JObj(SectionOf(response, Extras))))
  {
    var inner :- DictGet(response, "data", EmptyObject);
    var demographics :- DictGet(inner, "demographics", EmptyObject);
    // `.get` has worked on `inner` and on `response`, so the last two cannot raise
    var main := DictGet(inner, "main", EmptyObject).value;
    var extras := DictGet(response, "extras", EmptyObject).value;
    Ok((demographics, main, extras))
  }
}
