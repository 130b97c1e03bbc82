/** The Google Maps Geocoding adapters: `app/lib/google-maps.ts` and
    `services/agent/app/clients/google_maps.py`. The HTTP exchange is an
    input value; what the adapters do with it is modelled. */
module GoogleMaps {
  import opened Wrappers
  import opened Text

  /** One entry of `address_components`; a missing JSON key is `None`. */
  datatype AddressComponent = AddressComponent(longName: Option<string>, shortName: Option<string>, types: seq<string>)

  /** One entry of the API's `results` array, as JSON. */
  datatype GeoResult = GeoResult(
    components: Option<seq<AddressComponent>>,
    lat: real,
    lng: real,
    placeId: Option<string>,
    formattedAddress: Option<string>,
    partialMatch: Option<bool>)

  /** The decoded response body: its `status` and `results` fields. */
  datatype GeoBody = GeoBody(status: Option<string>, results: Option<seq<GeoResult>>)

  /** What the HTTP call produced: a transport failure (network error,
      timeout), or a response with a status code and a body that is `None`
      when it is not valid JSON. */
  datatype HttpOutcome = TransportFailure | HttpResponse(code: int, body: Option<GeoBody>)

  /** The venue fields a lookup is made from. */
  datatype VenueParams = VenueParams(name: string, city: Option<string>, state: Option<string>, country: Option<string>)

  /** What the TypeScript `geocodeVenue` settles to: it throws, or resolves to a list. */
  datatype GeoOutcome = Throws | Results(results: seq<GeoResult>)

  // ---------------------------------------------------------------------
  // The address sent to the API (both languages)
  // ---------------------------------------------------------------------

  /** The truthy fields among name, city, state and country, in that order. */
  function AddressParts(p: VenueParams): (r: seq<string>)
    ensures |r| <= 4
    ensures forall i :: 0 <= i < |r| ==> r[i] != ""
  {
    TruthyValues([Some(p.name), p.city, p.state, p.country])
  }

  /** Each field contributes its value when truthy, in the order name,
      city, state, country. */
  lemma AddressPartsInOrder(p: VenueParams)
    ensures AddressParts(p) == TruthyPart(Some(p.name)) + TruthyPart(p.city) + TruthyPart(p.state) + TruthyPart(p.country)
  {
    var xs := [Some(p.name), p.city, p.state, p.country];
    assert xs == [Some(p.name)] + [p.city] + [p.state] + [p.country];
    TruthyValuesAppend([Some(p.name)] + [p.city] + [p.state], [p.country]);
    TruthyValuesAppend([Some(p.name)] + [p.city], [p.state]);
    TruthyValuesAppend([Some(p.name)], [p.city]);
    TruthyValuesSingle(Some(p.name));
    TruthyValuesSingle(p.city);
    TruthyValuesSingle(p.state);
    TruthyValuesSingle(p.country);
  }

  /** `addressParts.join(', ')` / `", ".join(address_parts)`. */
  function AddressQuery(p: VenueParams): string {
    JoinWith(AddressParts(p), ", ")
  }

  /** With every field given, the query lists all four, in order. */
  lemma FullAddressQuery(p: VenueParams)
    requires p.name != "" && Truthy(p.city) && Truthy(p.state) && Truthy(p.country)
    ensures AddressQuery(p) == p.name + ", " + p.city.value + ", " + p.state.value + ", " + p.country.value
  {
    var xs := [Some(p.name), p.city, p.state, p.country];
    assert xs[1..][1..][1..][1..] == [];
    assert TruthyValues(xs[1..][1..][1..]) == [p.country.value];
    assert TruthyValues(xs[1..][1..]) == [p.state.value, p.country.value];
    assert TruthyValues(xs[1..]) == [p.city.value, p.state.value, p.country.value];
    var parts := [p.name, p.city.value, p.state.value, p.country.value];
    assert AddressParts(p) == parts;
    assert parts[1..][1..][1..] == [p.country.value];
    assert JoinWith(parts[1..][1..], ", ") == p.state.value + ", " + p.country.value;
    assert JoinWith(parts[1..], ", ") == p.city.value + ", " + p.state.value + ", " + p.country.value;
  }

  /** A missing or empty field is skipped without leaving an empty slot. */
  lemma FalsyFieldsSkipped(p: VenueParams)
    requires p.name != "" && !Truthy(p.city) && !Truthy(p.state) && !Truthy(p.country)
    ensures AddressQuery(p) == p.name
  {
    var xs := [Some(p.name), p.city, p.state, p.country];
    assert xs[1..][1..][1..][1..] == [];
    assert TruthyValues(xs[1..][1..][1..]) == [];
    assert TruthyValues(xs[1..][1..]) == [];
    assert TruthyValues(xs[1..]) == [];
    assert AddressParts(p) == [p.name];
  }

  // ---------------------------------------------------------------------
  // TypeScript geocodeVenue
  // ---------------------------------------------------------------------

  predicate AcceptedStatus(status: Option<string>) {
    status == Some("OK") || status == Some("ZERO_RESULTS")
  }

  /** `geocodeVenue` (google-maps.ts): a missing key throws before any
      request; every other failure resolves to `[]`. */
  function GeocodeVenueTs(p: VenueParams, apiKey: Option<string>, http: HttpOutcome): (r: GeoOutcome)
    ensures r.Throws? <==> !Truthy(apiKey)
    ensures r.Results? && |r.results| > 0 ==>
              http.HttpResponse? && 200 <= http.code <= 299 && http.body.Some?
              && AcceptedStatus(http.body.value.status)
              && http.body.value.results == Some(r.results)
  {
    if !Truthy(apiKey) then Throws
    else match http
      case TransportFailure => Results([])
      case HttpResponse(code, body) =>
        if !(200 <= code <= 299) then Results([])
        else if body.None? then Results([])
        else if !AcceptedStatus(body.value.status) then Results([])
        else Results(body.value.results.GetOr([]))
  }

  /** A successful exchange with status OK yields the API's results unchanged. */
  lemma GeocodeTsPassesResults(p: VenueParams, key: string, results: seq<GeoResult>)
    requires key != ""
    ensures GeocodeVenueTs(p, Some(key), HttpResponse(200, Some(GeoBody(Some("OK"), Some(results)))))
         == Results(results)
  {
  }

  /** The component carries one of the wanted tags. */
  predicate Tagged(c: AddressComponent, tags: seq<string>) {
    exists t :: t in tags && t in c.types
  }

  /** The first component whose `types` include one of the wanted tags
      (`Array.prototype.find` / the `for … return` loops). */
  function FirstWithType(comps: seq<AddressComponent>, tags: seq<string>): (r: Option<AddressComponent>)
    ensures r.Some? ==> r.value in comps && Tagged(r.value, tags)
    ensures r.None? <==> forall i :: 0 <= i < |comps| ==> !Tagged(comps[i], tags)
    ensures r.Some? ==> exists i :: 0 <= i < |comps| && comps[i] == r.value
                          && forall j :: 0 <= j < i ==> !Tagged(comps[j], tags)
  {
    if |comps| == 0 then None
    else if Tagged(comps[0], tags) then Some(comps[0])
    else
      var r := FirstWithType(comps[1..], tags);
      assert forall i :: 1 <= i < |comps| ==> comps[i] == comps[1..][i - 1];
      if r.Some? then
        var i :| 0 <= i < |comps[1..]| && comps[1..][i] == r.value
                 && forall j :: 0 <= j < i ==> !Tagged(comps[1..][j], tags);
        assert comps[i + 1] == r.value;
        r
      else r
  }

  const CityTags: seq<string> := ["locality", "sublocality"]
  const StateTags: seq<string> := ["administrative_area_level_1"]
  const CountryTags: seq<string> := ["country"]

  /** `extractCity` (TS): the first locality's `long_name`, `null` when it is
      missing or empty. */
  function ExtractCityTs(comps: seq<AddressComponent>): (r: Option<string>)
    ensures r.Some? ==> r.value != ""
    ensures r.Some? <==> FirstWithType(comps, CityTags).Some? && Truthy(FirstWithType(comps, CityTags).value.longName)
    ensures r.Some? ==> r == FirstWithType(comps, CityTags).value.longName
  {
    match FirstWithType(comps, CityTags)
    case None => None
    case Some(c) => OrNull(c.longName)
  }

  /** `extractState` (TS): the first state component's `short_name`, else its
      `long_name`, else `null`. */
  function ExtractStateTs(comps: seq<AddressComponent>): (r: Option<string>)
    ensures r.Some? ==> r.value != ""
    ensures FirstWithType(comps, StateTags).None? ==> r.None?
    ensures FirstWithType(comps, StateTags).Some? ==>
              var c := FirstWithType(comps, StateTags).value;
              r == (if Truthy(c.shortName) then c.shortName else OrNull(c.longName))
  {
    match FirstWithType(comps, StateTags)
    case None => None
    case Some(c) => OrElse(c.shortName, OrNull(c.longName))
  }

  /** `extractCountry` (TS): never null; "Unknown" stands in for a missing country. */
  function ExtractCountryTs(comps: seq<AddressComponent>): (r: string)
    ensures r != ""
    ensures r != "Unknown" ==> FirstWithType(comps, CountryTags).Some?
                               && FirstWithType(comps, CountryTags).value.longName == Some(r)
    ensures FirstWithType(comps, CountryTags).None? ==> r == "Unknown"
    ensures FirstWithType(comps, CountryTags).Some? && Truthy(FirstWithType(comps, CountryTags).value.longName) ==>
              r == FirstWithType(comps, CountryTags).value.longName.value
  {
    match FirstWithType(comps, CountryTags)
    case None => "Unknown"
    case Some(c) => if Truthy(c.longName) then c.longName.value else "Unknown"
  }

  // ---------------------------------------------------------------------
  // Python geocode_venue and GeocodingResult
  // ---------------------------------------------------------------------

  /** The Python exceptions that escape `geocode_venue`: an `httpx` transport
      error, or a body that is not JSON. */
  datatype PyGeoError = HttpxError | JsonDecodeError

  /** `geocode_venue` (google_maps.py): a missing key returns `[]` without a
      request; an HTTP status other than 200 or an API status outside
      {OK, ZERO_RESULTS} returns `[]`; transport and decoding errors raise. */
  function GeocodeVenuePy(p: VenueParams, apiKey: Option<string>, http: HttpOutcome)
    : (r: Result<seq<GeoResult>, PyGeoError>)
    ensures !Truthy(apiKey) ==> r == Ok([])
    ensures r.Err? ==> http.TransportFailure? || (http.code == 200 && http.body.None?)
    ensures r.Ok? && |r.value| > 0 ==>
              Truthy(apiKey) && http.HttpResponse? && http.code == 200 && http.body.Some?
              && AcceptedStatus(http.body.value.status) && http.body.value.results == Some(r.value)
  {
    if !Truthy(apiKey) then Ok([])
    else match http
      case TransportFailure => Err(HttpxError)
      case HttpResponse(code, body) =>
        if code != 200 then Ok([])
        else if body.None? then Err(JsonDecodeError)
        else if !AcceptedStatus(body.value.status) then Ok([])
        else Ok(body.value.results.GetOr([]))
  }

  /** The two adapters differ on a missing key (TS throws, Python returns
      `[]`), on a transport failure (TS `[]`, Python raises) and on a 2xx
      status other than 200 (TS accepts it); with a key and a 200 response
      carrying JSON they agree. */
  lemma GeocodersAgreeOn200(p: VenueParams, key: string, body: GeoBody)
    requires key != ""
    ensures GeocodeVenueTs(p, Some(key), HttpResponse(200, Some(body)))
         == Results(GeocodeVenuePy(p, Some(key), HttpResponse(200, Some(body))).value)
    ensures GeocodeVenueTs(p, None, HttpResponse(200, Some(body))).Throws?
    ensures GeocodeVenuePy(p, None, HttpResponse(200, Some(body))) == Ok([])
    ensures GeocodeVenueTs(p, Some(key), TransportFailure) == Results([])
    ensures GeocodeVenuePy(p, Some(key), TransportFailure).Err?
  {
  }

  /** `GeocodingResult.place_id`: `""` when the key is absent. */
  function PlaceIdPy(g: GeoResult): (r: string)
    ensures g.placeId.Some? ==> r == g.placeId.value
    ensures g.placeId.None? ==> r == ""
  {
    g.placeId.GetOr("")
  }

  /** `GeocodingResult.formatted_address`: `""` when the key is absent. */
  function FormattedAddressPy(g: GeoResult): (r: string)
    ensures g.formattedAddress.Some? ==> r == g.formattedAddress.value
    ensures g.formattedAddress.None? ==> r == ""
  {
    g.formattedAddress.GetOr("")
  }

  /** `GeocodingResult.address_components`: `[]` when the key is absent. */
  function ComponentsPy(g: GeoResult): (r: seq<AddressComponent>)
    ensures g.components.Some? ==> r == g.components.value
    ensures g.components.None? ==> r == []
  {
    g.components.GetOr([])
  }

  /** `GeocodingResult.partial_match`: `False` when the key is absent. */
  function PartialMatchPy(g: GeoResult): (r: bool)
    ensures g.partialMatch.Some? ==> r == g.partialMatch.value
    ensures g.partialMatch.None? ==> !r
  {
    g.partialMatch.GetOr(false)
  }

  /** Python `str()` of a value read with `dict.get`: an absent key reads as `None`. */
  function PyStr(o: Option<string>): (r: string)
    ensures o.Some? ==> r == o.value
    ensures o.None? ==> r == "None"
  {
    if o.Some? then o.value else "None"
  }

  /** `extract_city`: the first locality's `long_name`, as `str()` renders it. */
  function ExtractCityPy(comps: seq<AddressComponent>): (r: Option<string>)
    ensures r.Some? <==> FirstWithType(comps, CityTags).Some?
    ensures r.Some? ==> r.value == PyStr(FirstWithType(comps, CityTags).value.longName)
  {
    match FirstWithType(comps, CityTags)
    case None => None
    case Some(c) => Some(PyStr(c.longName))
  }

  /** `extract_state`: the first state component's `short_name or long_name`. */
  function ExtractStatePy(comps: seq<AddressComponent>): (r: Option<string>)
    ensures r.Some? <==> FirstWithType(comps, StateTags).Some?
    ensures r.Some? ==> var c := FirstWithType(comps, StateTags).value;
                        r.value == (if Truthy(c.shortName) then c.shortName.value else PyStr(c.longName))
  {
    match FirstWithType(comps, StateTags)
    case None => None
    case Some(c) => Some(PyStr(if Truthy(c.shortName) then c.shortName else c.longName))
  }

  /** `extract_country`: the first country's `long_name`; "Unknown" when there
      is no country component or it has no `long_name` key. */
  function ExtractCountryPy(comps: seq<AddressComponent>): (r: string)
    ensures FirstWithType(comps, CountryTags).None? ==> r == "Unknown"
    ensures FirstWithType(comps, CountryTags).Some? ==>
              r == FirstWithType(comps, CountryTags).value.longName.GetOr("Unknown")
  {
    match FirstWithType(comps, CountryTags)
    case None => "Unknown"
    case Some(c) => c.longName.GetOr("Unknown")
  }

  /** When the chosen components carry non-empty names, the TypeScript and
      Python extractors return the same values. */
  lemma ExtractorsAgree(comps: seq<AddressComponent>)
    requires forall i :: 0 <= i < |comps| ==> Truthy(comps[i].longName)
    ensures ExtractCityTs(comps) == ExtractCityPy(comps)
    ensures ExtractStateTs(comps) == ExtractStatePy(comps)
    ensures ExtractCountryTs(comps) == ExtractCountryPy(comps)
  {
    var c1 := FirstWithType(comps, CityTags);
    var c2 := FirstWithType(comps, StateTags);
    var c3 := FirstWithType(comps, CountryTags);
    assert c1.Some? ==> Truthy(c1.value.longName);
    assert c2.Some? ==> Truthy(c2.value.longName);
    assert c3.Some? ==> Truthy(c3.value.longName);
  }

  /** Where they differ: a locality with an empty `long_name` is `null` in
      TypeScript and `""` in Python; one without the key is `null` and "None". */
  lemma ExtractorsDivergeOnEmptyName()
    ensures ExtractCityTs([AddressComponent(Some(""), None, ["locality"])]) == None
    ensures ExtractCityPy([AddressComponent(Some(""), None, ["locality"])]) == Some("")
    ensures ExtractCityTs([AddressComponent(None, None, ["locality"])]) == None
    ensures ExtractCityPy([AddressComponent(None, None, ["locality"])]) == Some("None")
  {
    var a := AddressComponent(Some(""), None, ["locality"]);
    var b := AddressComponent(None, None, ["locality"]);
    assert "locality" in CityTags && "locality" in a.types && "locality" in b.types;
  }
}
