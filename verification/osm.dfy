/** The OpenStreetMap Nominatim adapter, `app/lib/osm.ts`. The HTTP exchange
    is an input value; the one-request-per-second pacing is left out. */
module Osm {
  import opened Wrappers
  import opened Text
  import opened GoogleMaps

  /** The `address` object Nominatim returns with `addressdetails=1`; every
      key may be absent. */
  datatype OsmAddress = OsmAddress(
    city: Option<string>,
    town: Option<string>,
    village: Option<string>,
    state: Option<string>,
    country: Option<string>)

  /** One search hit; only what the extractors read is kept. */
  datatype OsmResult = OsmResult(displayName: string, lat: string, lon: string, address: Option<OsmAddress>)

  /** The HTTP exchange: a transport failure or timeout, or a response whose
      body is `None` when it does not decode as JSON. */
  datatype OsmHttp = OsmFailure | OsmResponse(code: int, body: Option<seq<OsmResult>>)

  /** The `q` parameter: the name, then the city and the country when truthy,
      joined with ", ". The state is never sent. */
  function OsmQuery(name: string, city: Option<string>, country: Option<string>): string {
    JoinWith([name] + TruthyValues([city, country]), ", ")
  }

  /** The four shapes the query takes. */
  lemma OsmQueryShape(name: string, city: Option<string>, country: Option<string>)
    ensures !Truthy(city) && !Truthy(country) ==> OsmQuery(name, city, country) == name
    ensures Truthy(city) && Truthy(country) ==>
              OsmQuery(name, city, country) == name + ", " + city.value + ", " + country.value
    ensures Truthy(city) && !Truthy(country) ==> OsmQuery(name, city, country) == name + ", " + city.value
    ensures !Truthy(city) && Truthy(country) ==> OsmQuery(name, city, country) == name + ", " + country.value
  {
    var xs := [city, country];
    assert xs[1..] == [country] && xs[1..][1..] == [];
    assert TruthyValues(xs[1..]) == (if Truthy(country) then [country.value] else []);
    var tv := TruthyValues(xs);
    var parts := [name] + tv;
    assert parts[1..] == tv;
    if Truthy(city) && Truthy(country) {
      assert tv == [city.value, country.value];
      assert tv[1..] == [country.value];
      assert JoinWith(tv, ", ") == city.value + ", " + country.value;
      assert JoinWith(parts, ", ") == name + ", " + JoinWith(tv, ", ");
    } else if Truthy(city) {
      assert tv == [city.value];
      assert JoinWith(parts, ", ") == name + ", " + JoinWith(tv, ", ");
    } else if Truthy(country) {
      assert tv == [country.value];
      assert JoinWith(parts, ", ") == name + ", " + JoinWith(tv, ", ");
    } else {
      assert tv == [];
    }
  }

  /** For a venue with a non-empty name and no state, Nominatim is asked the
      same question as the Google geocoder. */
  lemma OsmQueryMatchesGoogle(p: VenueParams)
    requires p.name != "" && !Truthy(p.state)
    ensures OsmQuery(p.name, p.city, p.country) == AddressQuery(p)
  {
    var xs := [Some(p.name), p.city, p.state, p.country];
    assert xs[1..][1..][1..][1..] == [];
    assert TruthyValues(xs[1..][1..]) == TruthyValues(xs[1..][1..][1..]);
    assert xs[1..][1..][1..] == [p.country];
    assert TruthyValues(xs[1..]) == TruthyValues([p.city, p.country]) by {
      assert [p.city, p.country][1..] == [p.country];
    }
    assert AddressParts(p) == [p.name] + TruthyValues([p.city, p.country]);
  }

  /** `searchVenue`: never rejects. A failed request, a non-2xx status or an
      undecodable body all give `[]`; otherwise the decoded list. */
  function SearchVenue(name: string, city: Option<string>, country: Option<string>, http: OsmHttp)
    : (r: seq<OsmResult>)
    ensures http.OsmResponse? && 200 <= http.code <= 299 && http.body.Some? ==> r == http.body.value
    ensures !(http.OsmResponse? && 200 <= http.code <= 299 && http.body.Some?) ==> r == []
  {
    match http
    case OsmFailure => []
    case OsmResponse(code, body) =>
      if !(200 <= code <= 299) then []
      else if body.None? then []
      else body.value
  }

  /** `extractCity`: the first truthy of `city`, `town`, `village`. */
  function ExtractCity(address: Option<OsmAddress>): (r: Option<string>)
    ensures address.None? ==> r.None?
    ensures r.Some? ==> r.value != ""
    ensures r.Some? ==> r == address.value.city || r == address.value.town || r == address.value.village
    ensures r.None? <==>
              address.None? || (!Truthy(address.value.city) && !Truthy(address.value.town) && !Truthy(address.value.village))
    ensures address.Some? && Truthy(address.value.city) ==> r == address.value.city
    ensures address.Some? && !Truthy(address.value.city) && Truthy(address.value.town) ==> r == address.value.town
  {
    match address
    case None => None
    case Some(a) => OrElse(a.city, OrElse(a.town, OrNull(a.village)))
  }

  /** `extractState`: the state when truthy. */
  function ExtractState(address: Option<OsmAddress>): (r: Option<string>)
    ensures r.Some? <==> address.Some? && Truthy(address.value.state)
    ensures r.Some? ==> r == address.value.state
  {
    match address
    case None => None
    case Some(a) => OrNull(a.state)
  }

  /** `extractCountry`: the country when truthy. Unlike the Google adapter,
      no "Unknown" stands in for it. */
  function ExtractCountry(address: Option<OsmAddress>): (r: Option<string>)
    ensures r.Some? <==> address.Some? && Truthy(address.value.country)
    ensures r.Some? ==> r == address.value.country
  {
    match address
    case None => None
    case Some(a) => OrNull(a.country)
  }
}
