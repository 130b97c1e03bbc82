/** Venue get-or-create on the `venues` table, `app/lib/venues.ts`. The
    geocoder's answer is an input (`GeoOutcome`), one per call of the
    geocoder: `getOrCreateVenueWithStatus` calls it twice and takes both
    answers. */
module Venues {
  import opened Wrappers
  import opened Text
  import opened Db
  import opened GoogleMaps

  /** A `venues` row. `country` is NOT NULL in the schema; the row's `id` is
      its position in the table. */
  datatype Venue = Venue(
    id: nat,
    name: string,
    city: Option<string>,
    state: Option<string>,
    country: string,
    latitude: Option<real>,
    longitude: Option<real>,
    googlePlaceId: Option<string>,
    googleAddress: Option<string>)

  type Venues = seq<Venue>

  // ---------------------------------------------------------------------
  // findVenue
  // ---------------------------------------------------------------------

  /** One null-aware column filter: `.eq(col, v)` for a truthy `v`,
      `.is(col, null)` otherwise. */
  predicate ColumnMatches(col: Option<string>, v: Option<string>) {
    if Truthy(v) then col == v else col.None?
  }

  /** The row filter `findVenue` builds. A falsy country filters on
      `country IS NULL`, which no row satisfies. */
  predicate RowMatches(v: Venue, q: VenueParams) {
    v.name == q.name && ColumnMatches(v.city, q.city) && ColumnMatches(v.state, q.state)
    && Truthy(q.country) && v.country == q.country.value
  }

  function VenueMatches(db: Venues, q: VenueParams): (r: Venues)
    ensures |r| <= |db|
    ensures forall v :: v in r <==> v in db && RowMatches(v, q)
  {
    if |db| == 0 then []
    else (if RowMatches(db[0], q) then [db[0]] else []) + VenueMatches(db[1..], q)
  }

  /** `if (!name && !city && !state && !country) return null`. */
  predicate AnyField(q: VenueParams) {
    q.name != "" || Truthy(q.city) || Truthy(q.state) || Truthy(q.country)
  }

  /** `findVenue`: `maybeSingle()` on the filtered rows, with every error
      (a failed query, or several matching rows) logged and read as "none". */
  function FindVenue(db: Venues, q: VenueParams, fault: bool): (r: Option<Venue>)
    ensures r.Some? ==> r.value in db && RowMatches(r.value, q)
    ensures r.Some? <==> AnyField(q) && !fault && |VenueMatches(db, q)| == 1
  {
    if !AnyField(q) then None
    else
      match MaybeSingle(VenueMatches(db, q), fault)
      case Err(_) => None
      case Ok(found) => found
  }

  // ---------------------------------------------------------------------
  // Table invariants
  // ---------------------------------------------------------------------

  /** The fields a venue is looked up by. */
  function KeyOf(v: Venue): VenueParams {
    VenueParams(v.name, v.city, v.state, Some(v.country))
  }

  predicate SameKey(a: Venue, b: Venue) {
    KeyOf(a) == KeyOf(b)
  }

  /** No two rows share name, city, state and country. */
  predicate Unique(db: Venues) {
    forall i, j :: 0 <= i < j < |db| ==> !SameKey(db[i], db[j])
  }

  /** Every row's id is its position. */
  predicate Positions(db: Venues) {
    forall i :: 0 <= i < |db| ==> db[i].id == i
  }

  /** A row as this code stores it: optional columns null or non-empty, a
      non-empty country. Such a row is found by its own key. */
  predicate Normal(v: Venue) {
    (v.city.None? || Truthy(v.city)) && (v.state.None? || Truthy(v.state)) && v.country != ""
  }

  /** The row agrees with every field the caller gave. */
  predicate AgreesWith(v: Venue, p: VenueParams) {
    v.name == p.name
    && (Truthy(p.city) ==> v.city == p.city)
    && (Truthy(p.state) ==> v.state == p.state)
    && (Truthy(p.country) ==> v.country == p.country.value)
  }

  lemma MatchesShareKey(a: Venue, b: Venue, q: VenueParams)
    requires RowMatches(a, q) && RowMatches(b, q)
    ensures SameKey(a, b)
  {
  }

  lemma NormalMatchesOwnKey(v: Venue)
    requires Normal(v)
    ensures RowMatches(v, KeyOf(v)) && AnyField(KeyOf(v))
  {
  }

  /** In a table without duplicates, a lookup matches at most one row. */
  lemma {:induction false} AtMostOneMatch(db: Venues, q: VenueParams)
    requires Unique(db)
    ensures |VenueMatches(db, q)| <= 1
  {
    if |db| > 0 {
      var tail := db[1..];
      assert Unique(tail) by {
        forall i, j | 0 <= i < j < |tail| ensures !SameKey(tail[i], tail[j]) {
          assert tail[i] == db[i + 1] && tail[j] == db[j + 1];
        }
      }
      AtMostOneMatch(tail, q);
      if RowMatches(db[0], q) {
        forall j | 0 <= j < |tail| ensures !RowMatches(tail[j], q) {
          assert tail[j] == db[j + 1];
          assert !SameKey(db[0], db[j + 1]);
        }
        NoMatchesEmpty(tail, q);
      }
    }
  }

  lemma NoMatchesEmpty(db: Venues, q: VenueParams)
    requires forall j :: 0 <= j < |db| ==> !RowMatches(db[j], q)
    ensures VenueMatches(db, q) == []
  {
  }

  lemma {:induction false} MatchesAppend(db: Venues, row: Venue, q: VenueParams)
    ensures VenueMatches(db + [row], q) == VenueMatches(db, q) + (if RowMatches(row, q) then [row] else [])
    decreases |db|
  {
    if |db| > 0 {
      var both := db + [row];
      assert both[0] == db[0];
      assert both[1..] == db[1..] + [row];
      MatchesAppend(db[1..], row, q);
      var head := if RowMatches(db[0], q) then [db[0]] else [];
      var last := if RowMatches(row, q) then [row] else [];
      calc {
        VenueMatches(both, q);
        head + VenueMatches(db[1..] + [row], q);
        head + (VenueMatches(db[1..], q) + last);
        (head + VenueMatches(db[1..], q)) + last;
      }
    } else {
      assert db + [row] == [row];
      assert [row][1..] == [];
    }
  }

  /** A lookup that finds nothing, without a failure, means no row matches. */
  lemma MissMeansNoMatch(db: Venues, q: VenueParams)
    requires Unique(db) && AnyField(q) && FindVenue(db, q, false).None?
    ensures |VenueMatches(db, q)| == 0
  {
    AtMostOneMatch(db, q);
  }

  /** Inserting a normal row whose own key found nothing keeps the table free
      of duplicates and keeps ids at their positions. */
  lemma InsertAfterMiss(db: Venues, row: Venue)
    requires Unique(db) && Positions(db) && Normal(row) && row.id == |db|
    requires FindVenue(db, KeyOf(row), false).None?
    ensures Unique(db + [row]) && Positions(db + [row])
  {
    NormalMatchesOwnKey(row);
    MissMeansNoMatch(db, KeyOf(row));
    var db1 := db + [row];
    forall i, j | 0 <= i < j < |db1| ensures !SameKey(db1[i], db1[j]) {
      if j == |db| {
        assert db[i] !in VenueMatches(db, KeyOf(row));
        assert !RowMatches(db[i], KeyOf(row));
        assert db1[i] == db[i] && db1[j] == row;
      } else {
        assert db1[i] == db[i] && db1[j] == db[j];
      }
    }
  }

  // ---------------------------------------------------------------------
  // createVenueWithoutGeocode
  // ---------------------------------------------------------------------

  /** Which fields `createVenueWithoutGeocode` looks the venue up by before
      inserting: the caller's (as the source does), or the values it is about
      to insert (as every other re-check in the code base does). */
  datatype FallbackLookup = ByCallerFields | ByInsertedFields

  /** The row `createVenueWithoutGeocode` inserts: no coordinates, empty
      fields stored as null, and "Unknown" for a missing country. */
  function FallbackRow(db: Venues, p: VenueParams): (v: Venue)
    ensures v.id == |db| && Normal(v) && AgreesWith(v, p)
    ensures v.latitude.None? && v.longitude.None? && v.googlePlaceId.None?
    ensures !Truthy(p.country) ==> v.country == "Unknown"
  {
    Venue(|db|, p.name, OrNull(p.city), OrNull(p.state),
          if Truthy(p.country) then p.country.value else "Unknown",
          None, None, None, None)
  }

  /** A lookup hit, or an insert of `row` (which fails when the store does). */
  function FindOrInsert(db: Venues, q: VenueParams, row: Venue, faults: Faults): (r: (Venues, Option<Venue>))
    ensures FindVenue(db, q, faults.lookup).Some? ==> r == (db, FindVenue(db, q, faults.lookup))
    ensures FindVenue(db, q, faults.lookup).None? ==> r == (if faults.insert then (db, None) else (db + [row], Some(row)))
  {
    match FindVenue(db, q, faults.lookup)
    case Some(v) => (db, Some(v))
    case None => if faults.insert then (db, None) else (db + [row], Some(row))
  }

  /** `createVenueWithoutGeocode`: the existing row, the inserted one, or
      `null` when the insert fails. */
  function CreateVenueWithoutGeocode(db: Venues, p: VenueParams, faults: Faults, lookup: FallbackLookup)
    : (r: (Venues, Option<Venue>))
    ensures r.0 == db || (r.1.Some? && r.0 == db + [r.1.value])
    ensures r.1.Some? ==> r.1.value in r.0 && AgreesWith(r.1.value, p)
    ensures r.0 != db ==> r.1.value == FallbackRow(db, p)
    ensures r.0 != db && lookup == ByInsertedFields ==> FindVenue(db, KeyOf(r.1.value), faults.lookup).None?
    ensures r.0 != db && lookup == ByCallerFields ==> FindVenue(db, p, faults.lookup).None?
    ensures r.1.None? <==> FindVenue(db, if lookup == ByCallerFields then p else KeyOf(FallbackRow(db, p)), faults.lookup).None? && faults.insert
  {
    var row := FallbackRow(db, p);
    var q := if lookup == ByCallerFields then p else KeyOf(row);
    var r := FindOrInsert(db, q, row, faults);
    assert r.1.Some? && r.0 == db && lookup == ByInsertedFields ==> RowMatches(r.1.value, KeyOf(row));
    r
  }

  // ---------------------------------------------------------------------
  // createVenueFromGoogleMaps
  // ---------------------------------------------------------------------

  /** The row built from the top geocoding result: the caller's truthy fields
      first, then the geocoder's, then "Unknown" for the country. */
  function MergedRow(db: Venues, p: VenueParams, top: GeoResult, comps: seq<AddressComponent>): (v: Venue)
    ensures v.id == |db| && Normal(v) && AgreesWith(v, p)
    ensures v.latitude == Some(top.lat) && v.longitude == Some(top.lng)
    ensures v.googlePlaceId == top.placeId && v.googleAddress == top.formattedAddress
    ensures !Truthy(p.city) ==> v.city == ExtractCityTs(comps)
    ensures !Truthy(p.state) ==> v.state == ExtractStateTs(comps)
    ensures !Truthy(p.country) ==> v.country == ExtractCountryTs(comps)
  {
    var gmapsCountry := ExtractCountryTs(comps);
    Venue(|db|, p.name,
          OrElse(p.city, ExtractCityTs(comps)),
          OrElse(p.state, ExtractStateTs(comps)),
          if Truthy(p.country) then p.country.value else if gmapsCountry != "" then gmapsCountry else "Unknown",
          Some(top.lat), Some(top.lng), top.placeId, top.formattedAddress)
  }

  /** Whether the geocoder gave a top result whose components can be read;
      when it did not, `createVenueFromGoogleMaps` falls back to a venue
      without geocode data (no results, a rejection, or `address_components`
      missing so that the extractors throw inside the `try`). */
  predicate Geocoded(geo: GeoOutcome) {
    geo.Results? && |geo.results| > 0 && geo.results[0].components.Some?
  }

  /** `createVenueFromGoogleMaps`. */
  function CreateVenueFromGoogleMaps(db: Venues, p: VenueParams, geo: GeoOutcome, faults: Faults, lookup: FallbackLookup)
    : (r: (Venues, Option<Venue>))
    ensures r.0 == db || (r.1.Some? && r.0 == db + [r.1.value])
    ensures r.1.Some? ==> r.1.value in r.0 && AgreesWith(r.1.value, p)
    ensures !Geocoded(geo) ==> r == CreateVenueWithoutGeocode(db, p, faults, lookup)
    ensures Geocoded(geo) && r.0 != db ==>
              r.1.value == MergedRow(db, p, geo.results[0], geo.results[0].components.value)
              && FindVenue(db, KeyOf(r.1.value), faults.lookup).None?
    ensures Geocoded(geo) ==>
              var row := MergedRow(db, p, geo.results[0], geo.results[0].components.value);
              (r.1.None? <==> faults.insert && r.0 == db && FindVenue(db, KeyOf(row), faults.lookup).None?)
  {
    if !Geocoded(geo) then CreateVenueWithoutGeocode(db, p, faults, lookup)
    else
      var top := geo.results[0];
      var row := MergedRow(db, p, top, top.components.value);
      var r := FindOrInsert(db, KeyOf(row), row, faults);
      assert r.1.Some? && r.0 == db ==> RowMatches(r.1.value, KeyOf(row));
      r
  }

  /** Every venue this code inserts is found again by its own key. */
  lemma CreatedRowsAreNormal(db: Venues, p: VenueParams, geo: GeoOutcome, faults: Faults, lookup: FallbackLookup)
    ensures var r := CreateVenueFromGoogleMaps(db, p, geo, faults, lookup);
            r.0 != db ==> r.1.value.id == |db| && Normal(r.1.value)
  {
  }

  /** A row `createVenueFromGoogleMaps` inserts has coordinates exactly when
      the geocoder gave a usable top result. */
  lemma CreatedRowCoordinates(db: Venues, p: VenueParams, geo: GeoOutcome, faults: Faults, lookup: FallbackLookup)
    ensures var r := CreateVenueFromGoogleMaps(db, p, geo, faults, lookup);
            r.0 != db ==> (Geocoded(geo) <==> r.1.value.latitude.Some?)
  {
  }

  // ---------------------------------------------------------------------
  // getOrCreateVenue and getOrCreateVenueWithStatus
  // ---------------------------------------------------------------------

  /** "USA venues require name, city, state, and country". */
  predicate IncompleteUsa(p: VenueParams) {
    p.country == Some("USA") && (p.name == "" || !Truthy(p.city) || !Truthy(p.state))
  }

  /** `getOrCreateVenue`: the venue's id, or `null`. */
  function GetOrCreateVenue(db: Venues, p: VenueParams, geo: GeoOutcome, faults: Faults, lookup: FallbackLookup)
    : (r: (Venues, Option<nat>))
    ensures IncompleteUsa(p) || p.name == "" ==> r == (db, None)
    ensures db <= r.0 && |r.0| <= |db| + 1
    ensures r.1.None? ==> r.0 == db
    ensures Positions(db) && r.1.Some? ==> Positions(r.0) && r.1.value < |r.0| && AgreesWith(r.0[r.1.value], p)
    ensures FindVenue(db, p, faults.lookup).Some? && !IncompleteUsa(p) && p.name != "" ==>
              r == (db, Some(FindVenue(db, p, faults.lookup).value.id))
  {
    if IncompleteUsa(p) then (db, None)
    else if p.name == "" then (db, None)
    else
      match FindVenue(db, p, faults.lookup)
      case Some(v) =>
        PositionOf(db, v);
        (db, Some(v.id))
      case None =>
        var (db1, created) := CreateVenueFromGoogleMaps(db, p, geo, faults, lookup);
        CreatedRowsAreNormal(db, p, geo, faults, lookup);
        if created.Some? then
          PositionOf(db1, created.value);
          (db1, Some(created.value.id))
        else (db1, None)
  }

  /** In a table whose ids are positions, a row's id indexes it. */
  lemma PositionOf(db: Venues, v: Venue)
    ensures Positions(db) && v in db ==> v.id < |db| && db[v.id] == v
  {
  }

  datatype VenueStatus = Existing | CreatedWithGeocode | CreatedWithoutGeocode | Failed

  /** `VenueResult`: the id, the status and the row. */
  datatype VenueResult = VenueResult(venueId: Option<nat>, status: VenueStatus, venue: Option<Venue>)

  /** `getOrCreateVenueWithStatus`. `geo` is the answer of its own geocoder
      call and `again` that of the call inside `createVenueFromGoogleMaps`.
      A rejection of the first call is caught and reported as `failed`,
      without the fallback `getOrCreateVenue` takes. */
  function GetOrCreateVenueWithStatus(db: Venues, p: VenueParams, geo: GeoOutcome, again: GeoOutcome,
                                      faults: Faults, lookup: FallbackLookup)
    : (r: (Venues, VenueResult))
    ensures r.1.venueId.None? <==> r.1.status == Failed
    ensures r.1.venue.Some? <==> r.1.venueId.Some?
    ensures r.1.venue.Some? ==> r.1.venueId == Some(r.1.venue.value.id) && r.1.venue.value in r.0
                                && AgreesWith(r.1.venue.value, p)
    ensures db <= r.0 && |r.0| <= |db| + 1
    ensures r.1.status == Failed || r.1.status == Existing ==> r.0 == db
    ensures IncompleteUsa(p) || p.name == "" ==> r == (db, VenueResult(None, Failed, None))
    ensures r.1.status == Existing <==> !IncompleteUsa(p) && p.name != "" && FindVenue(db, p, faults.lookup).Some?
    ensures r.1.status == CreatedWithGeocode ==> geo.Results? && |geo.results| > 0
    ensures r.1.status == CreatedWithGeocode && r.0 != db ==>
              (Geocoded(again) <==> r.1.venue.value.latitude.Some?)
    ensures geo.Throws? && r.1.status != Existing ==> r.1.status == Failed
    ensures Positions(db) ==> Positions(r.0)
    ensures Positions(db) && r.1.venue.Some? ==>
              r.1.venue.value.id < |r.0| && r.0[r.1.venue.value.id] == r.1.venue.value
  {
    if IncompleteUsa(p) || p.name == "" then (db, VenueResult(None, Failed, None))
    else
      match FindVenue(db, p, faults.lookup)
      case Some(v) =>
        PositionOf(db, v);
        (db, VenueResult(Some(v.id), Existing, Some(v)))
      case None =>
        match geo
        case Throws => (db, VenueResult(None, Failed, None))
        case Results(results) => CreateWithStatus(db, p, results, again, faults, lookup)
  }

  /** The `try` of `getOrCreateVenueWithStatus` once the first geocoder call
      answered with `results`: a geocoded venue when there are results and
      `createVenueFromGoogleMaps` returns one, otherwise a venue without
      coordinates. */
  function CreateWithStatus(db: Venues, p: VenueParams, results: seq<GeoResult>, again: GeoOutcome,
                            faults: Faults, lookup: FallbackLookup)
    : (r: (Venues, VenueResult))
    ensures r.1.venueId.None? <==> r.1.status == Failed
    ensures r.1.venue.Some? <==> r.1.venueId.Some?
    ensures r.1.venue.Some? ==> r.1.venueId == Some(r.1.venue.value.id) && r.1.venue.value in r.0
                                && AgreesWith(r.1.venue.value, p)
    ensures db <= r.0 && |r.0| <= |db| + 1
    ensures r.1.status == Failed ==> r.0 == db
    ensures r.1.status != Existing
    ensures r.1.status == CreatedWithGeocode ==> |results| > 0
    ensures r.1.status == CreatedWithGeocode && r.0 != db ==>
              (Geocoded(again) <==> r.1.venue.value.latitude.Some?)
    ensures Positions(db) ==> Positions(r.0)
    ensures Positions(db) && r.1.venue.Some? ==>
              r.1.venue.value.id < |r.0| && r.0[r.1.venue.value.id] == r.1.venue.value
  {
    var (db1, newVenue) := if |results| > 0 then CreateVenueFromGoogleMaps(db, p, again, faults, lookup) else (db, None);
    CreatedRowsAreNormal(db, p, again, faults, lookup);
    CreatedRowCoordinates(db, p, again, faults, lookup);
    if newVenue.Some? then
      PositionOf(db, newVenue.value);
      (db1, VenueResult(Some(newVenue.value.id), CreatedWithGeocode, newVenue))
    else
      var (db2, fallback) := CreateVenueWithoutGeocode(db1, p, faults, lookup);
      if fallback.Some? then
        PositionOf(db1, fallback.value);
        (db2, VenueResult(Some(fallback.value.id), CreatedWithoutGeocode, fallback))
      else (db2, VenueResult(None, Failed, None))
  }

  /** When the geocoder answers the same both times and inserts do not fail,
      both entry points leave the same table and return the same id. */
  lemma WithStatusAgreesWithPlain(db: Venues, p: VenueParams, geo: GeoOutcome, faults: Faults, lookup: FallbackLookup)
    requires geo.Results? && !faults.insert
    ensures GetOrCreateVenueWithStatus(db, p, geo, geo, faults, lookup).0 == GetOrCreateVenue(db, p, geo, faults, lookup).0
    ensures GetOrCreateVenueWithStatus(db, p, geo, geo, faults, lookup).1.venueId == GetOrCreateVenue(db, p, geo, faults, lookup).1
  {
  }

  /** When the geocoder rejects (no API key), `getOrCreateVenue` still creates
      a venue without coordinates, while `getOrCreateVenueWithStatus` fails. */
  lemma RejectionSplitsEntryPoints(db: Venues, p: VenueParams, faults: Faults, lookup: FallbackLookup)
    requires !IncompleteUsa(p) && p.name != "" && FindVenue(db, p, faults.lookup).None? && !faults.insert
    ensures forall again :: GetOrCreateVenueWithStatus(db, p, Throws, again, faults, lookup) == (db, VenueResult(None, Failed, None))
    ensures GetOrCreateVenue(db, p, Throws, faults, lookup).1.Some?
  {
  }

  /** When the first geocoder call finds results but the second finds none,
      `createVenueFromGoogleMaps` stores a venue without coordinates, and the
      answer still says `created_with_geocode`. */
  lemma GeocodeStatusWithoutCoordinates(db: Venues, p: VenueParams, results: seq<GeoResult>, lookup: FallbackLookup)
    requires !IncompleteUsa(p) && p.name != "" && |results| > 0
    requires FindVenue(db, p, false).None? && FindVenue(db, KeyOf(FallbackRow(db, p)), false).None?
    ensures var r := GetOrCreateVenueWithStatus(db, p, Results(results), Results([]), NoFaults, lookup);
            r.1.status == CreatedWithGeocode && r.0 == db + [FallbackRow(db, p)]
            && r.1.venue == Some(FallbackRow(db, p)) && r.1.venue.value.latitude.None?
  {
    var row := FallbackRow(db, p);
    assert FindVenue(db, if lookup == ByCallerFields then p else KeyOf(row), false).None?;
  }

  // ---------------------------------------------------------------------
  // The fallback lookup: as written, and re-checked
  // ---------------------------------------------------------------------

  /** As written, a venue given without a country is never found again:
      `findVenue` filters on `country IS NULL` while the row was stored with
      "Unknown". Without geocode data, every call inserts another copy. */
  lemma MissingCountryDuplicates(db: Venues, p: VenueParams, geo: GeoOutcome)
    requires p.name != "" && !Truthy(p.country) && !Geocoded(geo)
    ensures var (db1, id1) := GetOrCreateVenue(db, p, geo, NoFaults, ByCallerFields);
            var (db2, id2) := GetOrCreateVenue(db1, p, geo, NoFaults, ByCallerFields);
            |db2| == |db| + 2 && SameKey(db2[|db|], db2[|db| + 1])
            && id1 == Some(|db|) && id2 == Some(|db| + 1) && !Unique(db2)
  {
    var (db1, id1) := GetOrCreateVenue(db, p, geo, NoFaults, ByCallerFields);
    var (db2, id2) := GetOrCreateVenue(db1, p, geo, NoFaults, ByCallerFields);
    assert db1 == db + [FallbackRow(db, p)];
    assert db2 == db1 + [FallbackRow(db1, p)];
    assert SameKey(db2[|db|], db2[|db| + 1]);
  }

  /** Re-checked by the values it inserts, get-or-create keeps the table free
      of duplicate venues and ids at their positions. */
  lemma RecheckKeepsUnique(db: Venues, p: VenueParams, geo: GeoOutcome, faults: Faults)
    requires Unique(db) && Positions(db) && !faults.lookup
    ensures Unique(GetOrCreateVenue(db, p, geo, faults, ByInsertedFields).0)
    ensures Positions(GetOrCreateVenue(db, p, geo, faults, ByInsertedFields).0)
  {
    var r := CreateVenueFromGoogleMaps(db, p, geo, faults, ByInsertedFields);
    CreatedRowsAreNormal(db, p, geo, faults, ByInsertedFields);
    if r.0 != db {
      InsertAfterMiss(db, r.1.value);
    }
  }

  /** Re-checked by the values it inserts, get-or-create is idempotent: a
      second call with the same venue and the same geocoder answer returns the
      same id and inserts nothing. */
  lemma RecheckIdempotent(db: Venues, p: VenueParams, geo: GeoOutcome)
    requires Unique(db) && Positions(db)
    requires GetOrCreateVenue(db, p, geo, NoFaults, ByInsertedFields).1.Some?
    ensures var (db1, id1) := GetOrCreateVenue(db, p, geo, NoFaults, ByInsertedFields);
            GetOrCreateVenue(db1, p, geo, NoFaults, ByInsertedFields) == (db1, id1)
  {
    var (db1, id1) := GetOrCreateVenue(db, p, geo, NoFaults, ByInsertedFields);
    if db1 != db {
      RecheckKeepsUnique(db, p, geo, NoFaults);
      var created := CreateVenueFromGoogleMaps(db, p, geo, NoFaults, ByInsertedFields);
      CreatedRowsAreNormal(db, p, geo, NoFaults, ByInsertedFields);
      var row := created.1.value;
      assert db1 == db + [row] && id1 == Some(|db|);
      MissMeansNoMatch(db, p);
      MatchesAppend(db, row, p);
      if !RowMatches(row, p) {
        assert FindVenue(db1, p, false).None?;
        SecondLookupFindsRow(db, p, geo, row);
      }
    }
  }

  /** On the second call, the re-check finds the row the first call inserted. */
  lemma SecondLookupFindsRow(db: Venues, p: VenueParams, geo: GeoOutcome, row: Venue)
    requires Unique(db) && Positions(db)
    requires CreateVenueFromGoogleMaps(db, p, geo, NoFaults, ByInsertedFields) == (db + [row], Some(row))
    requires Normal(row) && row.id == |db|
    ensures CreateVenueFromGoogleMaps(db + [row], p, geo, NoFaults, ByInsertedFields) == (db + [row], Some(row))
  {
    var db1 := db + [row];
    NormalMatchesOwnKey(row);
    MissMeansNoMatch(db, KeyOf(row));
    MatchesAppend(db, row, KeyOf(row));
    assert VenueMatches(db1, KeyOf(row)) == [row];
    if Geocoded(geo) {
      var top := geo.results[0];
      assert KeyOf(MergedRow(db1, p, top, top.components.value)) == KeyOf(row);
    } else {
      assert KeyOf(FallbackRow(db1, p)) == KeyOf(row);
    }
  }
}
