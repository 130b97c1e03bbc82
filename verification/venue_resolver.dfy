/** `services/agent/app/services/venue_resolver.py`: the Python venue
    get-or-create, on the same `venues` table as `Venues`. */
module VenueResolver {
  import opened Wrappers
  import opened Text
  import opened Db
  import opened GoogleMaps
  import opened Venues

  /** `find_venue`: no lookup without a name; `maybe_single()` raises on a
      failed query or on several matching rows. */
  function FindVenuePy(db: Venues, q: VenueParams, fault: bool): (r: Result<Option<Venue>, DbError>)
    ensures q.name == "" ==> r == Ok(None)
    ensures r.Err? <==> q.name != "" && (fault || |VenueMatches(db, q)| > 1)
    ensures r.Ok? && r.value.Some? ==> r.value.value in db && RowMatches(r.value.value, q)
    ensures q.name != "" && !fault && |VenueMatches(db, q)| == 1 ==> r.Ok? && r.value.Some?
  {
    if q.name == "" then Ok(None)
    else MaybeSingle(VenueMatches(db, q), fault)
  }

  /** The insert built when the geocoder found nothing: the caller's city and
      state as given, "Unknown" for a missing country, no coordinates. */
  function PlainRowPy(db: Venues, p: VenueParams): (v: Venue)
    ensures v.id == |db| && AgreesWith(v, p) && v.city == p.city && v.state == p.state
    ensures v.latitude.None? && v.googlePlaceId.None?
    ensures !Truthy(p.country) ==> v.country == "Unknown"
  {
    Venue(|db|, p.name, p.city, p.state, if Truthy(p.country) then p.country.value else "Unknown",
          None, None, None, None)
  }

  /** The insert updated from the top result: the caller's truthy fields win,
      the geocoder's fill the rest. No "Unknown" here: `extract_country`
      already defaults to it. */
  function MergedRowPy(db: Venues, p: VenueParams, top: GeoResult): (v: Venue)
    ensures v.id == |db| && AgreesWith(v, p)
    ensures v.latitude == Some(top.lat) && v.longitude == Some(top.lng)
    ensures v.googlePlaceId == Some(PlaceIdPy(top)) && v.googleAddress == Some(FormattedAddressPy(top))
    ensures !Truthy(p.city) ==> v.city == ExtractCityPy(ComponentsPy(top))
    ensures !Truthy(p.country) ==> v.country == ExtractCountryPy(ComponentsPy(top))
  {
    var comps := ComponentsPy(top);
    Venue(|db|, p.name,
          if Truthy(p.city) then p.city else ExtractCityPy(comps),
          if Truthy(p.state) then p.state else ExtractStatePy(comps),
          if Truthy(p.country) then p.country.value else ExtractCountryPy(comps),
          Some(top.lat), Some(top.lng), Some(PlaceIdPy(top)), Some(FormattedAddressPy(top)))
  }

  /** The re-check after geocoding looks the venue up by the values about to
      be inserted, empty ones passed as `None`. */
  function RecheckKey(row: Venue): VenueParams {
    VenueParams(row.name, OrNull(row.city), OrNull(row.state), OrNull(Some(row.country)))
  }

  /** The re-check matches exactly the rows the stored key would. */
  lemma RecheckKeyMatchesKey(row: Venue, v: Venue)
    ensures RowMatches(v, RecheckKey(row)) <==> RowMatches(v, KeyOf(row))
  {
  }

  /** `get_or_create_venue`: the venue id, or `None`. The first lookup sits
      outside the `try`, so its errors propagate; everything after it
      (geocoding, the re-check, the insert) turns errors into `None`. */
  function GetOrCreateVenuePy(db: Venues, p: VenueParams, geo: Result<seq<GeoResult>, PyGeoError>, faults: Faults)
    : (r: Result<(Venues, Option<nat>), DbError>)
    ensures p.name == "" ==> r == Ok((db, None))
    ensures r.Err? <==> p.name != "" && (faults.lookup || |VenueMatches(db, p)| > 1)
    ensures r.Ok? ==> db <= r.value.0 && |r.value.0| <= |db| + 1
    ensures r.Ok? && r.value.1.None? ==> r.value.0 == db
    ensures r.Ok? && Positions(db) && r.value.1.Some? ==>
              Positions(r.value.0) && r.value.1.value < |r.value.0| && AgreesWith(r.value.0[r.value.1.value], p)
    ensures r.Ok? && |r.value.0| == |db| + 1 ==>
              var row := r.value.0[|db|];
              row.id == |db| && |VenueMatches(db, KeyOf(row))| == 0
    ensures geo.Err? && FindVenuePy(db, p, faults.lookup) == Ok(None) ==> r == Ok((db, None))
    ensures p.name != "" && FindVenuePy(db, p, faults.lookup).Ok? && FindVenuePy(db, p, faults.lookup).value.Some? ==>
              r == Ok((db, Some(FindVenuePy(db, p, faults.lookup).value.value.id)))
    ensures p.name != "" && Unique(db) && !faults.lookup && !faults.insert && geo.Ok? ==> r.Ok? && r.value.1.Some?
  {
    if p.name == "" then Ok((db, None))
    else
      assert Unique(db) ==> |VenueMatches(db, p)| <= 1 by {
        if Unique(db) { AtMostOneMatch(db, p); }
      }
      match FindVenuePy(db, p, faults.lookup)
      case Err(e) => Err(e)
      case Ok(Some(v)) =>
        PositionOf(db, v);
        Ok((db, Some(v.id)))
      case Ok(None) =>
        match geo
        case Err(_) => Ok((db, None))
        case Ok(results) => Ok(CreateVenuePy(db, p, results, faults))
  }

  /** The row `get_or_create_venue` inserts: merged with the top geocoding
      result when there is one, the caller's fields alone otherwise. */
  function RowToInsertPy(db: Venues, p: VenueParams, results: seq<GeoResult>): (v: Venue)
    ensures v.id == |db| && AgreesWith(v, p)
  {
    if |results| > 0 then MergedRowPy(db, p, results[0]) else PlainRowPy(db, p)
  }

  /** What the creation step promises about its answer `r`: the table grows
      by at most the one new row, whose key was absent; no id means no
      change; an id names a stored row agreeing with the caller. */
  predicate CreationSound(db: Venues, p: VenueParams, r: (Venues, Option<nat>)) {
    && db <= r.0 && |r.0| <= |db| + 1
    && (r.1.None? ==> r.0 == db)
    && (Positions(db) && r.1.Some? ==>
          Positions(r.0) && r.1.value < |r.0| && AgreesWith(r.0[r.1.value], p))
    && (|r.0| == |db| + 1 ==> r.0[|db|].id == |db| && |VenueMatches(db, KeyOf(r.0[|db|]))| == 0)
  }

  /** Giving up without an id leaves the table as it was. */
  lemma NoChangeSound(db: Venues, p: VenueParams)
    ensures CreationSound(db, p, (db, None))
  {
  }

  /** A row the re-check finds agrees with the caller, since the row about
      to be inserted does. */
  lemma RecheckHitSound(db: Venues, p: VenueParams, row: Venue, v: Venue)
    requires AgreesWith(row, p) && v in db && RowMatches(v, RecheckKey(row))
    ensures CreationSound(db, p, (db, Some(v.id)))
  {
    PositionOf(db, v);
  }

  /** A row the re-check missed matches no stored row by its own key, and
      appending it at its own position keeps ids positional. */
  lemma InsertAfterRecheck(db: Venues, p: VenueParams, row: Venue, fault: bool)
    requires row.name != "" && row.id == |db| && AgreesWith(row, p)
    requires FindVenuePy(db, RecheckKey(row), fault) == Ok(None)
    ensures CreationSound(db, p, (db + [row], Some(|db|)))
  {
    RecheckMisses(db, row);
    assert (db + [row])[|db|] == row;
  }

  /** The part of `get_or_create_venue` after the lookup missed: build the
      row, look it up again by its own fields, and insert it when that finds
      nothing. A failing re-check or insert is caught and gives None. */
  function CreateVenuePy(db: Venues, p: VenueParams, results: seq<GeoResult>, faults: Faults)
    : (r: (Venues, Option<nat>))
    requires p.name != ""
    ensures CreationSound(db, p, r)
    ensures var found := FindVenuePy(db, RecheckKey(RowToInsertPy(db, p, results)), faults.lookup);
            found.Ok? && found.value.Some? ==> r == (db, Some(found.value.value.id))
    ensures var row := RowToInsertPy(db, p, results);
            FindVenuePy(db, RecheckKey(row), faults.lookup) == Ok(None) && !faults.insert ==>
              r == (db + [row], Some(|db|))
    ensures Unique(db) && !faults.lookup && !faults.insert ==> r.1.Some?
  {
    var row := RowToInsertPy(db, p, results);
    var found := FindVenuePy(db, RecheckKey(row), faults.lookup);
    assert Unique(db) ==> |VenueMatches(db, RecheckKey(row))| <= 1 by {
      if Unique(db) { AtMostOneMatch(db, RecheckKey(row)); }
    }
    if found.Err? then
      NoChangeSound(db, p);
      (db, None)
    else if found.value.Some? then
      RecheckHitSound(db, p, row, found.value.value);
      (db, Some(found.value.value.id))
    else if faults.insert then
      NoChangeSound(db, p);
      (db, None)
    else
      InsertAfterRecheck(db, p, row, faults.lookup);
      (db + [row], Some(|db|))
  }

  /** The re-check selects the same rows as the stored key. */
  lemma RecheckSelectsKey(db: Venues, row: Venue)
    ensures VenueMatches(db, RecheckKey(row)) == VenueMatches(db, KeyOf(row))
  {
    forall v | v in db ensures RowMatches(v, RecheckKey(row)) == RowMatches(v, KeyOf(row)) {
      RecheckKeyMatchesKey(row, v);
    }
    SameFilterSameMatches(db, RecheckKey(row), KeyOf(row));
  }

  /** A re-check that found nothing, without a failure, matched no row. */
  lemma RecheckMisses(db: Venues, row: Venue)
    requires row.name != "" && FindVenuePy(db, RecheckKey(row), false) == Ok(None)
    ensures |VenueMatches(db, KeyOf(row))| == 0
  {
    RecheckSelectsKey(db, row);
  }

  /** An insert whose fields are all null or non-empty keeps the table free of
      duplicate venues, as long as the lookups do not fail. */
  lemma PyInsertKeepsUnique(db: Venues, p: VenueParams, geo: Result<seq<GeoResult>, PyGeoError>, faults: Faults)
    requires Unique(db) && Positions(db) && !faults.lookup
    requires GetOrCreateVenuePy(db, p, geo, faults).Ok?
    ensures var db1 := GetOrCreateVenuePy(db, p, geo, faults).value.0;
            |db1| == |db| + 1 && Normal(db1[|db|]) ==> Unique(db1) && Positions(db1)
  {
    var db1 := GetOrCreateVenuePy(db, p, geo, faults).value.0;
    if |db1| == |db| + 1 && Normal(db1[|db|]) {
      var row := db1[|db|];
      assert db1 == db + [row];
      NormalMatchesOwnKey(row);
      assert FindVenue(db, KeyOf(row), false).None?;
      InsertAfterMiss(db, row);
    }
  }

  /** With the same non-empty geocoding answer, non-empty component names, a
      place id and an address, and no failures, the Python resolver and the
      TypeScript `getOrCreateVenue` leave the same table and return the same
      venue id. Without results they agree once the TypeScript fallback
      re-checks by the values it inserts. */
  lemma VenueResolversAgree(db: Venues, p: VenueParams, results: seq<GeoResult>)
    requires Unique(db) && p.name != "" && !IncompleteUsa(p)
    requires p.city.None? || Truthy(p.city)
    requires p.state.None? || Truthy(p.state)
    requires |results| > 0 ==>
               var top := results[0];
               top.components.Some? && top.placeId.Some? && top.formattedAddress.Some?
               && forall i :: 0 <= i < |top.components.value| ==> Truthy(top.components.value[i].longName)
    ensures GetOrCreateVenuePy(db, p, Ok(results), NoFaults)
         == Ok(GetOrCreateVenue(db, p, Results(results), NoFaults, ByInsertedFields))
  {
    AtMostOneMatch(db, p);
    if |results| > 0 {
      AgreeGeocoded(db, p, results);
    } else {
      AgreeWithoutResults(db, p);
    }
  }

  lemma AgreeGeocoded(db: Venues, p: VenueParams, results: seq<GeoResult>)
    requires Unique(db) && p.name != "" && !IncompleteUsa(p) && |VenueMatches(db, p)| <= 1
    requires |results| > 0
    requires var top := results[0];
             top.components.Some? && top.placeId.Some? && top.formattedAddress.Some?
             && forall i :: 0 <= i < |top.components.value| ==> Truthy(top.components.value[i].longName)
    ensures GetOrCreateVenuePy(db, p, Ok(results), NoFaults)
         == Ok(GetOrCreateVenue(db, p, Results(results), NoFaults, ByInsertedFields))
  {
    var top := results[0];
    var comps := top.components.value;
    ExtractorsAgree(comps);
    var row := MergedRowPy(db, p, top);
    assert row == MergedRow(db, p, top, comps);
    if FindVenue(db, p, false).None? {
      assert FindVenuePy(db, p, false) == Ok(None);
      RecheckSelectsKey(db, row);
      AtMostOneMatch(db, KeyOf(row));
      var ts := CreateVenueFromGoogleMaps(db, p, Results(results), NoFaults, ByInsertedFields);
      assert ts == FindOrInsert(db, KeyOf(row), row, NoFaults);
      assert FindVenuePy(db, RecheckKey(row), false) == MaybeSingle(VenueMatches(db, KeyOf(row)), false);
    }
  }

  lemma AgreeWithoutResults(db: Venues, p: VenueParams)
    requires Unique(db) && p.name != "" && !IncompleteUsa(p) && |VenueMatches(db, p)| <= 1
    requires p.city.None? || Truthy(p.city)
    requires p.state.None? || Truthy(p.state)
    ensures GetOrCreateVenuePy(db, p, Ok([]), NoFaults)
         == Ok(GetOrCreateVenue(db, p, Results([]), NoFaults, ByInsertedFields))
  {
    var row := PlainRowPy(db, p);
    assert row == FallbackRow(db, p);
    RecheckSelectsKey(db, row);
    AtMostOneMatch(db, KeyOf(row));
  }

  /** Two filters that accept the same rows select the same rows. */
  lemma {:induction false} SameFilterSameMatches(db: Venues, a: VenueParams, b: VenueParams)
    requires forall v :: v in db ==> RowMatches(v, a) == RowMatches(v, b)
    ensures VenueMatches(db, a) == VenueMatches(db, b)
    decreases |db|
  {
    if |db| > 0 {
      assert db[0] in db;
      assert forall v :: v in db[1..] ==> v in db;
      SameFilterSameMatches(db[1..], a, b);
    }
  }
}
