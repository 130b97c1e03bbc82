/** `app/app/api/shows/upload-with-progress/route.ts`: the upload that
    resolves each show's venue, caches the answer per venue, streams one
    progress event per show and then inserts every show with its venue id.

    The route is modelled twice over its venue step. `AsWritten` passes no
    state to the venue resolver and caches by the text
    "venue|city|country"; `Corrected` passes the show's state and caches by
    the resolver's own parameters. */
module UploadProgress {
  import opened Wrappers
  import opened Text
  import opened Db
  import opened GoogleMaps
  import opened Venues
  import opened Upload

  datatype Route = AsWritten | Corrected

  /** The parameters handed to `getOrCreateVenueWithStatus`; empty fields
      become null. */
  function VenueParamsOf(show: ShowPayload, route: Route): VenueParams
    requires Truthy(show.venue)
  {
    VenueParams(show.venue.value, OrNull(show.city),
                if route == Corrected then OrNull(show.state) else None,
                OrNull(show.country))
  }

  /** `x || ''`. */
  function OrEmpty(o: Option<string>): string {
    if Truthy(o) then o.value else ""
  }

  /** The cache key as written. */
  function CacheKeyText(show: ShowPayload): string
    requires Truthy(show.venue)
  {
    show.venue.value + "|" + OrEmpty(show.city) + "|" + OrEmpty(show.country)
  }

  /** The key a show is cached under: the joined text as written, the
      resolver's parameters in the corrected route. */
  datatype Key = TextKey(text: string) | ParamsKey(params: VenueParams)

  function KeyOf(a: ShowPayload, route: Route): Key
    requires Truthy(a.venue)
  {
    if route == AsWritten then TextKey(CacheKeyText(a)) else ParamsKey(VenueParamsOf(a, Corrected))
  }

  /** Whether two shows share a cache entry. */
  predicate SameCacheKey(a: ShowPayload, b: ShowPayload, route: Route)
    requires Truthy(a.venue) && Truthy(b.venue)
  {
    KeyOf(a, route) == KeyOf(b, route)
  }

  datatype CacheEntry = CacheEntry(show: ShowPayload, result: VenueResult)

  /** Entries hold shows with a venue, and an id exactly when the resolver
      did not fail, as `getOrCreateVenueWithStatus` answers. */
  predicate CacheWellFormed(cache: seq<CacheEntry>) {
    forall i :: 0 <= i < |cache| ==>
      Truthy(cache[i].show.venue) && (cache[i].result.venueId.None? <==> cache[i].result.status == Failed)
  }

  /** `venueCache.get(key)`: the entry stored for the show's key, if any. */
  function CacheLookup(cache: seq<CacheEntry>, show: ShowPayload, route: Route): (r: Option<VenueResult>)
    requires Truthy(show.venue) && CacheWellFormed(cache)
    ensures r.Some? ==> (r.value.venueId.None? <==> r.value.status == Failed)
  {
    if |cache| == 0 then None
    else if SameCacheKey(cache[0].show, show, route) then Some(cache[0].result)
    else CacheLookup(cache[1..], show, route)
  }

  /** A lookup misses exactly when no entry has the show's key, and a hit is
      the answer of an entry with that key. */
  lemma {:induction false} CacheLookupMeaning(cache: seq<CacheEntry>, show: ShowPayload, route: Route)
    requires Truthy(show.venue) && CacheWellFormed(cache)
    ensures CacheLookup(cache, show, route).None? <==>
              forall i :: 0 <= i < |cache| ==> !SameCacheKey(cache[i].show, show, route)
    ensures CacheLookup(cache, show, route).Some? ==>
              exists i :: 0 <= i < |cache| && SameCacheKey(cache[i].show, show, route)
                          && cache[i].result == CacheLookup(cache, show, route).value
  {
    if |cache| > 0 && !SameCacheKey(cache[0].show, show, route) {
      CacheLookupMeaning(cache[1..], show, route);
      var r := CacheLookup(cache[1..], show, route);
      if r.Some? {
        var i :| 0 <= i < |cache[1..]| && SameCacheKey(cache[1..][i].show, show, route) && cache[1..][i].result == r.value;
        assert cache[i + 1] == cache[1..][i];
      } else {
        assert forall i :: 1 <= i < |cache| ==> cache[i] == cache[1..][i - 1];
      }
    }
  }

  /** A show's venue status in its progress event: `none` without a venue. */
  datatype ProgressStatus = NoVenue | Resolved(status: VenueStatus)

  datatype Resolution = Resolution(venueId: Option<nat>, status: ProgressStatus)

  /** The id and status a resolver answer gives a show. */
  function AsResolution(res: VenueResult): Resolution {
    Resolution(res.venueId, Resolved(res.status))
  }

  /** The venue resolver the loop calls on a cache miss: from the venue
      table and the parameters to the new table and the answer. */
  type Resolver = (Venues, VenueParams) -> (Venues, VenueResult)

  /** What the loop relies on of its resolver, as `getOrCreateVenueWithStatus`
      promises: rows are only appended, ids stay positions, and an id comes
      back exactly when the resolution did not fail. */
  ghost predicate ResolverSound(resolve: Resolver) {
    forall v, p :: v <= resolve(v, p).0 && (Positions(v) ==> Positions(resolve(v, p).0))
                   && (resolve(v, p).1.venueId.None? <==> resolve(v, p).1.status == Failed)
  }

  /** What the corrected route relies on besides: an id that comes back
      names a row of the new table agreeing with the parameters. */
  ghost predicate ResolverAgrees(resolve: Resolver) {
    forall v, p :: Positions(v) && resolve(v, p).1.venueId.Some? ==>
      resolve(v, p).1.venueId.value < |resolve(v, p).0|
      && AgreesWith(resolve(v, p).0[resolve(v, p).1.venueId.value], p)
  }

  /** The resolver the route calls: `getOrCreateVenueWithStatus`, whose two
      geocoder calls both get `geocode`'s answer for the parameters. */
  function RouteResolver(geocode: VenueParams -> GeoOutcome, faults: Faults): (r: Resolver)
    ensures ResolverSound(r) && ResolverAgrees(r)
  {
    var r: Resolver := (v, p) => GetOrCreateVenueWithStatus(v, p, geocode(p), geocode(p), faults, ByInsertedFields);
    assert ResolverSound(r) by {
      forall v, p ensures v <= r(v, p).0 && (Positions(v) ==> Positions(r(v, p).0))
                          && (r(v, p).1.venueId.None? <==> r(v, p).1.status == Failed)
      {
        assert r(v, p) == GetOrCreateVenueWithStatus(v, p, geocode(p), geocode(p), faults, ByInsertedFields);
      }
    }
    assert ResolverAgrees(r) by {
      forall v, p | Positions(v) && r(v, p).1.venueId.Some?
        ensures r(v, p).1.venueId.value < |r(v, p).0| && AgreesWith(r(v, p).0[r(v, p).1.venueId.value], p)
      {
        assert r(v, p) == GetOrCreateVenueWithStatus(v, p, geocode(p), geocode(p), faults, ByInsertedFields);
      }
    }
    r
  }

  /** One turn of the loop: a show without a venue gets none, a cached key
      reuses the cached answer, and any other show calls the resolver and
      caches its answer. */
  function ResolveOne(show: ShowPayload, venues: Venues, cache: seq<CacheEntry>,
                      resolve: Resolver, route: Route)
    : (r: (Venues, Resolution, seq<CacheEntry>))
    requires CacheWellFormed(cache) && ResolverSound(resolve)
    ensures venues <= r.0 && (Positions(venues) ==> Positions(r.0))
    ensures cache <= r.2 && CacheWellFormed(r.2)
    ensures r.1.status == NoVenue <==> !Truthy(show.venue)
    ensures r.1.venueId.None? <==> r.1.status == NoVenue || r.1.status == Resolved(Failed)
    ensures Truthy(show.venue) && CacheLookup(cache, show, route).Some? ==>
              r == (venues, AsResolution(CacheLookup(cache, show, route).value), cache)
    ensures Truthy(show.venue) && CacheLookup(cache, show, route).None? ==>
              var (v1, res) := resolve(venues, VenueParamsOf(show, route));
              r == (v1, AsResolution(res), cache + [CacheEntry(show, res)])
    ensures Truthy(show.venue) ==>
              CacheLookup(r.2, show, route).Some? && r.1 == AsResolution(CacheLookup(r.2, show, route).value)
  {
    if !Truthy(show.venue) then (venues, Resolution(None, NoVenue), cache)
    else
      match CacheLookup(cache, show, route)
      case Some(hit) => (venues, AsResolution(hit), cache)
      case None =>
        var (v1, res) := resolve(venues, VenueParamsOf(show, route));
        var entry := CacheEntry(show, res);
        CacheLookupAppended(cache, entry, show, route);
        (v1, AsResolution(res), cache + [entry])
  }

  /** The lookup depends on the show only through its key. */
  lemma {:induction false} CacheLookupByKey(cache: seq<CacheEntry>, a: ShowPayload, b: ShowPayload, route: Route)
    requires Truthy(a.venue) && Truthy(b.venue) && CacheWellFormed(cache) && SameCacheKey(a, b, route)
    ensures CacheLookup(cache, a, route) == CacheLookup(cache, b, route)
  {
    if |cache| > 0 {
      assert SameCacheKey(cache[0].show, a, route) == SameCacheKey(cache[0].show, b, route);
      CacheLookupByKey(cache[1..], a, b, route);
    }
  }

  /** A hit stays the same hit when entries are appended to the cache. */
  lemma {:induction false} CacheLookupExtends(cache: seq<CacheEntry>, big: seq<CacheEntry>, show: ShowPayload, route: Route)
    requires Truthy(show.venue) && CacheWellFormed(big) && cache <= big
    requires CacheWellFormed(cache) && CacheLookup(cache, show, route).Some?
    ensures CacheLookup(big, show, route) == CacheLookup(cache, show, route)
  {
    assert big[0] == cache[0];
    if !SameCacheKey(cache[0].show, show, route) {
      assert cache[1..] <= big[1..];
      CacheLookupExtends(cache[1..], big[1..], show, route);
    }
  }

  /** Appending a well-formed entry keeps the cache well formed. */
  lemma CacheAppendWellFormed(cache: seq<CacheEntry>, e: CacheEntry)
    requires CacheWellFormed(cache) && Truthy(e.show.venue)
    requires e.result.venueId.None? <==> e.result.status == Failed
    ensures CacheWellFormed(cache + [e])
  {
    forall i | 0 <= i < |cache| + 1
      ensures Truthy((cache + [e])[i].show.venue)
              && ((cache + [e])[i].result.venueId.None? <==> (cache + [e])[i].result.status == Failed)
    {
      if i < |cache| { assert (cache + [e])[i] == cache[i]; }
    }
  }

  /** An entry appended for a key the cache missed is the one found. */
  lemma {:induction false} CacheLookupAppended(cache: seq<CacheEntry>, e: CacheEntry, show: ShowPayload, route: Route)
    requires e.show == show && Truthy(show.venue) && CacheWellFormed(cache)
    requires e.result.venueId.None? <==> e.result.status == Failed
    requires CacheLookup(cache, show, route).None?
    ensures CacheWellFormed(cache + [e])
    ensures CacheLookup(cache + [e], show, route) == Some(e.result)
  {
    CacheAppendWellFormed(cache, e);
    if |cache| == 0 {
      assert cache + [e] == [e];
    } else {
      assert (cache + [e])[0] == cache[0];
      assert (cache + [e])[1..] == cache[1..] + [e];
      CacheLookupAppended(cache[1..], e, show, route);
    }
  }

  /** The loop over the shows, one turn per show in order. */
  function ResolveVenues(shows: seq<ShowPayload>, venues: Venues, cache: seq<CacheEntry>,
                         resolve: Resolver, route: Route)
    : (r: (Venues, seq<Resolution>))
    requires CacheWellFormed(cache) && ResolverSound(resolve)
    ensures |r.1| == |shows| && venues <= r.0
    ensures Positions(venues) ==> Positions(r.0)
    ensures forall i {:trigger r.1[i]} :: 0 <= i < |shows| ==> (r.1[i].status == NoVenue <==> !Truthy(shows[i].venue))
    ensures forall i :: 0 <= i < |shows| ==>
              (r.1[i].venueId.None? <==> r.1[i].status == NoVenue || r.1[i].status == Resolved(Failed))
    decreases |shows|
  {
    if |shows| == 0 then (venues, [])
    else
      var (v1, res, cache1) := ResolveOne(shows[0], venues, cache, resolve, route);
      var (v2, rest) := ResolveVenues(shows[1..], v1, cache1, resolve, route);
      assert forall i :: 1 <= i < |shows| ==> shows[i] == shows[1..][i - 1];
      (v2, [res] + rest)
  }

  /** The first turn of the loop, as the facts the cache lemmas use. */
  lemma ResolveVenuesCons(shows: seq<ShowPayload>, venues: Venues, cache: seq<CacheEntry>,
                          resolve: Resolver, route: Route)
    returns (v1: Venues, cache1: seq<CacheEntry>, head: Resolution)
    requires CacheWellFormed(cache) && ResolverSound(resolve) && |shows| > 0
    ensures CacheWellFormed(cache1) && cache <= cache1
    ensures ResolveVenues(shows, venues, cache, resolve, route).1[0] == head
    ensures forall k :: 0 < k < |shows| ==>
              ResolveVenues(shows, venues, cache, resolve, route).1[k] == ResolveVenues(shows[1..], v1, cache1, resolve, route).1[k - 1]
    ensures Truthy(shows[0].venue) ==>
              CacheLookup(cache1, shows[0], route).Some? && head == AsResolution(CacheLookup(cache1, shows[0], route).value)
  {
    var one := ResolveOne(shows[0], venues, cache, resolve, route);
    v1, cache1, head := one.0, one.2, one.1;
  }

  /** A show whose key the cache already holds gets the cached answer. */
  lemma {:induction false} CachedShowsReuse(shows: seq<ShowPayload>, venues: Venues, cache: seq<CacheEntry>,
                                            resolve: Resolver, route: Route, j: nat)
    requires CacheWellFormed(cache) && ResolverSound(resolve) && j < |shows| && Truthy(shows[j].venue)
    requires CacheLookup(cache, shows[j], route).Some?
    ensures ResolveVenues(shows, venues, cache, resolve, route).1[j]
         == AsResolution(CacheLookup(cache, shows[j], route).value)
    decreases j
  {
    if j > 0 {
      assert shows[1..][j - 1] == shows[j];
    }
    var v1, cache1, head := ResolveVenuesCons(shows, venues, cache, resolve, route);
    CacheLookupExtends(cache, cache1, shows[j], route);
    if j > 0 {
      CachedShowsReuse(shows[1..], v1, cache1, resolve, route, j - 1);
    }
  }

  /** A later show with the first show's key gets the first show's answer. */
  lemma FirstOfKeyReused(shows: seq<ShowPayload>, venues: Venues, cache: seq<CacheEntry>,
                         resolve: Resolver, route: Route, j: nat)
    requires CacheWellFormed(cache) && ResolverSound(resolve) && 0 < j < |shows|
    requires Truthy(shows[0].venue) && Truthy(shows[j].venue) && SameCacheKey(shows[0], shows[j], route)
    ensures ResolveVenues(shows, venues, cache, resolve, route).1[j]
         == ResolveVenues(shows, venues, cache, resolve, route).1[0]
  {
    assert shows[1..][j - 1] == shows[j];
    var v1, cache1, head := ResolveVenuesCons(shows, venues, cache, resolve, route);
    CacheLookupByKey(cache1, shows[0], shows[j], route);
    CachedShowsReuse(shows[1..], v1, cache1, resolve, route, j - 1);
  }

  /** Shows that share a cache key get the same venue id and status: the
      resolver runs once per key, and later shows reuse its answer. */
  lemma {:induction false} SameKeySameResolution(shows: seq<ShowPayload>, venues: Venues, cache: seq<CacheEntry>,
                                                 resolve: Resolver, route: Route,
                                                 i: nat, j: nat)
    requires CacheWellFormed(cache) && ResolverSound(resolve) && i < j < |shows|
    requires Truthy(shows[i].venue) && Truthy(shows[j].venue) && SameCacheKey(shows[i], shows[j], route)
    ensures ResolveVenues(shows, venues, cache, resolve, route).1[j]
         == ResolveVenues(shows, venues, cache, resolve, route).1[i]
    decreases i
  {
    if i == 0 {
      FirstOfKeyReused(shows, venues, cache, resolve, route, j);
    } else {
      assert shows[1..][j - 1] == shows[j] && shows[1..][i - 1] == shows[i];
      var v1, cache1, head := ResolveVenuesCons(shows, venues, cache, resolve, route);
      SameKeySameResolution(shows[1..], v1, cache1, resolve, route, i - 1, j - 1);
    }
  }

  /** Every cached id names a row that agrees with the cached show. */
  predicate CacheAgrees(cache: seq<CacheEntry>, venues: Venues)
    requires CacheWellFormed(cache)
  {
    forall i :: 0 <= i < |cache| && cache[i].result.venueId.Some? ==>
      cache[i].result.venueId.value < |venues|
      && AgreesWith(venues[cache[i].result.venueId.value], VenueParamsOf(cache[i].show, Corrected))
  }

  /** In the corrected route one turn keeps the cache truthful, and the id
      it gives names a venue agreeing with the show's fields. */
  lemma ResolveOneAgrees(show: ShowPayload, venues: Venues, cache: seq<CacheEntry>, resolve: Resolver)
    requires ResolverSound(resolve) && ResolverAgrees(resolve)
    requires Positions(venues) && CacheWellFormed(cache) && CacheAgrees(cache, venues)
    ensures var r := ResolveOne(show, venues, cache, resolve, Corrected);
            CacheAgrees(r.2, r.0)
            && (r.1.venueId.Some? ==>
                  Truthy(show.venue) && r.1.venueId.value < |r.0|
                  && AgreesWith(r.0[r.1.venueId.value], VenueParamsOf(show, Corrected)))
  {
    var r := ResolveOne(show, venues, cache, resolve, Corrected);
    if Truthy(show.venue) {
      match CacheLookup(cache, show, Corrected)
      case Some(hit) =>
        if hit.venueId.Some? {
          CacheLookupMeaning(cache, show, Corrected);
          var k :| 0 <= k < |cache| && SameCacheKey(cache[k].show, show, Corrected) && cache[k].result == hit;
          assert VenueParamsOf(cache[k].show, Corrected) == VenueParamsOf(show, Corrected);
        }
      case None =>
        var (v1, res) := resolve(venues, VenueParamsOf(show, Corrected));
        assert r == (v1, AsResolution(res), cache + [CacheEntry(show, res)]);
        forall i | 0 <= i < |r.2| && r.2[i].result.venueId.Some?
          ensures r.2[i].result.venueId.value < |r.0|
                  && AgreesWith(r.0[r.2[i].result.venueId.value], VenueParamsOf(r.2[i].show, Corrected))
        {
          if i < |cache| {
            assert r.2[i] == cache[i];
            assert r.0[cache[i].result.venueId.value] == venues[cache[i].result.venueId.value];
          } else {
            assert r.2[i] == CacheEntry(show, res);
          }
        }
    }
  }

  /** In the corrected route every show's venue id names a venue that agrees
      with the show's own venue, city, state and country. */
  lemma {:induction false} CorrectedVenuesAgree(shows: seq<ShowPayload>, venues: Venues, cache: seq<CacheEntry>,
                                                resolve: Resolver)
    requires ResolverSound(resolve) && ResolverAgrees(resolve)
    requires Positions(venues) && CacheWellFormed(cache) && CacheAgrees(cache, venues)
    ensures var r := ResolveVenues(shows, venues, cache, resolve, Corrected);
            forall i :: 0 <= i < |shows| && r.1[i].venueId.Some? ==>
              Truthy(shows[i].venue) && r.1[i].venueId.value < |r.0|
              && AgreesWith(r.0[r.1[i].venueId.value], VenueParamsOf(shows[i], Corrected))
    decreases |shows|
  {
    if |shows| > 0 {
      var (v1, res, cache1) := ResolveOne(shows[0], venues, cache, resolve, Corrected);
      ResolveOneAgrees(shows[0], venues, cache, resolve);
      CorrectedVenuesAgree(shows[1..], v1, cache1, resolve);
      var rest := ResolveVenues(shows[1..], v1, cache1, resolve, Corrected);
      var r := ResolveVenues(shows, venues, cache, resolve, Corrected);
      assert r == (rest.0, [res] + rest.1);
      forall i | 0 <= i < |shows| && r.1[i].venueId.Some?
        ensures Truthy(shows[i].venue) && r.1[i].venueId.value < |r.0|
                && AgreesWith(r.0[r.1[i].venueId.value], VenueParamsOf(shows[i], Corrected))
      {
        if i == 0 {
          assert r.1[0] == res;
          assert rest.0[res.venueId.value] == v1[res.venueId.value];
        } else {
          assert shows[i] == shows[1..][i - 1] && r.1[i] == rest.1[i - 1];
        }
      }
    }
  }

  /** As written, a USA show that misses the cache never gets a venue: the
      state is not passed, and the resolver requires one for the USA. */
  lemma UsaShowFailsAsWritten(show: ShowPayload, venues: Venues, cache: seq<CacheEntry>,
                              geocode: VenueParams -> GeoOutcome, faults: Faults)
    requires Truthy(show.venue) && show.country == Some("USA") && CacheWellFormed(cache)
    requires CacheLookup(cache, show, AsWritten).None?
    ensures ResolveVenues([show], venues, cache, RouteResolver(geocode, faults), AsWritten) == (venues, [Resolution(None, Resolved(Failed))])
  {
    var p := VenueParamsOf(show, AsWritten);
    assert IncompleteUsa(p);
    var res := VenueResult(None, Failed, None);
    assert GetOrCreateVenueWithStatus(venues, p, geocode(p), geocode(p), faults, ByInsertedFields) == (venues, res);
    assert [show][1..] == [];
    assert ResolveVenues([], venues, cache + [CacheEntry(show, res)], RouteResolver(geocode, faults), AsWritten) == (venues, []);
    var shows := [show];
    assert shows[0] == show && Truthy(shows[0].venue);
    assert CacheLookup(cache, shows[0], AsWritten).None?;
    assert ResolveVenues(shows, venues, cache, RouteResolver(geocode, faults), AsWritten)
        == (venues, [Resolution(None, Resolved(Failed))] + []);
    assert [Resolution(None, Resolved(Failed))] + [] == [Resolution(None, Resolved(Failed))];
  }

  /** Corrected, a USA show with a venue, city and state that misses the
      cache gets a venue whenever the store does not fail and the geocoder
      answers. */
  lemma UsaShowResolvesCorrected(show: ShowPayload, venues: Venues, cache: seq<CacheEntry>,
                                 geocode: VenueParams -> GeoOutcome)
    requires Truthy(show.venue) && Truthy(show.city) && Truthy(show.state) && show.country == Some("USA")
    requires CacheWellFormed(cache) && CacheLookup(cache, show, Corrected).None?
    requires geocode(VenueParamsOf(show, Corrected)).Results?
    ensures ResolveVenues([show], venues, cache, RouteResolver(geocode, NoFaults), Corrected).1[0].venueId.Some?
  {
    var p := VenueParamsOf(show, Corrected);
    assert !IncompleteUsa(p);
    var (v1, res) := GetOrCreateVenueWithStatus(venues, p, geocode(p), geocode(p), NoFaults, ByInsertedFields);
    assert res.status != Failed;
    assert [show][1..] == [];
  }

  /** As written, two different venues whose texts join to the same key share
      one cache entry: "a|b" and "a" in the city "b|" both key "a|b||", so
      the second show is stored with the first show's venue. */
  lemma CacheKeyCollision()
    ensures var first := ShowPayload("u", "1-1-24", ["x"], Some("a|b"), None, None, None, NoNotes);
            var second := ShowPayload("u", "1-1-24", ["x"], Some("a"), Some("b|"), None, None, NoNotes);
            var r := ResolveVenues([first, second], [], [], RouteResolver(_ => Results([]), NoFaults), AsWritten);
            r.1[1].venueId == Some(0) && |r.0| == 1
            && !AgreesWith(r.0[0], VenueParamsOf(second, AsWritten))
  {
    var first := ShowPayload("u", "1-1-24", ["x"], Some("a|b"), None, None, None, NoNotes);
    var second := ShowPayload("u", "1-1-24", ["x"], Some("a"), Some("b|"), None, None, NoNotes);
    var geocode: VenueParams -> GeoOutcome := _ => Results([]);
    var resolve := RouteResolver(geocode, NoFaults);
    var shows := [first, second];
    var p := VenueParamsOf(first, AsWritten);
    assert !IncompleteUsa(p);
    var (v1, res) := GetOrCreateVenueWithStatus([], p, Results([]), Results([]), NoFaults, ByInsertedFields);
    assert FindVenue([], p, false).None?;
    assert v1 == [FallbackRow([], p)];
    assert res.venueId == Some(0);
    assert CacheKeyText(first) == CacheKeyText(second);
    assert shows[0] == first && shows[1] == second && shows[1..] == [second];
    assert geocode(p) == Results([]);
    ResolveFresh(shows, [], [], geocode, NoFaults, AsWritten);
    assert [] + [CacheEntry(first, res)] == [CacheEntry(first, res)];
    CachedShowKeepsVenues(second, v1, [CacheEntry(first, res)], resolve, AsWritten);
    FirstOfKeyReused(shows, [], [], resolve, AsWritten, 1);
  }

  /** A single show whose key is cached adds no venue. */
  lemma CachedShowKeepsVenues(show: ShowPayload, venues: Venues, cache: seq<CacheEntry>, resolve: Resolver, route: Route)
    requires CacheWellFormed(cache) && ResolverSound(resolve)
    requires Truthy(show.venue) && CacheLookup(cache, show, route).Some?
    ensures ResolveVenues([show], venues, cache, resolve, route).0 == venues
  {
    assert [show][0] == show && [show][1..] == [];
  }

  /** One step of the loop for a show with a venue whose key is not cached. */
  lemma ResolveFresh(shows: seq<ShowPayload>, venues: Venues, cache: seq<CacheEntry>,
                     geocode: VenueParams -> GeoOutcome, faults: Faults, route: Route)
    requires |shows| > 0 && Truthy(shows[0].venue) && CacheWellFormed(cache)
    requires CacheLookup(cache, shows[0], route).None?
    ensures var p := VenueParamsOf(shows[0], route);
            var (v1, res) := GetOrCreateVenueWithStatus(venues, p, geocode(p), geocode(p), faults, ByInsertedFields);
            var rest := ResolveVenues(shows[1..], v1, cache + [CacheEntry(shows[0], res)], RouteResolver(geocode, faults), route);
            ResolveVenues(shows, venues, cache, RouteResolver(geocode, faults), route)
              == (rest.0, [Resolution(res.venueId, Resolved(res.status))] + rest.1)
  {
  }

  /** What `venue_id` and `notes` the shows are stored with; the venue text
      columns are stored as null. */
  datatype ShowRow = ShowRow(userId: string, date: string, artists: seq<string>, venueId: Option<nat>, notes: Option<string>)

  /** `show.notes || null` for notes the checks let through. */
  function NotesColumn(n: Notes): (r: Option<string>)
    requires !n.NotesNotString?
    ensures r.Some? <==> n.NotesText? && n.text != ""
  {
    if n.NotesText? then OrNull(Some(n.text)) else None
  }

  datatype Event =
    | Progress(current: nat, total: nat, date: string, artists: seq<string>, venue: Option<string>, status: ProgressStatus)
    | Complete(count: nat)
    | StreamError(message: string)

  datatype ProgressResponse = Refused(reason: Rejection) | Stream(events: seq<Event>)

  function ProgressEvents(shows: seq<ShowPayload>, res: seq<Resolution>, total: nat, done: nat): (r: seq<Event>)
    requires |shows| == |res|
    ensures |r| == |shows|
    ensures forall i :: 0 <= i < |shows| ==>
              r[i] == Progress(done + i + 1, total, shows[i].date, shows[i].artists, OrNull(shows[i].venue), res[i].status)
    decreases |shows|
  {
    if |shows| == 0 then []
    else [Progress(done + 1, total, shows[0].date, shows[0].artists, OrNull(shows[0].venue), res[0].status)]
         + ProgressEvents(shows[1..], res[1..], total, done + 1)
  }

  function ShowRows(shows: seq<ShowPayload>, res: seq<Resolution>): (r: seq<ShowRow>)
    requires |shows| == |res| && forall i :: 0 <= i < |shows| ==> !shows[i].notes.NotesNotString?
    ensures |r| == |shows|
    ensures forall i :: 0 <= i < |shows| ==>
              r[i] == ShowRow(shows[i].userId, shows[i].date, shows[i].artists, res[i].venueId, NotesColumn(shows[i].notes))
    decreases |shows|
  {
    if |shows| == 0 then []
    else [ShowRow(shows[0].userId, shows[0].date, shows[0].artists, res[0].venueId, NotesColumn(shows[0].notes))]
         + ShowRows(shows[1..], res[1..])
  }

  /** What the stream sends and stores for the accepted `shows` of `userId`:
      one progress event per show, in order, then the closing event; on a
      successful insert, one row per show after the old ones, with a venue id
      exactly when the venue resolved to one. */
  ghost predicate StreamSound(shows: seq<ShowPayload>, userId: string, table: seq<ShowRow>, insertFails: bool,
                              events: seq<Event>, table1: seq<ShowRow>)
  {
    |events| == |shows| + 1
    && (forall i :: 0 <= i < |shows| ==>
          events[i].Progress? && events[i].current == i + 1 && events[i].total == |shows|
          && events[i].date == shows[i].date && events[i].artists == shows[i].artists
          && (events[i].status == NoVenue <==> !Truthy(shows[i].venue)))
    && (insertFails ==> events[|shows|].StreamError? && table1 == table)
    && (!insertFails ==>
          events[|shows|] == Complete(|shows|) && |table1| == |table| + |shows|
          && table1[..|table|] == table
          && forall i :: |table| <= i < |table1| ==>
               table1[i].userId == userId
               && (table1[i].venueId.Some? <==>
                     events[i - |table|].status.Resolved? && events[i - |table|].status.status != Failed))
  }

  /** What the stream sends and stores once every show has its resolution
      `res`: the events in order, then the closing event and the rows. */
  function EmitStream(shows: seq<ShowPayload>, userId: string, table: seq<ShowRow>, insertFails: bool,
                      res: seq<Resolution>)
    : (r: (seq<Event>, seq<ShowRow>))
    requires |res| == |shows|
    requires forall i :: 0 <= i < |shows| ==> shows[i].userId == userId && !shows[i].notes.NotesNotString?
    requires forall i {:trigger res[i]} :: 0 <= i < |shows| ==> (res[i].status == NoVenue <==> !Truthy(shows[i].venue))
    requires forall i :: 0 <= i < |shows| ==>
               (res[i].venueId.None? <==> res[i].status == NoVenue || res[i].status == Resolved(Failed))
    ensures StreamSound(shows, userId, table, insertFails, r.0, r.1)
  {
    var events := ProgressEvents(shows, res, |shows|, 0);
    if insertFails then
      (events + [StreamError("Failed to save shows to database")], table)
    else
      var rows := ShowRows(shows, res);
      assert (table + rows)[..|table|] == table;
      assert forall i :: |table| <= i < |table| + |rows| ==> (table + rows)[i] == rows[i - |table|];
      (events + [Complete(|rows|)], table + rows)
  }

  /** The stream of an accepted upload: resolve every venue, report each
      show, then insert all rows at once. */
  function StreamShows(shows: seq<ShowPayload>, userId: string, venues: Venues, table: seq<ShowRow>,
                       geocode: VenueParams -> GeoOutcome, faults: Faults, insertFails: bool, route: Route)
    : (r: (seq<Event>, Venues, seq<ShowRow>))
    requires forall i :: 0 <= i < |shows| ==> shows[i].userId == userId && !shows[i].notes.NotesNotString?
    ensures StreamSound(shows, userId, table, insertFails, r.0, r.2)
    ensures venues <= r.1 && (Positions(venues) ==> Positions(r.1))
  {
    var (venues1, res) := ResolveVenues(shows, venues, [], RouteResolver(geocode, faults), route);
    var (events, table1) := EmitStream(shows, userId, table, insertFails, res);
    (events, venues1, table1)
  }

  /** `POST /api/shows/upload-with-progress`: the checks (including the USA
      rule), then the stream. Venues created while streaming stay even when
      the final insert of the shows fails. */
  function HandleUploadWithProgress(user: Option<string>, body: Body, venues: Venues, table: seq<ShowRow>,
                                    geocode: VenueParams -> GeoOutcome, faults: Faults, insertFails: bool, route: Route)
    : (r: (ProgressResponse, Venues, seq<ShowRow>))
    ensures user.None? ==> r.0 == Refused(Unauthorized)
    ensures r.0.Stream? <==> Preflight(user, body).Ok? && Accepted(Preflight(user, body).value, user.value, true)
    ensures r.0.Refused? ==> r.1 == venues && r.2 == table
    ensures venues <= r.1 && (Positions(venues) ==> Positions(r.1))
    ensures r.0.Stream? ==> StreamSound(body.shows.value, user.value, table, insertFails, r.0.events, r.2)
  {
    match Preflight(user, body)
    case Err(why) => (Refused(why), venues, table)
    case Ok(shows) =>
      match FirstRejection(shows, user.value, true)
      case Some(why) => (Refused(why), venues, table)
      case None =>
        AcceptedShowsAreOwnAndShort(shows, user.value, true);
        var (events, venues1, table1) := StreamShows(shows, user.value, venues, table, geocode, faults, insertFails, route);
        (Stream(events), venues1, table1)
  }

  /** In the corrected route every stored venue id names a venue that agrees
      with the show it was stored for. */
  lemma CorrectedUploadAgrees(user: Option<string>, body: Body, venues: Venues, table: seq<ShowRow>,
                              geocode: VenueParams -> GeoOutcome, faults: Faults)
    requires Positions(venues)
    ensures var r := HandleUploadWithProgress(user, body, venues, table, geocode, faults, false, Corrected);
            r.0.Stream? ==>
              forall i :: 0 <= i < |body.shows.value| && r.2[|table| + i].venueId.Some? ==>
                var show := body.shows.value[i];
                Truthy(show.venue) && r.2[|table| + i].venueId.value < |r.1|
                && AgreesWith(r.1[r.2[|table| + i].venueId.value], VenueParamsOf(show, Corrected))
  {
    var r := HandleUploadWithProgress(user, body, venues, table, geocode, faults, false, Corrected);
    if r.0.Stream? {
      var shows := body.shows.value;
      CorrectedVenuesAgree(shows, venues, [], RouteResolver(geocode, faults));
      var res := ResolveVenues(shows, venues, [], RouteResolver(geocode, faults), Corrected).1;
      assert forall i :: 0 <= i < |shows| ==> r.2[|table| + i].venueId == res[i].venueId;
    }
  }
}
