/** `services/agent/app/services/pipeline.py`: resolve each parsed show's
    venue and central shows, ten shows at a time, and hand the results out in
    the order the shows were parsed. The parser and the date normaliser are
    language-model calls; their outputs are inputs here. */
module Pipeline {
  import opened Wrappers
  import opened Text
  import opened Db
  import opened GoogleMaps
  import opened Venues
  import opened VenueResolver
  import opened CentralShows
  import opened ShowResolver

  const BatchSize: nat := 10

  /** A show as the parser returns it: every field a string. */
  datatype ParsedUserShow = ParsedUserShow(
    date: string,
    artists: seq<string>,
    venue: string,
    city: string,
    state: string,
    country: string,
    notes: string,
    rating: string)

  /** A show as the pipeline yields it. */
  datatype ProcessedUserShow = ProcessedUserShow(
    order: nat,
    date: Option<string>,
    artists: seq<string>,
    showIds: Option<seq<string>>,
    venueId: Option<string>,
    notes: Option<string>,
    rating: Option<string>)

  /** The two tables the pipeline writes to. */
  datatype World = World(venues: Venues, shows: Shows)

  /** `x or None` on a string. */
  function NullIfEmpty(s: string): (r: Option<string>)
    ensures r.None? <==> s == ""
    ensures r.Some? ==> r.value == s
  {
    OrNull(Some(s))
  }

  /** What `get_or_create_venue` is called with. */
  function ParamsOf(show: ParsedUserShow): VenueParams {
    VenueParams(show.venue, NullIfEmpty(show.city), NullIfEmpty(show.state), NullIfEmpty(show.country))
  }

  /** The `central_shows` table after `resolve_shows_for_artists`, also when
      a lookup raised partway: the shows inserted for earlier artists stay. */
  function ShowsAfter(db: Shows, date: string, artists: seq<string>, venueId: string, faults: ArtistFaults): (t: Shows)
    requires date != "" && venueId != ""
    ensures db <= t
    ensures ResolveEach(db, date, artists, venueId, faults).Ok? ==>
              t == ResolveEach(db, date, artists, venueId, faults).value.0
    decreases |artists|
  {
    if |artists| == 0 then db
    else
      match GetOrCreateCentralShowPy(db, ShowKey(date, artists[0], venueId), faults(0))
      case Err(_) => db
      case Ok((db1, _)) => ShowsAfter(db1, date, artists[1..], venueId, Shift(faults))
  }

  /** `_process_single_show`: the venue, then (with a date and a venue id)
      the central shows. An exception drops both ids but keeps whatever rows
      were written before it. Venue ids are rendered as decimal strings. */
  function ProcessSingleShow(w: World, order: nat, show: ParsedUserShow, normalizedDate: Option<string>,
                             geocode: VenueParams -> Result<seq<GeoResult>, PyGeoError>,
                             venueFaults: Faults, showFaults: ArtistFaults)
    : (r: (World, ProcessedUserShow))
    ensures r.1.order == order && r.1.date == normalizedDate && r.1.artists == show.artists
    ensures r.1.notes == NullIfEmpty(show.notes) && r.1.rating == NullIfEmpty(show.rating)
    ensures w.venues <= r.0.venues && w.shows <= r.0.shows
    ensures r.1.showIds.Some? ==>
              Truthy(normalizedDate) && r.1.venueId.Some?
              && 0 < |r.1.showIds.value| <= |show.artists|
    ensures Positions(w.venues) ==> Positions(r.0.venues)
    ensures Positions(w.venues) && r.1.venueId.Some? ==>
              exists id :: 0 <= id < |r.0.venues| && r.1.venueId == Some(NatToString(id))
                           && AgreesWith(r.0.venues[id], ParamsOf(show))
    ensures GetOrCreateVenuePy(w.venues, ParamsOf(show), geocode(ParamsOf(show)), venueFaults).Err? ==>
              r == (w, ProcessedUserShow(order, normalizedDate, show.artists, None, None,
                                         NullIfEmpty(show.notes), NullIfEmpty(show.rating)))
  {
    var p := ParamsOf(show);
    var failed := ProcessedUserShow(order, normalizedDate, show.artists, None, None,
                                    NullIfEmpty(show.notes), NullIfEmpty(show.rating));
    match GetOrCreateVenuePy(w.venues, p, geocode(p), venueFaults)
    case Err(_) => (w, failed)
    case Ok((venues1, venueId)) =>
      if venueId.None? then
        (World(venues1, w.shows), failed)
      else
        var vid := NatToString(venueId.value);
        if !Truthy(normalizedDate) then
          (World(venues1, w.shows), failed.(venueId := Some(vid)))
        else
          match ResolveShowsForArtists(w.shows, normalizedDate.value, show.artists, vid, showFaults)
          case Err(_) =>
            (World(venues1, ShowsAfter(w.shows, normalizedDate.value, show.artists, vid, showFaults)), failed)
          case Ok((shows1, ids)) =>
            (World(venues1, shows1), failed.(showIds := ids, venueId := Some(vid)))
  }

  /** Without count or insert faults, a show with a date whose venue
      resolves gets one central-show id per non-empty artist, and `None`
      when it has none. */
  lemma ResolvedShowIds(w: World, order: nat, show: ParsedUserShow, normalizedDate: Option<string>,
                        geocode: VenueParams -> Result<seq<GeoResult>, PyGeoError>,
                        venueFaults: Faults, showFaults: ArtistFaults)
    requires Truthy(normalizedDate) && IdsNonEmpty(w.shows)
    requires NoCountOrInsertFault(showFaults)
    requires var r := ProcessSingleShow(w, order, show, normalizedDate, geocode, venueFaults, showFaults);
             r.1.venueId.Some? && ResolveShowsForArtists(w.shows, normalizedDate.value, show.artists,
                                                         r.1.venueId.value, showFaults).Ok?
    ensures var r := ProcessSingleShow(w, order, show, normalizedDate, geocode, venueFaults, showFaults);
            (r.1.showIds.None? <==> |NonEmpty(show.artists)| == 0)
            && (r.1.showIds.Some? ==> |r.1.showIds.value| == |NonEmpty(show.artists)|)
  {
    var r := ProcessSingleShow(w, order, show, normalizedDate, geocode, venueFaults, showFaults);
    ResolveShowsComplete(w.shows, normalizedDate.value, show.artists, r.1.venueId.value, showFaults);
  }

  /** What the run meets: the parsed shows, one normalised date per show
      (`normalize_dates` pads or truncates its answer to that length), the
      geocoder, the faults of each show's venue queries, and the faults of
      each show's central-show queries, by artist. */
  datatype Inputs = Inputs(
    parsed: seq<ParsedUserShow>,
    dates: seq<Option<string>>,
    geocode: VenueParams -> Result<seq<GeoResult>, PyGeoError>,
    venueFaults: nat -> Faults,
    showFaults: nat -> ArtistFaults)

  predicate Aligned(ins: Inputs) {
    |ins.dates| == |ins.parsed|
  }

  /** Show `i` processed against the tables `w`; past the end of the
      inputs, nothing happens. */
  function Step(ins: Inputs): (World, nat) -> (World, ProcessedUserShow) {
    (w: World, i: nat) =>
      if i < |ins.parsed| && i < |ins.dates| then
        ProcessSingleShow(w, i, ins.parsed[i], ins.dates[i], ins.geocode, ins.venueFaults(i), ins.showFaults(i))
      else (w, ProcessedUserShow(i, None, [], None, None, None, None))
  }

  /** The first `n` steps, one after another. */
  function Run(w: World, step: (World, nat) -> (World, ProcessedUserShow), n: nat)
    : (r: (World, seq<ProcessedUserShow>))
    ensures |r.1| == n
    decreases n
  {
    if n == 0 then (w, [])
    else
      var prev := Run(w, step, n - 1);
      var last := step(prev.0, n - 1);
      (last.0, prev.1 + [last.1])
  }

  /** The reference: the shows processed one after another. */
  lemma {:induction false} RunSequential(w: World, ins: Inputs, n: nat)
    requires Aligned(ins) && n <= |ins.parsed|
    ensures var r := Run(w, Step(ins), n);
            (forall i :: 0 <= i < n ==>
               r.1[i].order == i && r.1[i].artists == ins.parsed[i].artists && r.1[i].date == ins.dates[i])
            && w.venues <= r.0.venues && w.shows <= r.0.shows
            && (Positions(w.venues) ==> Positions(r.0.venues))
    decreases n
  {
    if n > 0 {
      RunSequential(w, ins, n - 1);
      var prev := Run(w, Step(ins), n - 1);
      var last := Step(ins)(prev.0, n - 1);
      StepFacts(ins, prev.0, n - 1);
      assert Run(w, Step(ins), n) == (last.0, prev.1 + [last.1]);
    }
  }

  /** What one step promises: the show's order, artists and date, and tables
      that only grow. */
  lemma StepFacts(ins: Inputs, w: World, i: nat)
    requires Aligned(ins) && i < |ins.parsed|
    ensures var r := Step(ins)(w, i);
            r.1.order == i && r.1.artists == ins.parsed[i].artists && r.1.date == ins.dates[i]
            && w.venues <= r.0.venues && w.shows <= r.0.shows
            && (Positions(w.venues) ==> Positions(r.0.venues))
  {
    assert Step(ins)(w, i) == ProcessSingleShow(w, i, ins.parsed[i], ins.dates[i], ins.geocode,
                                                ins.venueFaults(i), ins.showFaults(i));
  }

  /** One batch: the steps `batchStart .. batchEnd - 1`, one after another
      (`asyncio.gather` of the batch's tasks). */
  method RunBatch(w: World, step: (World, nat) -> (World, ProcessedUserShow),
                  w0: World, done: seq<ProcessedUserShow>, batchStart: nat, batchEnd: nat)
    returns (w1: World, batchResults: seq<ProcessedUserShow>)
    requires batchStart <= batchEnd
    requires (w0, done) == Run(w, step, batchStart)
    ensures (w1, done + batchResults) == Run(w, step, batchEnd)
    ensures |batchResults| == batchEnd - batchStart
  {
    w1, batchResults := w0, [];
    var i := batchStart;
    assert done + [] == done;
    while i < batchEnd
      invariant batchStart <= i <= batchEnd
      invariant (w1, done + batchResults) == Run(w, step, i)
      invariant |batchResults| == i - batchStart
    {
      var last := step(w1, i);
      w1 := last.0;
      assert done + (batchResults + [last.1]) == (done + batchResults) + [last.1];
      batchResults := batchResults + [last.1];
      i := i + 1;
    }
  }

  /** `results[result.order] = result` for each result of a batch whose
      orders run from `batchStart`. */
  method Park(results: map<nat, ProcessedUserShow>, batchResults: seq<ProcessedUserShow>, batchStart: nat)
    returns (parked: map<nat, ProcessedUserShow>)
    requires results == map[]
    requires forall j :: 0 <= j < |batchResults| ==> batchResults[j].order == batchStart + j
    ensures forall k :: k in parked <==> batchStart <= k < batchStart + |batchResults|
    ensures forall k :: k in parked ==> parked[k] == batchResults[k - batchStart]
  {
    parked := results;
    var j := 0;
    while j < |batchResults|
      invariant 0 <= j <= |batchResults|
      invariant forall k :: k in parked <==> batchStart <= k < batchStart + j
      invariant forall k :: k in parked ==> parked[k] == batchResults[k - batchStart]
    {
      parked := parked[batchResults[j].order := batchResults[j]];
      j := j + 1;
    }
  }

  /** `while next_to_yield in results: yield results.pop(next_to_yield)`. */
  method YieldReady(results: map<nat, ProcessedUserShow>, nextToYield: nat, out: seq<ProcessedUserShow>,
                    all: seq<ProcessedUserShow>, batchEnd: nat)
    returns (rest: map<nat, ProcessedUserShow>, next: nat, out1: seq<ProcessedUserShow>)
    requires nextToYield <= batchEnd <= |all|
    requires forall k :: k in results <==> nextToYield <= k < batchEnd
    requires forall k :: k in results ==> results[k] == all[k]
    requires out == all[..nextToYield]
    ensures rest == map[] && next == batchEnd && out1 == all[..batchEnd]
  {
    rest, next, out1 := results, nextToYield, out;
    while next in rest
      invariant nextToYield <= next <= batchEnd
      invariant forall k :: k in rest <==> next <= k < batchEnd
      invariant forall k :: k in rest ==> rest[k] == all[k]
      invariant out1 == all[..next]
      decreases batchEnd - next
    {
      assert all[..next + 1] == all[..next] + [all[next]];
      out1 := out1 + [rest[next]];
      rest := rest - {next};
      next := next + 1;
    }
    assert rest == map[];
  }

  /** One pass of the loop of `process_shows`: run the batch, park its
      results by order, and yield those that are next. */
  method ProcessBatch(w: World, ins: Inputs, w0: World, out: seq<ProcessedUserShow>,
                      results: map<nat, ProcessedUserShow>, batchStart: nat, batchEnd: nat)
    returns (w1: World, out1: seq<ProcessedUserShow>, results1: map<nat, ProcessedUserShow>, next: nat)
    requires Aligned(ins) && batchStart <= batchEnd <= |ins.parsed|
    requires (w0, out) == Run(w, Step(ins), batchStart) && results == map[]
    ensures (w1, out1) == Run(w, Step(ins), batchEnd)
    ensures results1 == map[] && next == batchEnd
  {
    var w2, batchResults := RunBatch(w, Step(ins), w0, out, batchStart, batchEnd);
    var all := out + batchResults;
    assert forall j :: 0 <= j < |batchResults| ==> batchResults[j].order == batchStart + j by {
      RunSequential(w, ins, batchEnd);
      forall j | 0 <= j < |batchResults| ensures batchResults[j].order == batchStart + j {
        assert batchResults[j] == all[batchStart + j];
      }
    }
    var parked := Park(results, batchResults, batchStart);
    assert out == all[..batchStart];
    results1, next, out1 := YieldReady(parked, batchStart, out, all, batchEnd);
    assert all[..batchEnd] == all;
    w1 := w2;
  }

  /** `process_shows`: the shows in batches of ten, each batch's results
      parked in `results` by order and yielded while the next expected order
      is there. An empty parse yields nothing. */
  method ProcessShows(w: World, ins: Inputs) returns (w1: World, out: seq<ProcessedUserShow>)
    requires Aligned(ins)
    ensures (w1, out) == Run(w, Step(ins), |ins.parsed|)
    ensures |out| == |ins.parsed|
    ensures forall i :: 0 <= i < |out| ==> out[i].order == i && out[i].artists == ins.parsed[i].artists
  {
    w1, out := w, [];
    if |ins.parsed| == 0 {
      return;
    }
    var step := Step(ins);
    var results: map<nat, ProcessedUserShow> := map[];
    var nextToYield: nat := 0;
    var total := |ins.parsed|;
    var batchStart := 0;
    while batchStart < total
      invariant 0 <= batchStart <= total
      invariant (w1, out) == Run(w, step, batchStart)
      invariant nextToYield == batchStart && results == map[]
      decreases total - batchStart
    {
      var batchEnd := if batchStart + BatchSize < total then batchStart + BatchSize else total;
      w1, out, results, nextToYield := ProcessBatch(w, ins, w1, out, results, batchStart, batchEnd);
      batchStart := batchEnd;
    }
    RunSequential(w, ins, total);
  }
}
