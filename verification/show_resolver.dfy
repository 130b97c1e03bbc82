/** `services/agent/app/services/show_resolver.py`: the Python get-or-create
    for central shows, on the same `central_shows` table. */
module ShowResolver {
  import opened Wrappers
  import opened ShowId
  import opened Db
  import opened CentralShows

  /** `find_central_show`: `maybe_single()` raises when several rows match;
      the call sits outside any `try`, so the error reaches the caller. */
  function FindCentralShowPy(db: Shows, k: ShowKey, fault: bool): (r: Result<Option<CentralShow>, DbError>)
    ensures r.Err? <==> fault || |Matches(db, k)| > 1
    ensures r.Ok? && r.value.Some? ==> r.value.value in db && HasKey(r.value.value, k)
    ensures r.Ok? ==> (r.value.Some? <==> |Matches(db, k)| == 1)
  {
    MaybeSingle(Matches(db, k), fault)
  }

  /** `get_or_create_central_show`: the table after the call and the
      `show_id`, or `None`. Errors of the count and the insert are logged and
      turn into `None`; an error of the lookup propagates. */
  function GetOrCreateCentralShowPy(db: Shows, k: ShowKey, faults: Faults)
    : (r: Result<(Shows, Option<string>), DbError>)
    ensures k.date == "" || k.artist == "" || k.venueId == "" ==> r == Ok((db, None))
    ensures r.Err? <==> k.date != "" && k.artist != "" && k.venueId != ""
                        && (faults.lookup || |Matches(db, k)| > 1)
    ensures r.Ok? ==> db <= r.value.0 && |r.value.0| <= |db| + 1
    ensures r.Ok? && |r.value.0| == |db| + 1 ==>
              var row := r.value.0[|db|];
              HasKey(row, k) && r.value.1 == Some(row.showId)
              && row.showId == SequencedId(BaseOf(k), PrefixCount(db, BaseOf(k)))
    ensures r.Ok? && r.value.0 == db && r.value.1.Some? ==>
              exists i :: 0 <= i < |db| && HasKey(db[i], k) && db[i].showId == r.value.1.value
    ensures r.Ok? && k.date != "" && k.artist != "" && k.venueId != "" && !faults.count && !faults.insert ==>
              r.value.1.Some?
  {
    if k.date == "" || k.artist == "" || k.venueId == "" then Ok((db, None))
    else
      match FindCentralShowPy(db, k, faults.lookup)
      case Err(e) => Err(e)
      case Ok(existing) =>
        if existing.Some? then Ok((db, Some(existing.value.showId)))
        else
          var baseShowId := GenerateShowIdPy(k.date, k.artist, k.venueId, None);
          if faults.count then Ok((db, None))
          else
            var n := PrefixCount(db, baseShowId);
            var finalShowId := if n > 0 then GenerateShowIdPy(k.date, k.artist, k.venueId, Some(n)) else baseShowId;
            if faults.insert then Ok((db, None))
            else
              var row := CentralShow(|db|, finalShowId, k.date, k.artist, k.venueId);
              Ok((db + [row], Some(finalShowId)))
  }

  /** Where both succeed, the Python and TypeScript get-or-create leave the
      same table and name the same show. */
  lemma ResolversAgree(db: Shows, k: ShowKey, faults: Faults)
    requires k.date != "" && k.artist != "" && k.venueId != ""
    requires GetOrCreateCentralShowPy(db, k, faults).Ok? && GetOrCreateCentralShow(db, k, false, faults).Ok?
    ensures GetOrCreateCentralShowPy(db, k, faults).value.0 == GetOrCreateCentralShow(db, k, false, faults).value.0
    ensures GetOrCreateCentralShowPy(db, k, faults).value.1
         == Some(GetOrCreateCentralShow(db, k, false, faults).value.1.centralShow.showId)
  {
    var py := GetOrCreateCentralShowPy(db, k, faults);
    var ts := GetOrCreateCentralShow(db, k, false, faults);
    assert |Matches(db, k)| <= 1;
    if |Matches(db, k)| == 1 {
      assert py.value.1 == Some(Matches(db, k)[0].showId);
    }
  }

  /** The artists `resolve_shows_for_artists` can resolve: the non-empty ones. */
  function NonEmpty(artists: seq<string>): (r: seq<string>)
    ensures |r| <= |artists|
    ensures forall i :: 0 <= i < |r| ==> r[i] != "" && r[i] in artists
  {
    if |artists| == 0 then []
    else (if artists[0] != "" then [artists[0]] else []) + NonEmpty(artists[1..])
  }

  /** The faults of one show's store calls, by artist position: each
      artist's get-or-create makes its own calls, which fail independently. */
  type ArtistFaults = nat -> Faults

  /** The faults of the artists after the first. */
  function Shift(faults: ArtistFaults): ArtistFaults {
    (j: nat) => faults(j + 1)
  }

  /** No artist's count or insert fails. */
  ghost predicate NoCountOrInsertFault(faults: ArtistFaults) {
    forall i: nat :: !faults(i).count && !faults(i).insert
  }

  /** The loop of `resolve_shows_for_artists`: the ids resolved, in artist
      order, skipping artists that gave `None`; `faults(i)` are the faults of
      the i-th artist's calls. */
  function ResolveEach(db: Shows, date: string, artists: seq<string>, venueId: string, faults: ArtistFaults)
    : (r: Result<(Shows, seq<string>), DbError>)
    requires date != "" && venueId != ""
    ensures r.Ok? ==> db <= r.value.0 && |r.value.1| <= |artists|
    ensures r.Ok? ==> forall i :: 0 <= i < |r.value.1| ==> r.value.1[i] != ""
    decreases |artists|
  {
    if |artists| == 0 then Ok((db, []))
    else
      var first := GetOrCreateCentralShowPy(db, ShowKey(date, artists[0], venueId), faults(0));
      if first.Err? then Err(first.error)
      else
        var db1 := first.value.0;
        assert db <= db1;
        var tail := ResolveEach(db1, date, artists[1..], venueId, Shift(faults));
        if tail.Err? then Err(tail.error)
        else
          Ok((tail.value.0, Ids(first.value.1) + tail.value.1))
  }

  /** The id one artist contributes: a non-empty resolved id. */
  function Ids(id: Option<string>): (r: seq<string>)
    ensures |r| <= 1 && forall i :: 0 <= i < |r| ==> r[i] != ""
  {
    if id.Some? && id.value != "" then [id.value] else []
  }

  /** A resolved id names a row of its own key that is in the table afterwards. */
  lemma ResolvedRow(db: Shows, k: ShowKey, faults: Faults) returns (row: CentralShow)
    requires k.date != "" && k.artist != "" && k.venueId != ""
    requires GetOrCreateCentralShowPy(db, k, faults).Ok?
    requires !faults.count && !faults.insert && IdsNonEmpty(db)
    ensures var (db1, id) := GetOrCreateCentralShowPy(db, k, faults).value;
            id.Some? && id.value != "" && row in db1 && HasKey(row, k) && row.showId == id.value
            && IdsNonEmpty(db1)
  {
    var r := GetOrCreateCentralShowPy(db, k, faults);
    var (db1, id) := r.value;
    assert db <= db1 && |db1| <= |db| + 1 && id.Some?;
    if |db1| == |db| + 1 {
      row := db1[|db|];
      assert row.showId != "" by {
        SequencedIdHasBase(BaseOf(k), PrefixCount(db, BaseOf(k)));
        BaseNonEmpty(k);
      }
      assert db1 == db + [row];
      IdsNonEmptyAppend(db, row);
    } else {
      assert db1 == db;
      var i :| 0 <= i < |db| && HasKey(db[i], k) && db[i].showId == id.value;
      row := db[i];
    }
  }

  lemma IdsNonEmptyAppend(db: Shows, row: CentralShow)
    requires IdsNonEmpty(db) && row.showId != ""
    ensures IdsNonEmpty(db + [row])
  {
  }

  /** Without count or insert failures, and with no empty ids stored, every
      non-empty artist resolves: the i-th id is the `show_id` of a row keyed by
      the i-th non-empty artist, present in the final table. */
  lemma {:induction false} ResolveEachRows(db: Shows, date: string, artists: seq<string>, venueId: string,
                                           faults: ArtistFaults) returns (rows: seq<CentralShow>)
    requires date != "" && venueId != ""
    requires ResolveEach(db, date, artists, venueId, faults).Ok?
    requires NoCountOrInsertFault(faults) && IdsNonEmpty(db)
    ensures var (db2, ids) := ResolveEach(db, date, artists, venueId, faults).value;
            |rows| == |ids| == |NonEmpty(artists)|
            && (forall i :: 0 <= i < |rows| ==> rows[i] in db2 && rows[i].showId == ids[i])
            && (forall i :: 0 <= i < |rows| ==> HasKey(rows[i], ShowKey(date, NonEmpty(artists)[i], venueId)))
    decreases |artists|
  {
    if |artists| == 0 {
      rows := [];
    } else {
      var k := ShowKey(date, artists[0], venueId);
      ResolveEachCons(db, date, artists, venueId, faults);
      var (db1, id) := GetOrCreateCentralShowPy(db, k, faults(0)).value;
      var (db2, rest) := ResolveEach(db1, date, artists[1..], venueId, Shift(faults)).value;
      ShiftNoFault(faults);
      var ne := NonEmpty(artists);
      var neTail := NonEmpty(artists[1..]);
      assert ne == (if artists[0] != "" then [artists[0]] else []) + neTail;
      if artists[0] != "" {
        var row := ResolvedRow(db, k, faults(0));
        var tail := ResolveEachRows(db1, date, artists[1..], venueId, Shift(faults));
        rows := [row] + tail;
        assert Ids(id) == [id.value];
        assert ne == [artists[0]] + neTail;
        ConsRows(db2, date, venueId, row, tail, id.value, rest, artists[0], neTail);
      } else {
        assert (db1, id) == (db, None);
        rows := ResolveEachRows(db1, date, artists[1..], venueId, Shift(faults));
        assert ne == neTail;
      }
    }
  }

  /** A successful resolution of a non-empty list: the first artist's call
      succeeded, then the rest, and the ids are joined in order. */
  lemma ResolveEachCons(db: Shows, date: string, artists: seq<string>, venueId: string, faults: ArtistFaults)
    requires date != "" && venueId != "" && |artists| > 0
    requires ResolveEach(db, date, artists, venueId, faults).Ok?
    ensures var first := GetOrCreateCentralShowPy(db, ShowKey(date, artists[0], venueId), faults(0));
            first.Ok?
            && var tail := ResolveEach(first.value.0, date, artists[1..], venueId, Shift(faults));
               tail.Ok?
               && ResolveEach(db, date, artists, venueId, faults).value
                  == (tail.value.0, Ids(first.value.1) + tail.value.1)
  {
  }

  /** The later artists have no count or insert faults either. */
  lemma ShiftNoFault(faults: ArtistFaults)
    requires NoCountOrInsertFault(faults)
    ensures NoCountOrInsertFault(Shift(faults))
  {
    forall i: nat ensures !Shift(faults)(i).count && !Shift(faults)(i).insert {
      assert Shift(faults)(i) == faults(i + 1);
    }
  }

  lemma ConsRows(db2: Shows, date: string, venueId: string, row: CentralShow, tail: seq<CentralShow>,
                  id: string, rest: seq<string>, artist: string, artists: seq<string>)
    requires row in db2 && row.showId == id && HasKey(row, ShowKey(date, artist, venueId))
    requires |tail| == |rest| == |artists|
    requires forall i :: 0 <= i < |tail| ==> tail[i] in db2 && tail[i].showId == rest[i]
    requires forall i :: 0 <= i < |tail| ==> HasKey(tail[i], ShowKey(date, artists[i], venueId))
    ensures var rows, ids, names := [row] + tail, [id] + rest, [artist] + artists;
            (forall i :: 0 <= i < |rows| ==> rows[i] in db2 && rows[i].showId == ids[i])
            && (forall i :: 0 <= i < |rows| ==> HasKey(rows[i], ShowKey(date, names[i], venueId)))
  {
  }

  /** Generated ids start with the date, which the resolver demands to be non-empty. */
  lemma BaseNonEmpty(k: ShowKey)
    requires k.date != ""
    ensures BaseOf(k) != ""
  {
    assert k.date <= BaseOf(k);
  }

  /** Every stored `show_id` is non-empty; ids made by either resolver are,
      since they start with a non-empty date. */
  predicate IdsNonEmpty(db: Shows) {
    forall i :: 0 <= i < |db| ==> db[i].showId != ""
  }

  /** `resolve_shows_for_artists`: `None` without a date or venue id, and also
      when no artist resolved. */
  function ResolveShowsForArtists(db: Shows, date: string, artists: seq<string>, venueId: string, faults: ArtistFaults)
    : (r: Result<(Shows, Option<seq<string>>), DbError>)
    ensures date == "" || venueId == "" ==> r == Ok((db, None))
    ensures r.Ok? && r.value.1.Some? ==> |r.value.1.value| > 0 && |r.value.1.value| <= |artists|
    ensures r.Ok? ==> db <= r.value.0
  {
    if date == "" || venueId == "" then Ok((db, None))
    else
      match ResolveEach(db, date, artists, venueId, faults)
      case Err(e) => Err(e)
      case Ok((db1, ids)) => Ok((db1, if |ids| > 0 then Some(ids) else None))
  }

  /** Without count or insert failures, the result is `None` exactly when no
      artist is non-empty, and otherwise lists one id per non-empty artist. */
  lemma ResolveShowsComplete(db: Shows, date: string, artists: seq<string>, venueId: string, faults: ArtistFaults)
    requires date != "" && venueId != ""
    requires ResolveShowsForArtists(db, date, artists, venueId, faults).Ok?
    requires NoCountOrInsertFault(faults) && IdsNonEmpty(db)
    ensures var ids := ResolveShowsForArtists(db, date, artists, venueId, faults).value.1;
            (ids.None? <==> |NonEmpty(artists)| == 0)
            && (ids.Some? ==> |ids.value| == |NonEmpty(artists)|)
  {
    var rows := ResolveEachRows(db, date, artists, venueId, faults);
  }
}
