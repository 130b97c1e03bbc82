/** `app/lib/central-shows.ts`: the table of canonical shows, one row per
    (date, artist, venue), each with a human-readable `show_id` slug. */
module CentralShows {
  import opened Wrappers
  import opened Text
  import opened ShowId
  import opened Db

  /** A row of `central_shows`; `id` is the row's primary key, modelled as its
      position in the table. */
  datatype CentralShow = CentralShow(id: nat, showId: string, date: string, artist: string, venueId: string)

  type Shows = seq<CentralShow>

  datatype ShowKey = ShowKey(date: string, artist: string, venueId: string)

  predicate HasKey(s: CentralShow, k: ShowKey) {
    s.date == k.date && s.artist == k.artist && s.venueId == k.venueId
  }

  /** The rows selected by `.eq('date', …).eq('artist', …).eq('venue_id', …)`, in table order. */
  function Matches(db: Shows, k: ShowKey): (r: Shows)
    ensures forall i :: 0 <= i < |r| ==> r[i] in db && HasKey(r[i], k)
    ensures forall i :: 0 <= i < |db| && HasKey(db[i], k) ==> db[i] in r
  {
    if |db| == 0 then []
    else (if HasKey(db[0], k) then [db[0]] else []) + Matches(db[1..], k)
  }

  /** `findCentralShow`: `.single()` reports both "no row" and "several rows"
      as `PGRST116`, which becomes `null`; any other error is re-thrown. */
  function FindCentralShow(db: Shows, k: ShowKey, fault: bool): (r: Result<Option<CentralShow>, DbError>)
    ensures r.Err? <==> fault
    ensures r.Ok? && r.value.Some? ==> r.value.value in db && HasKey(r.value.value, k)
    ensures r.Ok? ==> (r.value.Some? <==> |Matches(db, k)| == 1)
  {
    match Single(Matches(db, k), fault)
    case Ok(row) => Ok(Some(row))
    case Err(e) => if e == NotSingleRow then Ok(None) else Err(e)
  }

  /** What `getOrCreateCentralShow` returns besides the (possibly grown) table. */
  datatype Outcome = Outcome(centralShow: CentralShow, isNew: bool, isDuplicate: bool)

  /** The number of rows whose `show_id` starts with `base` (`.like('show_id', base + '%')`). */
  function PrefixCount(db: Shows, base: string): (n: nat)
    ensures n <= |db|
  {
    if |db| == 0 then 0
    else PrefixCount(db[..|db| - 1], base) + (if base <= db[|db| - 1].showId then 1 else 0)
  }

  /** The slug `generateShowId` produces for sequence number `k` on base `base`. */
  function SequencedId(base: string, k: nat): string {
    if k == 0 then base else base + "-" + NatToString(k)
  }

  function BaseOf(k: ShowKey): string {
    GenerateShowId(k.date, k.artist, k.venueId, None)
  }

  /** `getOrCreateCentralShow`. The branch guarded by `existing && !allowDuplicate`
      follows a return on `existing` and is kept only as a dead branch. */
  function GetOrCreateCentralShow(db: Shows, k: ShowKey, allowDuplicate: bool, faults: Faults)
    : (r: Result<(Shows, Outcome), DbError>)
    ensures r.Ok? && !r.value.1.isNew ==>
              r.value.0 == db && r.value.1.isDuplicate
              && r.value.1.centralShow in db && HasKey(r.value.1.centralShow, k)
    ensures r.Ok? && r.value.1.isNew ==>
              !r.value.1.isDuplicate
              && r.value.0 == db + [r.value.1.centralShow]
              && HasKey(r.value.1.centralShow, k) && r.value.1.centralShow.id == |db|
              && r.value.1.centralShow.showId == SequencedId(BaseOf(k), PrefixCount(db, BaseOf(k)))
    ensures r.Ok? ==> db <= r.value.0
    ensures r.Err? <==> faults.lookup || (|Matches(db, k)| != 1 && (faults.count || faults.insert))
  {
    match FindCentralShow(db, k, faults.lookup)
    case Err(e) => Err(e)
    case Ok(existing) =>
      if existing.Some? then Ok((db, Outcome(existing.value, false, true)))
      else if existing.Some? && !allowDuplicate then
        // `existing` is null here, so this branch is never taken.
        assert false; Err(QueryFailed)
      else
        var baseShowId := GenerateShowId(k.date, k.artist, k.venueId, None);
        if faults.count then Err(QueryFailed)
        else
          var count := PrefixCount(db, baseShowId);
          var finalShowId := if count > 0 then GenerateShowId(k.date, k.artist, k.venueId, Some(count)) else baseShowId;
          if faults.insert then Err(QueryFailed)
          else
            var row := CentralShow(|db|, finalShowId, k.date, k.artist, k.venueId);
            Ok((db + [row], Outcome(row, true, false)))
  }

  /** The `allowDuplicate` flag never changes the outcome: the branch at
      central-shows.ts lines 71-77 is unreachable. */
  lemma AllowDuplicateIrrelevant(db: Shows, k: ShowKey, faults: Faults)
    ensures GetOrCreateCentralShow(db, k, true, faults) == GetOrCreateCentralShow(db, k, false, faults)
  {
  }

  // ---------------------------------------------------------------------
  // Uniqueness of show ids
  // ---------------------------------------------------------------------

  predicate UniqueShowIds(db: Shows) {
    forall i, j :: 0 <= i < j < |db| ==> db[i].showId != db[j].showId
  }

  /** The ids sharing the prefix `base` are `base`, `base-1`, …, `base-(k-1)`
      where `k` is their count: every one of them is some `SequencedId(base, j)`
      with `j < k` (with `UniqueShowIds`, all of them occur exactly once). */
  predicate ContiguousSequence(db: Shows, base: string) {
    forall i :: 0 <= i < |db| && base <= db[i].showId ==>
      exists j :: 0 <= j < PrefixCount(db, base) && db[i].showId == SequencedId(base, j)
  }

  lemma SequencedIdHasBase(base: string, k: nat)
    ensures base <= SequencedId(base, k)
  {
  }

  lemma SequencedIdInjective(base: string, j: nat, k: nat)
    requires j != k
    ensures SequencedId(base, j) != SequencedId(base, k)
  {
    if j != 0 && k != 0 {
      var x := SequencedId(base, j);
      var y := SequencedId(base, k);
      assert x[|base| + 1..] == NatToString(j);
      assert y[|base| + 1..] == NatToString(k);
      if x == y {
        NatToStringInjective(j, k);
      }
    }
  }

  lemma PrefixCountAppend(db: Shows, row: CentralShow, base: string)
    ensures PrefixCount(db + [row], base) == PrefixCount(db, base) + (if base <= row.showId then 1 else 0)
  {
  }

  /** The slug chosen for a new show is the next one in its base's sequence. */
  lemma NewIdIsNextInSequence(db: Shows, k: ShowKey)
    ensures (if PrefixCount(db, BaseOf(k)) > 0
             then GenerateShowId(k.date, k.artist, k.venueId, Some(PrefixCount(db, BaseOf(k))))
             else BaseOf(k))
         == SequencedId(BaseOf(k), PrefixCount(db, BaseOf(k)))
  {
  }

  /** When a base's ids form a contiguous sequence, the id given to a newly
      created show is fresh, the sequence stays contiguous, and a table of
      unique ids keeps them unique. */
  lemma CreateKeepsIdsUnique(db: Shows, k: ShowKey, allowDuplicate: bool, faults: Faults)
    requires ContiguousSequence(db, BaseOf(k))
    requires GetOrCreateCentralShow(db, k, allowDuplicate, faults).Ok?
    ensures var (db', out) := GetOrCreateCentralShow(db, k, allowDuplicate, faults).value;
            (out.isNew ==> forall i :: 0 <= i < |db| ==> db[i].showId != out.centralShow.showId)
            && ContiguousSequence(db', BaseOf(k))
            && (UniqueShowIds(db) ==> UniqueShowIds(db'))
  {
    var (db', out) := GetOrCreateCentralShow(db, k, allowDuplicate, faults).value;
    if out.isNew {
      var base := BaseOf(k);
      var n := PrefixCount(db, base);
      var newId := out.centralShow.showId;
      assert newId == SequencedId(base, n);
      forall i | 0 <= i < |db|
        ensures db[i].showId != newId
      {
        if db[i].showId == newId {
          SequencedIdHasBase(base, n);
          var j :| 0 <= j < n && db[i].showId == SequencedId(base, j);
          SequencedIdInjective(base, j, n);
        }
      }
      PrefixCountAppend(db, out.centralShow, base);
      SequencedIdHasBase(base, n);
      assert PrefixCount(db', base) == n + 1;
      forall i | 0 <= i < |db'| && base <= db'[i].showId
        ensures exists j :: 0 <= j < n + 1 && db'[i].showId == SequencedId(base, j)
      {
        if i == |db| {
          assert db'[i].showId == SequencedId(base, n);
        } else {
          assert db'[i] == db[i];
          var j :| 0 <= j < n && db[i].showId == SequencedId(base, j);
          assert db'[i].showId == SequencedId(base, j);
        }
      }
    }
  }

  // ---------------------------------------------------------------------
  // Bulk creation and id lookups
  // ---------------------------------------------------------------------

  /** `createCentralShows`: `getOrCreateCentralShow` on each input in turn
      (with `allowDuplicate`), stopping at the first thrown error. */
  function CreateCentralShows(db: Shows, shows: seq<ShowKey>, faults: Faults)
    : (r: Result<(Shows, seq<CentralShow>), DbError>)
    ensures r.Ok? ==> db <= r.value.0 && |r.value.1| == |shows|
    ensures r.Ok? ==> forall i :: 0 <= i < |shows| ==>
                        HasKey(r.value.1[i], shows[i]) && r.value.1[i] in r.value.0
    decreases |shows|
  {
    if |shows| == 0 then Ok((db, []))
    else
      match GetOrCreateCentralShow(db, shows[0], true, faults)
      case Err(e) => Err(e)
      case Ok((db1, out)) =>
        match CreateCentralShows(db1, shows[1..], faults)
        case Err(e) => Err(e)
        case Ok((db2, rest)) =>
          assert out.centralShow in db1;
          Ok((db2, [out.centralShow] + rest))
  }

  /** `getCentralShowsByIds` without the joined venue row: the rows whose
      `id` is listed. An empty list answers `[]` without querying. */
  function GetCentralShowsByIds(db: Shows, ids: seq<nat>, fault: bool): (r: Result<Shows, DbError>)
    ensures |ids| == 0 ==> r == Ok([])
    ensures r.Err? <==> |ids| > 0 && fault
    ensures r.Ok? ==> forall i :: 0 <= i < |r.value| ==> r.value[i] in db && r.value[i].id in ids
    ensures r.Ok? ==> forall i :: 0 <= i < |db| && db[i].id in ids ==> db[i] in r.value
  {
    if |ids| == 0 then Ok([])
    else if fault then Err(QueryFailed)
    else Ok(RowsWithIds(db, ids))
  }

  function RowsWithIds(db: Shows, ids: seq<nat>): (r: Shows)
    ensures forall i :: 0 <= i < |r| ==> r[i] in db && r[i].id in ids
    ensures forall i :: 0 <= i < |db| && db[i].id in ids ==> db[i] in r
  {
    if |db| == 0 then []
    else (if db[0].id in ids then [db[0]] else []) + RowsWithIds(db[1..], ids)
  }

  /** `getCentralShowsByShowIds`: the rows whose `show_id` is listed. An empty
      list answers `[]` without querying. */
  function GetCentralShowsByShowIds(db: Shows, showIds: seq<string>, fault: bool): (r: Result<Shows, DbError>)
    ensures |showIds| == 0 ==> r == Ok([])
    ensures r.Err? <==> |showIds| > 0 && fault
    ensures r.Ok? ==> forall i :: 0 <= i < |r.value| ==> r.value[i] in db && r.value[i].showId in showIds
    ensures r.Ok? ==> forall i :: 0 <= i < |db| && db[i].showId in showIds ==> db[i] in r.value
  {
    if |showIds| == 0 then Ok([])
    else if fault then Err(QueryFailed)
    else Ok(RowsWithShowIds(db, showIds))
  }

  function RowsWithShowIds(db: Shows, showIds: seq<string>): (r: Shows)
    ensures forall i :: 0 <= i < |r| ==> r[i] in db && r[i].showId in showIds
    ensures forall i :: 0 <= i < |db| && db[i].showId in showIds ==> db[i] in r
  {
    if |db| == 0 then []
    else (if db[0].showId in showIds then [db[0]] else []) + RowsWithShowIds(db[1..], showIds)
  }
}
