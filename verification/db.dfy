/** The database as the model sees it: tables are immutable sequences of rows,
    and whether a call to the store fails is an input, not an effect. */
module Db {
  import opened Wrappers

  /** Which kinds of store call fail during one operation: reading rows that
      match a filter, counting rows by prefix, and inserting a row. */
  datatype Faults = Faults(lookup: bool, count: bool, insert: bool)

  const NoFaults: Faults := Faults(false, false, false)

  /** A store error: a failed query, or PostgREST's `PGRST116` ("the result
      does not contain exactly one row") raised by `.single()`. */
  datatype DbError = QueryFailed | NotSingleRow

  /** PostgREST `.single()`: exactly one row, otherwise `PGRST116`. */
  function Single<T>(rows: seq<T>, fault: bool): (r: Result<T, DbError>)
    ensures r.Ok? <==> !fault && |rows| == 1
    ensures r.Ok? ==> r.value == rows[0]
    ensures r.Err? && !fault ==> r.error == NotSingleRow
  {
    if fault then Err(QueryFailed)
    else if |rows| == 1 then Ok(rows[0])
    else Err(NotSingleRow)
  }

  /** PostgREST `.maybeSingle()` (`maybe_single()` in Python): no row is
      `null`, one row is that row, more than one is an error. */
  function MaybeSingle<T>(rows: seq<T>, fault: bool): (r: Result<Option<T>, DbError>)
    ensures r.Err? <==> fault || |rows| > 1
    ensures r.Ok? ==> (r.value.Some? <==> |rows| == 1)
    ensures r.Ok? && r.value.Some? ==> r.value.value == rows[0]
  {
    if fault then Err(QueryFailed)
    else if |rows| == 0 then Ok(None)
    else if |rows| == 1 then Ok(Some(rows[0]))
    else Err(NotSingleRow)
  }
}
