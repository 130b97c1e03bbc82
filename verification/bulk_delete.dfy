/** `app/app/api/shows/bulk-delete/route.ts`: delete a list of the caller's
    shows in batches of 100 ids, after checking that every id names one of
    the caller's shows. */
module BulkDelete {
  import opened Wrappers

  /** The `shows` table, reduced to what the route reads: each show id and
      the user who owns it. */
  type ShowTable = map<string, string>

  const BatchSize: nat := 100

  function Flatten<T>(chunks: seq<seq<T>>): seq<T> {
    if |chunks| == 0 then [] else chunks[0] + Flatten(chunks[1..])
  }

  lemma {:induction false} FlattenAppend<T>(chunks: seq<seq<T>>, last: seq<T>)
    ensures Flatten(chunks + [last]) == Flatten(chunks) + last
  {
    if |chunks| == 0 {
      assert chunks + [last] == [last];
      assert [last][1..] == [];
    } else {
      assert (chunks + [last])[1..] == chunks[1..] + [last];
      FlattenAppend(chunks[1..], last);
    }
  }

  /** `chunkArray`: consecutive slices of `size` elements, the last one
      shorter when the length is not a multiple. */
  method ChunkArray<T>(xs: seq<T>, size: nat) returns (chunks: seq<seq<T>>)
    requires size > 0
    ensures Flatten(chunks) == xs
    ensures forall i :: 0 <= i < |chunks| ==> 0 < |chunks[i]| <= size
    ensures forall i :: 0 <= i < |chunks| - 1 ==> |chunks[i]| == size
    ensures |chunks| == (|xs| + size - 1) / size
  {
    chunks := [];
    var i := 0;
    while i < |xs|
      invariant 0 <= i <= |xs|
      invariant Flatten(chunks) == xs[..i]
      invariant forall k :: 0 <= k < |chunks| ==> 0 < |chunks[k]| <= size
      invariant forall k :: 0 <= k < |chunks| - 1 ==> |chunks[k]| == size
      invariant i < |xs| ==> forall k :: 0 <= k < |chunks| ==> |chunks[k]| == size
    {
      var end := if i + size < |xs| then i + size else |xs|;
      var chunk := xs[i..end];
      FlattenAppend(chunks, chunk);
      assert xs[..i] + chunk == xs[..end];
      chunks := chunks + [chunk];
      i := end;
    }
    assert xs[..|xs|] == xs;
    ChunkCount(chunks, size);
  }

  /** Chunks that are all full but the last number `ceil(n / size)`. */
  lemma ChunkCount<T>(chunks: seq<seq<T>>, size: nat)
    requires size > 0
    requires forall i :: 0 <= i < |chunks| ==> 0 < |chunks[i]| <= size
    requires forall i :: 0 <= i < |chunks| - 1 ==> |chunks[i]| == size
    ensures |chunks| == (|Flatten(chunks)| + size - 1) / size
  {
    if |chunks| > 0 {
      var k := |chunks| - 1;
      var n := |Flatten(chunks)|;
      assert n == k * size + |chunks[k]| by {
        FullPrefix(chunks, size, k);
        LastChunk(chunks, k);
      }
      CeilDiv(k, size, |chunks[k]|, n);
    }
  }

  lemma LastChunk<T>(chunks: seq<seq<T>>, k: nat)
    requires k == |chunks| - 1
    ensures Flatten(chunks) == Flatten(chunks[..k]) + chunks[k]
  {
    assert chunks == chunks[..k] + [chunks[k]];
    FlattenAppend(chunks[..k], chunks[k]);
  }

  lemma MulLess(a: int, b: int, size: int)
    requires size > 0 && a * size < b * size
    ensures a < b
  {
  }

  /** `k` full chunks and one of `last` elements hold `ceil(n / size)`
      chunks. */
  lemma CeilDiv(k: nat, size: nat, last: nat, n: nat)
    requires 0 < last <= size && n == k * size + last
    ensures (n + size - 1) / size == k + 1
  {
    var q := (n + size - 1) / size;
    var r := (n + size - 1) % size;
    assert n + size - 1 == q * size + r;
    assert (k + 1) * size == k * size + size;
    assert (q + 1) * size == q * size + size;
    MulLess(q, k + 2, size);
    MulLess(k, q, size);
  }

  /** The ids of `batch` that name a show of `user`: the rows
      `.in("id", batch).eq("clerk_user_id", userId)` selects. */
  function Owned(batch: seq<string>, table: ShowTable, user: string): set<string> {
    set id | id in batch && id in table && table[id] == user
  }

  predicate Distinct(batch: seq<string>) {
    forall i, j :: 0 <= i < j < |batch| ==> batch[i] != batch[j]
  }

  /** A batch selects at most as many rows as it has ids, and exactly as many
      when its ids are distinct and all name the user's shows. */
  lemma {:induction false} OwnedBound(batch: seq<string>, table: ShowTable, user: string)
    ensures |Owned(batch, table, user)| <= |batch|
    ensures |Owned(batch, table, user)| == |batch| <==>
              Distinct(batch) && forall i :: 0 <= i < |batch| ==> batch[i] in table && table[batch[i]] == user
  {
    if |batch| > 0 {
      var a, rest := batch[0], batch[1..];
      OwnedBound(rest, table, user);
      TightCons(batch, table, user);
      var o := Owned(rest, table, user);
      OwnedCons(batch, table, user);
      assert a in o ==> a in rest;
      if |o| == |rest| {
        assert a in rest ==> a in o by {
          if a in rest {
            var i :| 0 <= i < |rest| && rest[i] == a;
          }
        }
      }
    }
  }

  /** The rows the first id adds to those the rest of the batch selects. */
  lemma OwnedCons(batch: seq<string>, table: ShowTable, user: string)
    requires |batch| > 0
    ensures Owned(batch, table, user) ==
              if batch[0] in table && table[batch[0]] == user
              then Owned(batch[1..], table, user) + {batch[0]}
              else Owned(batch[1..], table, user)
  {
  }

  /** A batch is distinct and owned exactly when its first id is owned and
      not repeated, and the rest is distinct and owned. */
  lemma TightCons(batch: seq<string>, table: ShowTable, user: string)
    requires |batch| > 0
    ensures (Distinct(batch) && forall i :: 0 <= i < |batch| ==> batch[i] in table && table[batch[i]] == user)
            <==>
            (batch[0] in table && table[batch[0]] == user && batch[0] !in batch[1..] && Distinct(batch[1..])
             && forall i :: 0 <= i < |batch[1..]| ==> batch[1..][i] in table && table[batch[1..][i]] == user)
  {
  }

  /** `verifiedCount` over the first batches. */
  function VerifiedCount(batches: seq<seq<string>>, table: ShowTable, user: string): nat {
    if |batches| == 0 then 0
    else |Owned(batches[0], table, user)| + VerifiedCount(batches[1..], table, user)
  }

  /** Each batch tight: distinct ids, all the user's. */
  predicate AllTight(batches: seq<seq<string>>, table: ShowTable, user: string) {
    forall k :: 0 <= k < |batches| ==> |Owned(batches[k], table, user)| == |batches[k]|
  }

  /** The count check passes exactly when every batch is tight: a foreign or
      missing id, or an id repeated within one batch, makes it fail. */
  lemma {:induction false} VerifiedCountExact(batches: seq<seq<string>>, table: ShowTable, user: string)
    ensures VerifiedCount(batches, table, user) <= |Flatten(batches)|
    ensures VerifiedCount(batches, table, user) == |Flatten(batches)| <==> AllTight(batches, table, user)
  {
    if |batches| > 0 {
      OwnedBound(batches[0], table, user);
      VerifiedCountExact(batches[1..], table, user);
      if AllTight(batches, table, user) {
        assert AllTight(batches[1..], table, user) by {
          forall k | 0 <= k < |batches| - 1
            ensures |Owned(batches[1..][k], table, user)| == |batches[1..][k]|
          {
            assert batches[1..][k] == batches[k + 1];
          }
        }
      }
      if VerifiedCount(batches, table, user) == |Flatten(batches)| {
        forall k | 0 <= k < |batches| ensures |Owned(batches[k], table, user)| == |batches[k]| {
          if k > 0 { assert batches[k] == batches[1..][k - 1]; }
        }
      }
    }
  }

  /** Tight batches name only the user's shows. */
  lemma {:induction false} TightMeansOwned(batches: seq<seq<string>>, table: ShowTable, user: string)
    requires AllTight(batches, table, user)
    ensures forall id :: id in Flatten(batches) ==> id in table && table[id] == user
  {
    if |batches| > 0 {
      OwnedBound(batches[0], table, user);
      assert AllTight(batches[1..], table, user) by {
        forall k | 0 <= k < |batches| - 1
          ensures |Owned(batches[1..][k], table, user)| == |batches[1..][k]|
        {
          assert batches[1..][k] == batches[k + 1];
        }
      }
      TightMeansOwned(batches[1..], table, user);
      forall id | id in Flatten(batches) ensures id in table && table[id] == user {
        if id in batches[0] {
          var i :| 0 <= i < |batches[0]| && batches[0][i] == id;
        } else {
          assert id in Flatten(batches[1..]);
        }
      }
    }
  }

  function Elems(s: seq<string>): set<string> {
    set x | x in s
  }

  lemma {:induction false} FlattenSplit<T>(chunks: seq<seq<T>>, k: nat)
    requires k <= |chunks|
    ensures Flatten(chunks) == Flatten(chunks[..k]) + Flatten(chunks[k..])
  {
    if k > 0 {
      assert chunks[..k][1..] == chunks[1..][..k - 1];
      assert chunks[k..] == chunks[1..][k - 1..];
      FlattenSplit(chunks[1..], k - 1);
    } else {
      assert chunks[..0] == [];
      assert chunks[0..] == chunks;
    }
  }

  /** The first `k` chunks, all full, hold exactly the first `k * size`
      elements. */
  lemma FullPrefix<T>(chunks: seq<seq<T>>, size: nat, k: nat)
    requires k <= |chunks|
    requires forall i :: 0 <= i < k ==> |chunks[i]| == size
    ensures |Flatten(chunks[..k])| == k * size
    ensures k * size <= |Flatten(chunks)| && Flatten(chunks[..k]) == Flatten(chunks)[..k * size]
  {
    FullPrefixLength(chunks, size, k);
    FlattenSplit(chunks, k);
  }

  lemma {:induction false} FullPrefixLength<T>(chunks: seq<seq<T>>, size: nat, k: nat)
    requires k <= |chunks|
    requires forall i :: 0 <= i < k ==> |chunks[i]| == size
    ensures |Flatten(chunks[..k])| == k * size
  {
    if k > 0 {
      FullPrefixLength(chunks, size, k - 1);
      FlattenNext(chunks, k - 1);
      assert (k - 1) * size + size == k * size;
    } else {
      assert chunks[..0] == [];
    }
  }

  lemma DistinctParts(a: seq<string>, b: seq<string>)
    requires Distinct(a + b)
    ensures Distinct(a) && Distinct(b)
    ensures forall x :: x in a ==> x !in b
  {
    forall i, j | 0 <= i < j < |b| ensures b[i] != b[j] {
      assert b[i] == (a + b)[|a| + i] && b[j] == (a + b)[|a| + j];
    }
    forall i, j | 0 <= i < |a| && 0 <= j < |b| ensures a[i] != b[j] {
      assert a[i] == (a + b)[i] && b[j] == (a + b)[|a| + j];
    }
    forall i, j | 0 <= i < j < |a| ensures a[i] != a[j] {
      assert a[i] == (a + b)[i] && a[j] == (a + b)[j];
    }
  }

  /** Distinct ids that all name the user's shows pass the check, however
      they are batched. */
  lemma {:induction false} DistinctOwnedTight(batches: seq<seq<string>>, table: ShowTable, user: string)
    requires Distinct(Flatten(batches))
    requires forall id :: id in Flatten(batches) ==> id in table && table[id] == user
    ensures AllTight(batches, table, user)
  {
    if |batches| > 0 {
      DistinctParts(batches[0], Flatten(batches[1..]));
      OwnedBound(batches[0], table, user);
      DistinctOwnedTight(batches[1..], table, user);
      forall k | 0 <= k < |batches| ensures |Owned(batches[k], table, user)| == |batches[k]| {
        if k > 0 { assert batches[k] == batches[1..][k - 1]; }
      }
    }
  }

  datatype DeleteBody = Unparsable | DeleteBody(showIds: Option<seq<string>>)

  datatype DeleteResponse =
    | Unauthorized
    | IdsRequired
    | VerifyFailed
    | NotAllOwned
    | DeleteFailed
    | Deleted(count: nat)
    | InternalError

  /** The HTTP status of each response. */
  function Status(r: DeleteResponse): (code: int)
    ensures code == 200 <==> r.Deleted?
    ensures code == 401 <==> r == Unauthorized
    ensures code == 403 <==> r == NotAllOwned
    ensures code == 400 <==> r == IdsRequired
  {
    match r
    case Unauthorized => 401
    case IdsRequired => 400
    case NotAllOwned => 403
    case Deleted(_) => 200
    case _ => 500
  }

  /** A smaller table: some rows removed, none changed or added. */
  predicate SubTable(small: ShowTable, big: ShowTable) {
    forall id :: id in small ==> id in big && small[id] == big[id]
  }

  /** The ids of a well-formed request. */
  predicate HasIds(body: DeleteBody) {
    body.DeleteBody? && body.showIds.Some? && |body.showIds.value| > 0
  }

  /** A query fault at one of the `(n + 99) / 100` batches of `n` ids. */
  predicate FailsWithin(failsAt: Option<nat>, n: nat) {
    failsAt.Some? && failsAt.value < (n + BatchSize - 1) / BatchSize
  }

  /** The verification loop: the number of requested rows that are the
      user's, or `None` when the query of batch `verifyFailsAt` fails. */
  method VerifyBatches(batches: seq<seq<string>>, table: ShowTable, userId: string, verifyFailsAt: Option<nat>)
    returns (verifiedCount: Option<nat>)
    ensures verifiedCount.None? <==> verifyFailsAt.Some? && verifyFailsAt.value < |batches|
    ensures verifiedCount.Some? ==> verifiedCount.value == VerifiedCount(batches, table, userId)
  {
    var count := 0;
    var k := 0;
    while k < |batches|
      invariant 0 <= k <= |batches|
      invariant count + VerifiedCount(batches[k..], table, userId) == VerifiedCount(batches, table, userId)
      invariant !(verifyFailsAt.Some? && verifyFailsAt.value < k)
    {
      if verifyFailsAt == Some(k) {
        return None;
      }
      assert batches[k..][1..] == batches[k + 1..];
      count := count + |Owned(batches[k], table, userId)|;
      k := k + 1;
    }
    return Some(count);
  }

  /** What is left after the first `k` batches are deleted. */
  ghost predicate RemovedBefore(batches: seq<seq<string>>, k: nat, table: ShowTable, table1: ShowTable)
    requires k <= |batches|
  {
    SubTable(table1, table) && forall id :: id in table1 <==> id in table && id !in Flatten(batches[..k])
  }

  /** The delete query of batch `k` removes exactly the batch's ids not
      removed before. */
  lemma DeleteRemovesNew(batches: seq<seq<string>>, k: nat, table: ShowTable, table1: ShowTable, userId: string)
    requires k < |batches|
    requires forall id :: id in Flatten(batches) ==> id in table && table[id] == userId
    requires RemovedBefore(batches, k, table, table1)
    ensures Owned(batches[k], table1, userId) == Elems(batches[k]) - Elems(Flatten(batches[..k]))
  {
    forall id | id in batches[k]
      ensures id in Owned(batches[k], table1, userId) <==> id !in Flatten(batches[..k])
    {
      FlattenMember(batches, k, id);
    }
  }

  lemma FlattenNext<T>(batches: seq<seq<T>>, k: nat)
    requires k < |batches|
    ensures Flatten(batches[..k + 1]) == Flatten(batches[..k]) + batches[k]
  {
    assert batches[..k + 1] == batches[..k] + [batches[k]];
    FlattenAppend(batches[..k], batches[k]);
  }

  /** One delete query keeps the loop's bookkeeping: the rows of the first
      `k + 1` batches are gone, and the count grows by the ids not seen
      before. */
  lemma DeleteStep(batches: seq<seq<string>>, k: nat, table: ShowTable, table1: ShowTable, userId: string, count: nat)
    requires k < |batches|
    requires forall id :: id in Flatten(batches) ==> id in table && table[id] == userId
    requires RemovedBefore(batches, k, table, table1)
    requires count == |Elems(Flatten(batches[..k]))|
    ensures RemovedBefore(batches, k + 1, table, table1 - Owned(batches[k], table1, userId))
    ensures count + |Owned(batches[k], table1, userId)| == |Elems(Flatten(batches[..k + 1]))|
  {
    DeleteRemovesNew(batches, k, table, table1, userId);
    FlattenNext(batches, k);
    RemovedNext(batches, k, table, table1, Owned(batches[k], table1, userId));
    var before := Elems(Flatten(batches[..k]));
    var gone := Owned(batches[k], table1, userId);
    assert Elems(Flatten(batches[..k + 1])) == before + gone by {
      ElemsAppend(Flatten(batches[..k]), batches[k]);
    }
    assert before * gone == {};
  }

  /** Removing the next batch's new ids extends what is removed by that
      batch. */
  lemma RemovedNext(batches: seq<seq<string>>, k: nat, table: ShowTable, table1: ShowTable, gone: set<string>)
    requires k < |batches|
    requires RemovedBefore(batches, k, table, table1)
    requires gone == Elems(batches[k]) - Elems(Flatten(batches[..k]))
    requires Flatten(batches[..k + 1]) == Flatten(batches[..k]) + batches[k]
    ensures RemovedBefore(batches, k + 1, table, table1 - gone)
  {
  }

  lemma ElemsAppend(a: seq<string>, b: seq<string>)
    ensures Elems(a + b) == Elems(a) + Elems(b)
  {
  }

  /** The delete loop over batches of ids that are all the user's: `None`
      when the query of batch `deleteFailsAt` fails, after the batches
      before it are gone. */
  method DeleteBatches(batches: seq<seq<string>>, table: ShowTable, userId: string, deleteFailsAt: Option<nat>)
    returns (deletedCount: Option<nat>, table1: ShowTable)
    requires forall id :: id in Flatten(batches) ==> id in table && table[id] == userId
    ensures SubTable(table1, table)
    ensures deletedCount.None? <==> deleteFailsAt.Some? && deleteFailsAt.value < |batches|
    ensures deletedCount.None? ==>
              forall id :: id in table1 <==> id in table && id !in Flatten(batches[..deleteFailsAt.value])
    ensures deletedCount.Some? ==>
              (forall id :: id in table1 <==> id in table && id !in Flatten(batches))
              && deletedCount.value == |Elems(Flatten(batches))|
  {
    table1 := table;
    var count := 0;
    var k := 0;
    assert batches[..0] == [];
    while k < |batches|
      invariant 0 <= k <= |batches|
      invariant RemovedBefore(batches, k, table, table1)
      invariant count == |Elems(Flatten(batches[..k]))|
      invariant !(deleteFailsAt.Some? && deleteFailsAt.value < k)
    {
      if deleteFailsAt == Some(k) {
        return None, table1;
      }
      var gone := Owned(batches[k], table1, userId);
      DeleteStep(batches, k, table, table1, userId, count);
      table1 := table1 - gone;
      count := count + |gone|;
      k := k + 1;
    }
    assert batches[..|batches|] == batches;
    return Some(count), table1;
  }

  /** `POST /api/shows/bulk-delete`. `verifyFailsAt` and `deleteFailsAt`
      name the batch whose query fails, if any. There is no transaction: a
      failed delete leaves the earlier batches deleted. */
  method HandleBulkDelete(user: Option<string>, body: DeleteBody, table: ShowTable,
                          verifyFailsAt: Option<nat>, deleteFailsAt: Option<nat>)
    returns (resp: DeleteResponse, table1: ShowTable)
    ensures user.None? ==> resp == Unauthorized
    ensures user.Some? && !HasIds(body) ==> resp == IdsRequired || resp == InternalError
    ensures resp != DeleteFailed && !resp.Deleted? ==> table1 == table
    ensures SubTable(table1, table)
    ensures forall id :: id in table && id !in table1 ==>
              user.Some? && table[id] == user.value && HasIds(body) && id in body.showIds.value
    ensures resp == VerifyFailed ==> HasIds(body) && FailsWithin(verifyFailsAt, |body.showIds.value|)
    ensures resp == NotAllOwned ==>
              HasIds(body) && !(Distinct(body.showIds.value) &&
                forall id :: id in body.showIds.value ==> id in table && table[id] == user.value)
    ensures resp == DeleteFailed ==>
              HasIds(body) && FailsWithin(deleteFailsAt, |body.showIds.value|) &&
              deleteFailsAt.value * BatchSize <= |body.showIds.value| &&
              forall id :: id in table1 <==>
                id in table && id !in body.showIds.value[..deleteFailsAt.value * BatchSize]
    ensures resp.Deleted? ==>
              user.Some? && HasIds(body)
              && !FailsWithin(verifyFailsAt, |body.showIds.value|)
              && !FailsWithin(deleteFailsAt, |body.showIds.value|)
              && (forall id :: id in body.showIds.value ==> id in table && table[id] == user.value)
              && (forall id :: id in table1 <==> id in table && id !in body.showIds.value)
              && resp.count == |Elems(body.showIds.value)|
    ensures user.Some? && HasIds(body) && Distinct(body.showIds.value)
            && (forall id :: id in body.showIds.value ==> id in table && table[id] == user.value)
            && !FailsWithin(verifyFailsAt, |body.showIds.value|)
            && !FailsWithin(deleteFailsAt, |body.showIds.value|)
            ==> resp.Deleted?
  {
    if user.None? {
      return Unauthorized, table;
    }
    if body.Unparsable? {
      return InternalError, table;
    }
    if body.showIds.None? || |body.showIds.value| == 0 {
      return IdsRequired, table;
    }
    var userId := user.value;
    var ids := body.showIds.value;
    var batches := ChunkArray(ids, BatchSize);

    var verifiedCount := VerifyBatches(batches, table, userId, verifyFailsAt);
    if verifiedCount.None? {
      return VerifyFailed, table;
    }
    VerifiedCountExact(batches, table, userId);
    if Distinct(ids) && forall id :: id in ids ==> id in table && table[id] == userId {
      DistinctOwnedTight(batches, table, userId);
    }
    if verifiedCount.value != |ids| {
      return NotAllOwned, table;
    }
    TightMeansOwned(batches, table, userId);

    var deletedCount;
    deletedCount, table1 := DeleteBatches(batches, table, userId, deleteFailsAt);
    if deletedCount.None? {
      FullPrefix(batches, BatchSize, deleteFailsAt.value);
      return DeleteFailed, table1;
    }
    return Deleted(deletedCount.value), table1;
  }

  lemma {:induction false} FlattenMember(batches: seq<seq<string>>, k: nat, id: string)
    requires k < |batches| && id in batches[k]
    ensures id in Flatten(batches)
  {
    if k > 0 {
      FlattenMember(batches[1..], k - 1, id);
    }
  }
}
