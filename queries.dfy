/**
  The shape shared by every accessor of the storage layer (server/storage.ts):
  the query runs under `withRetry` with the default policy (3 attempts, 1000 ms
  base delay); a DatabaseError that escapes is rethrown as it is, anything
  else goes through `handleDatabaseError`.

  A query is modelled by its fault script: its first `|faults|` calls throw
  those values and every later call returns the query's value, computed from
  the tables as they are. Writes happen on the call that returns.
 */
module Queries {
  import opened Wrappers
  import opened Text
  import opened Seqs
  import opened DbUtils
  import opened Schema

  /** A query whose first `|faults|` calls throw and whose later calls return `value`. */
  function Flaky<T>(faults: seq<Thrown>, value: T): nat -> Outcome<T> {
    (i: nat) => if i < |faults| then Threw(faults[i]) else Returned(value)
  }

  /** The catch block of an accessor: a DatabaseError passes through, anything else is classified. */
  function Settle<T>(result: Result<T, Thrown>, operation: string): (r: Result<T, DatabaseError>)
    ensures r.Ok? <==> result.Ok?
    ensures r.Ok? ==> r.value == result.value
    ensures result.Err? && result.error.Database? ==> r.error == result.error.err
    ensures result.Err? && !result.error.Database? ==>
              r.error.originalError == Some(result.error)
              && r.error.isConnectionError == IsDatabaseConnectionError(result.error)
  {
    match result
    case Ok(v) => Ok(v)
    case Err(Database(e)) => Err(e)
    case Err(e) => Err(HandleDatabaseError(e, operation))
  }

  /** Under the retry loop, a query that returns only `value` can only return `value`. */
  lemma {:induction false} FlakyReturnsValue<T>(faults: seq<Thrown>, value: T, attempt: nat, maxRetries: int,
                                                delayMs: int, lastError: Option<Thrown>)
    requires attempt >= 1
    ensures var run := RetryFrom(Flaky(faults, value), attempt, maxRetries, delayMs, lastError);
            run.result.Ok? ==> run.result.value == value
    decreases if attempt <= maxRetries then maxRetries - attempt + 1 else 0
  {
    var op := Flaky(faults, value);
    if attempt <= maxRetries && op(attempt - 1).Threw? && IsDatabaseConnectionError(op(attempt - 1).error) {
      RetryStep(op, attempt, maxRetries, delayMs, lastError);
      FlakyReturnsValue(faults, value, attempt + 1, maxRetries, delayMs, Some(op(attempt - 1).error));
    }
  }

  /** Whether a query with this fault script gets through its retries, whatever it computes. */
  predicate GoesThrough(faults: seq<Thrown>) {
    Retry(Flaky(faults, ())).result.Ok?
  }

  /** The DatabaseError an accessor named `operation` throws when its retries do not get through. */
  function Failure(faults: seq<Thrown>, operation: string): DatabaseError
    requires !GoesThrough(faults)
  {
    Settle(Retry(Flaky(faults, ())).result, operation).error
  }

  /** Whether and how the retry loop fails depends on the fault script only, not on the query's value. */
  lemma {:induction false} FlakyFailureIgnoresValue<T>(faults: seq<Thrown>, value: T, attempt: nat, maxRetries: int,
                                                       delayMs: int, lastError: Option<Thrown>)
    requires attempt >= 1
    ensures var run := RetryFrom(Flaky(faults, value), attempt, maxRetries, delayMs, lastError).result;
            var probe := RetryFrom(Flaky(faults, ()), attempt, maxRetries, delayMs, lastError).result;
            run.Ok? == probe.Ok? && (run.Err? ==> run.error == probe.error)
    decreases if attempt <= maxRetries then maxRetries - attempt + 1 else 0
  {
    var op, probe := Flaky(faults, value), Flaky(faults, ());
    if attempt <= maxRetries && op(attempt - 1).Threw? && IsDatabaseConnectionError(op(attempt - 1).error) {
      RetryStep(op, attempt, maxRetries, delayMs, lastError);
      RetryStep(probe, attempt, maxRetries, delayMs, lastError);
      FlakyFailureIgnoresValue(faults, value, attempt + 1, maxRetries, delayMs, Some(op(attempt - 1).error));
    }
  }

  /**
    An accessor's result fits its fault script: it returns when the retries
    get through, and otherwise throws the failure of its operation.
   */
  predicate Settled<T>(r: Result<T, DatabaseError>, faults: seq<Thrown>, operation: string) {
    && (r.Ok? <==> GoesThrough(faults))
    && (r.Err? ==> r.error == Failure(faults, operation))
  }

  /**
    One accessor call whose query computes `value`: it returns exactly that
    value when the retries get through, and otherwise throws a DatabaseError
    that depends on the faults and the operation name only.
   */
  function Access<T>(faults: seq<Thrown>, value: T, operation: string): (r: Result<T, DatabaseError>)
    ensures Settled(r, faults, operation)
    ensures r.Ok? ==> r.value == value
  {
    FlakyReturnsValue(faults, value, 1, 3, 1000, None);
    FlakyFailureIgnoresValue(faults, value, 1, 3, 1000, None);
    Settle(Retry(Flaky(faults, value)).result, operation)
  }

  /** A query without faults goes through on its first call. */
  lemma NoFaultsGoThrough()
    ensures GoesThrough([])
  {
    RetryImmediateSuccess(Flaky([], ()), 3, 1000, ());
  }

  /** The first `k` scripted faults are connection errors. */
  ghost predicate TransientPrefix(faults: seq<Thrown>, k: nat) {
    k <= |faults| && forall i :: 0 <= i < k ==> IsDatabaseConnectionError(faults[i])
  }

  /** Fewer than three faults, all of them connection errors, are retried away. */
  lemma AccessRecovers<T>(faults: seq<Thrown>, value: T, operation: string)
    requires |faults| < 3 && TransientPrefix(faults, |faults|)
    ensures Access(faults, value, operation) == Ok(value)
  {
    RetryReturnsFirstSuccess(Flaky(faults, value), 3, 1000, |faults|, value);
  }

  /** Three connection failures in a row exhaust the retries: a flagged DatabaseError carries the third. */
  lemma AccessExhausted<T>(faults: seq<Thrown>, value: T, operation: string)
    requires TransientPrefix(faults, 3)
    ensures Access(faults, value, operation)
            == Err(DatabaseError("Database operation failed after 3 attempts", Some(faults[2]), true))
  {
    var op := Flaky(faults, value);
    RetryExhausted(op, 3, 1000);
    assert op(2).error == faults[2];
    assert IntToDecimal(3) == "3";
    assert ExhaustedMessage(3) == "Database operation failed after 3 attempts";
  }

  /**
    A DatabaseError that is not a connection error, thrown after `k` connection
    failures, reaches the caller unchanged: it is not wrapped a second time.
   */
  lemma AccessPassesDatabaseError<T>(faults: seq<Thrown>, value: T, operation: string, k: nat)
    requires k < 3 && k < |faults| && TransientPrefix(faults, k)
    requires faults[k].Database? && !IsDatabaseConnectionError(faults[k])
    ensures Access(faults, value, operation) == Err(faults[k].err)
  {
    RetryRethrowsPermanentError(Flaky(faults, value), 3, 1000, k, faults[k]);
  }

  /**
    Any other failure that is not a connection error, thrown after `k`
    connection failures, surfaces as a DatabaseError that is not flagged as a
    connection error and names the operation.
   */
  lemma AccessWrapsPermanentError<T>(faults: seq<Thrown>, value: T, operation: string, k: nat)
    requires k < 3 && k < |faults| && TransientPrefix(faults, k)
    requires !faults[k].Database? && !IsDatabaseConnectionError(faults[k])
    ensures Access(faults, value, operation)
            == Err(DatabaseError(ErrorPrefix + operation, Some(faults[k]), false))
  {
    RetryRethrowsPermanentError(Flaky(faults, value), 3, 1000, k, faults[k]);
  }

  /** Whether an optional `conferenceId` argument is truthy: present and not the empty string. */
  predicate Given(conferenceId: Option<string>) {
    conferenceId.Some? && conferenceId.value != ""
  }

  /** A row of conference `rowConference` is in scope for the argument `conferenceId`. */
  predicate InScope(rowConference: string, conferenceId: Option<string>) {
    !Given(conferenceId) || rowConference == conferenceId.value
  }

  /**
    `where(eq(table.conferenceId, conferenceId))` when the argument is truthy,
    the whole table otherwise: each row in scope is kept as often as the table
    holds it, and no other row is.
   */
  function Scoped<T(!new)>(rows: seq<Row<T>>, conferenceOf: T -> string, conferenceId: Option<string>)
    : (r: seq<Row<T>>)
    ensures forall row :: multiset(r)[row] == if InScope(conferenceOf(row.data), conferenceId) then multiset(rows)[row] else 0
    ensures !Given(conferenceId) ==> r == rows
  {
    if Given(conferenceId) then Filter(rows, (row: Row<T>) => conferenceOf(row.data) == conferenceId.value)
    else rows
  }

  /** The first row with key `id`, as `const [row] = select ... where id = <id>` reads it. */
  function ByKey<T(!new)>(rows: seq<Row<T>>, id: string): (r: Option<Row<T>>)
    ensures r.None? <==> forall row :: row in rows ==> row.id != id
    ensures r.Some? ==> r.value in rows && r.value.id == id
  {
    First(rows, (row: Row<T>) => row.id == id)
  }

  /** In a table whose keys are distinct, the lookup by a row's key finds that very row. */
  lemma ByKeyFindsTheRow<T(!new)>(rows: seq<Row<T>>, bound: nat, row: Row<T>)
    requires WellKeyed(rows, bound) && row in rows
    ensures ByKey(rows, row.id) == Some(row)
  {
    var found := ByKey(rows, row.id).value;
    var i :| 0 <= i < |rows| && rows[i] == row;
    var j :| 0 <= j < |rows| && rows[j] == found;
    assert i == j;
  }

  /**
    A row inserted under the next key is what the lookup by that key returns:
    no earlier row holds the key.
   */
  lemma InsertedRowIsFound<T(!new)>(rows: seq<Row<T>>, bound: nat, x: T)
    requires WellKeyed(rows, bound)
    ensures ByKey(rows + [Row(KeyOf(bound), x)], KeyOf(bound)) == Some(Row(KeyOf(bound), x))
  {
    WellKeyedAppend(rows, bound, x);
    ByKeyFindsTheRow(rows + [Row(KeyOf(bound), x)], bound + 1, Row(KeyOf(bound), x));
  }

  /** The sort key of `orderBy(desc(doorPrizes.timestamp))`: newest first. */
  function NewestFirst(row: Row<DoorPrize>): int {
    -row.data.timestamp
  }

  /** The sort key of `orderBy(asc(tHuntingWinners.rank))`. */
  function RankOrder(row: Row<THuntingWinner>): int {
    row.data.rank
  }
  /** The door prizes in scope for `conferenceId`, newest first. */
  function PrizesNewestFirst(rows: seq<Row<DoorPrize>>, conferenceId: Option<string>): (r: seq<Row<DoorPrize>>)
    ensures forall row :: multiset(r)[row]
                          == if InScope(row.data.conferenceId, conferenceId) then multiset(rows)[row] else 0
    ensures forall i, j :: 0 <= i < j < |r| ==> r[i].data.timestamp >= r[j].data.timestamp
  {
    var r := SortBy(Scoped(rows, (p: DoorPrize) => p.conferenceId, conferenceId), NewestFirst);
    assert forall i, j :: 0 <= i < j < |r| ==> NewestFirst(r[i]) <= NewestFirst(r[j]);
    r
  }

  /** The T-hunt winners in scope for `conferenceId`, by ascending rank. */
  function WinnersByRank(rows: seq<Row<THuntingWinner>>, conferenceId: Option<string>): (r: seq<Row<THuntingWinner>>)
    ensures forall row :: multiset(r)[row]
                          == if InScope(row.data.conferenceId, conferenceId) then multiset(rows)[row] else 0
    ensures forall i, j :: 0 <= i < j < |r| ==> r[i].data.rank <= r[j].data.rank
  {
    var r := SortBy(Scoped(rows, (w: THuntingWinner) => w.conferenceId, conferenceId), RankOrder);
    assert forall i, j :: 0 <= i < j < |r| ==> RankOrder(r[i]) <= RankOrder(r[j]);
    r
  }
}
