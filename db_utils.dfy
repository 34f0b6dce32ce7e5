/**
  The database retry and error-classification layer (server/dbUtils.ts).

  A database operation is modelled by what each of its calls does: `op(i)` is
  the outcome of the (i+1)-th call, either a returned value or a thrown value.
  Instead of sleeping, the retry loop records how many calls it made and the
  delays (in milliseconds) it asked for between them.
 */
module DbUtils {
  import opened Wrappers
  import opened Text

  /** A value thrown by a database operation. */
  datatype Thrown =
    | PlainError(message: string)   // an `Error` instance other than a DatabaseError
    | Database(err: DatabaseError)  // a DatabaseError, which is also an `Error`
    | NonError(value: string)       // a thrown value that is not an `Error` at all

  /**
    The typed error of the storage layer. `originalError` is `None` when the
    cause is `undefined`; the flag defaults to false, as in the constructor.
   */
  datatype DatabaseError = DatabaseError(
    message: string,
    originalError: Option<Thrown> := None,
    isConnectionError: bool := false)

  /** A DatabaseError built without a flag is not a connection error. */
  lemma DefaultIsNotConnection(message: string, cause: Option<Thrown>)
    ensures !DatabaseError(message, cause).isConnectionError
    ensures DatabaseError(message, cause).originalError == cause
  {
  }

  /** The lower-case substrings that mark a message as a connection problem. */
  const ConnectionMarkers: seq<string> := [
    "connection", "timeout", "econnrefused", "enotfound", "network",
    "socket", "unavailable", "too many clients", "connection terminated"
  ]

  /** `error.message` for a thrown `Error`; nothing for any other thrown value. */
  function ErrorMessage(error: Thrown): Option<string> {
    match error
    case PlainError(m) => Some(m)
    case Database(e) => Some(e.message)
    case NonError(_) => None
  }

  /** The lower-cased message mentions one of the connection markers. */
  ghost predicate MentionsMarker(message: string) {
    exists marker :: marker in ConnectionMarkers && Contains(Lower(message), marker)
  }

  /** `isDatabaseConnectionError`: a case-insensitive substring test on an Error's message. */
  function IsDatabaseConnectionError(error: Thrown): (r: bool)
    ensures r ==> ErrorMessage(error).Some?
    ensures r ==> |ErrorMessage(error).value| >= |"socket"|
  {
    match ErrorMessage(error)
    case None => false
    case Some(m) =>
      var message := Lower(m);
      var verdict := Contains(message, "connection")
        || Contains(message, "timeout")
        || Contains(message, "econnrefused")
        || Contains(message, "enotfound")
        || Contains(message, "network")
        || Contains(message, "socket")
        || Contains(message, "unavailable")
        || Contains(message, "too many clients")
        || Contains(message, "connection terminated");
      verdict
  }

  /** An error is a connection error exactly when it is an `Error` whose message mentions a marker. */
  lemma ConnectionErrorIffMarker(error: Thrown)
    ensures IsDatabaseConnectionError(error)
            <==> ErrorMessage(error).Some? && MentionsMarker(ErrorMessage(error).value)
  {
  }

  /** Whatever its text, a thrown value that is not an `Error` is never a connection error. */
  lemma NonErrorIsNotConnection(value: string)
    ensures !IsDatabaseConnectionError(NonError(value))
  {
  }

  /** Classification ignores letter case. */
  lemma ClassificationIgnoresCase(m1: string, m2: string)
    requires Lower(m1) == Lower(m2)
    ensures IsDatabaseConnectionError(PlainError(m1)) == IsDatabaseConnectionError(PlainError(m2))
  {
  }

  /** The last marker is implied by the first, so it never changes the classification. */
  lemma {:induction false} TerminatedMarkerRedundant(message: string)
    ensures Contains(message, "connection terminated") ==> Contains(message, "connection")
  {
    if Contains(message, "connection terminated") {
      var i :| OccursAt(message, "connection terminated", i);
      assert message[i..i + 10] == message[i..i + 21][..10];
      assert OccursAt(message, "connection", i);
    }
  }

  /** The message of the error thrown when the retries run out. */
  function ExhaustedMessage(maxRetries: int): string {
    "Database operation failed after " + IntToDecimal(maxRetries) + " attempts"
  }

  /** What one call of the operation does. */
  datatype Outcome<T> = Returned(value: T) | Threw(error: Thrown)

  /** What a retried operation did: its result, the calls made and the delays requested. */
  datatype RetryRun<T> = RetryRun(result: Result<T, Thrown>, calls: nat, delays: seq<int>)

  /** A run preceded by `calls` earlier calls that requested `delays`. */
  function After<T>(calls: nat, delays: seq<int>, run: RetryRun<T>): RetryRun<T> {
    RetryRun(run.result, calls + run.calls, delays + run.delays)
  }

  /**
    The retry policy from attempt `attempt` on, `lastError` being the error of
    the previous attempt: success returns at once, a non-connection error is
    rethrown at once, a connection error waits `delayMs * attempt` (except after
    the last attempt) and tries again; after `maxRetries` attempts a flagged
    DatabaseError carrying the last error is thrown.
   */
  function RetryFrom<T>(op: nat -> Outcome<T>, attempt: nat, maxRetries: int, delayMs: int,
                        lastError: Option<Thrown>): (r: RetryRun<T>)
    requires attempt >= 1
    ensures attempt > maxRetries <==> r.calls == 0
    ensures r.result.Ok? ==> r.calls >= 1 && op(attempt + r.calls - 2) == Returned(r.result.value)
    decreases if attempt <= maxRetries then maxRetries - attempt + 1 else 0
  {
    if attempt > maxRetries then
      RetryRun(Err(Database(DatabaseError(ExhaustedMessage(maxRetries), lastError, true))), 0, [])
    else
      match op(attempt - 1)
      case Returned(v) => RetryRun(Ok(v), 1, [])
      case Threw(e) =>
        if !IsDatabaseConnectionError(e) then RetryRun(Err(e), 1, [])
        else
          var wait := if attempt < maxRetries then [delayMs * attempt] else [];
          After(1, wait, RetryFrom(op, attempt + 1, maxRetries, delayMs, Some(e)))
  }

  /** `withRetry(operation, maxRetries, delayMs)`, as a function of what each call does. */
  function Retry<T>(op: nat -> Outcome<T>, maxRetries: int := 3, delayMs: int := 1000): (r: RetryRun<T>)
    ensures maxRetries < 1 <==> r.calls == 0
    ensures r.result.Ok? ==> r.calls >= 1 && op(r.calls - 1) == Returned(r.result.value)
  {
    RetryFrom(op, 1, maxRetries, delayMs, None)
  }

  /** `withRetry`: the loop over attempts, recording calls and requested delays. */
  method WithRetry<T>(op: nat -> Outcome<T>, maxRetries: int := 3, delayMs: int := 1000)
    returns (r: Result<T, Thrown>, calls: nat, delays: seq<int>)
    ensures RetryRun(r, calls, delays) == Retry(op, maxRetries, delayMs)
  {
    var lastError: Option<Thrown> := None;
    calls, delays := 0, [];
    var attempt := 1;
    ghost var goal := Retry(op, maxRetries, delayMs);
    assert delays + goal.delays == goal.delays;
    while attempt <= maxRetries
      invariant 1 <= attempt && calls == attempt - 1
      invariant maxRetries >= 1 ==> attempt <= maxRetries + 1
      invariant goal == After(calls, delays, RetryFrom(op, attempt, maxRetries, delayMs, lastError))
      decreases maxRetries - attempt
    {
      var stop, result, next, wait := Attempt(op, attempt, maxRetries, delayMs, lastError);
      if stop {
        r := result;
        calls := calls + 1;
        assert delays + [] == delays;
        return;
      }
      AfterAfter(calls, delays, 1, wait, RetryFrom(op, attempt + 1, maxRetries, delayMs, next));
      assert goal == After(calls + 1, delays + wait, RetryFrom(op, attempt + 1, maxRetries, delayMs, next));
      calls, delays, lastError := calls + 1, delays + wait, next;
      attempt := attempt + 1;
    }
    r := GiveUp(op, attempt, maxRetries, delayMs, lastError);
    assert delays + [] == delays;
  }

  /** After the last attempt: the flagged DatabaseError carrying the last error. */
  method GiveUp<T>(op: nat -> Outcome<T>, attempt: nat, maxRetries: int, delayMs: int, lastError: Option<Thrown>)
    returns (r: Result<T, Thrown>)
    requires 1 <= attempt && attempt > maxRetries
    ensures RetryFrom(op, attempt, maxRetries, delayMs, lastError) == RetryRun(r, 0, [])
  {
    r := Err(Database(DatabaseError(ExhaustedMessage(maxRetries), lastError, true)));
  }

  /**
    One attempt of the loop: it stops with the operation's value or its
    non-connection error, or records the connection error and the delay to
    wait before the next attempt (none after the last).
   */
  method Attempt<T>(op: nat -> Outcome<T>, attempt: nat, maxRetries: int, delayMs: int, lastError: Option<Thrown>)
    returns (stop: bool, r: Result<T, Thrown>, next: Option<Thrown>, wait: seq<int>)
    requires 1 <= attempt <= maxRetries
    ensures stop ==> RetryFrom(op, attempt, maxRetries, delayMs, lastError) == RetryRun(r, 1, [])
    ensures !stop ==> RetryFrom(op, attempt, maxRetries, delayMs, lastError)
                      == After(1, wait, RetryFrom(op, attempt + 1, maxRetries, delayMs, next))
  {
    var outcome := op(attempt - 1);
    if outcome.Returned? || !IsDatabaseConnectionError(outcome.error) {
      RetryStops(op, attempt, maxRetries, delayMs, lastError);
      stop, next, wait := true, lastError, [];
      r := if outcome.Returned? then Ok(outcome.value) else Err(outcome.error);
    } else {
      RetryStep(op, attempt, maxRetries, delayMs, lastError);
      stop, next := false, Some(outcome.error);
      r := Err(outcome.error);
      wait := if attempt < maxRetries then [delayMs * attempt] else [];
    }
  }

  /** The delays `delayMs * 1, ..., delayMs * n`: linear backoff. */
  function Backoff(delayMs: int, n: nat): (r: seq<int>)
    ensures |r| == n
    ensures forall i :: 0 <= i < n ==> r[i] == delayMs * (i + 1)
  {
    if n == 0 then [] else Backoff(delayMs, n - 1) + [delayMs * n]
  }

  /** The first `k` calls all throw connection errors. */
  ghost predicate ConnectionFailures<T>(op: nat -> Outcome<T>, k: nat) {
    forall i :: 0 <= i < k ==> op(i).Threw? && IsDatabaseConnectionError(op(i).error)
  }

  /** One attempt that fails with a connection error: record it, wait unless it was the last, go on. */
  lemma RetryStep<T>(op: nat -> Outcome<T>, attempt: nat, maxRetries: int, delayMs: int, lastError: Option<Thrown>)
    requires 1 <= attempt <= maxRetries
    requires op(attempt - 1).Threw? && IsDatabaseConnectionError(op(attempt - 1).error)
    ensures RetryFrom(op, attempt, maxRetries, delayMs, lastError)
            == After(1, if attempt < maxRetries then [delayMs * attempt] else [],
                     RetryFrom(op, attempt + 1, maxRetries, delayMs, Some(op(attempt - 1).error)))
  {
  }

  /** One attempt that returns, or throws anything but a connection error, ends the run. */
  lemma RetryStops<T>(op: nat -> Outcome<T>, attempt: nat, maxRetries: int, delayMs: int, lastError: Option<Thrown>)
    requires 1 <= attempt <= maxRetries
    requires op(attempt - 1).Returned? || !IsDatabaseConnectionError(op(attempt - 1).error)
    ensures RetryFrom(op, attempt, maxRetries, delayMs, lastError)
            == RetryRun(if op(attempt - 1).Returned? then Ok(op(attempt - 1).value) else Err(op(attempt - 1).error), 1, [])
  {
  }

  /** Two stretches of calls one after the other. */
  lemma AfterAfter<T>(c1: nat, d1: seq<int>, c2: nat, d2: seq<int>, run: RetryRun<T>)
    ensures After(c1, d1, After(c2, d2, run)) == After(c1 + c2, d1 + d2, run)
  {
    assert d1 + (d2 + run.delays) == (d1 + d2) + run.delays;
  }

  /** After `k < maxRetries` connection failures the loop has waited `delayMs * 1 .. delayMs * k`. */
  lemma {:induction false} RetryAfterFailures<T>(op: nat -> Outcome<T>, maxRetries: int, delayMs: int, k: nat)
    requires k < maxRetries
    requires ConnectionFailures(op, k)
    ensures Retry(op, maxRetries, delayMs)
            == After(k, Backoff(delayMs, k),
                     RetryFrom(op, k + 1, maxRetries, delayMs, if k == 0 then None else Some(op(k - 1).error)))
  {
    if k > 0 {
      RetryAfterFailures(op, maxRetries, delayMs, k - 1);
      var prev := if k == 1 then None else Some(op(k - 2).error);
      RetryStep(op, k, maxRetries, delayMs, prev);
      AfterAfter(k - 1, Backoff(delayMs, k - 1), 1, [delayMs * k],
                 RetryFrom(op, k + 1, maxRetries, delayMs, Some(op(k - 1).error)));
    }
  }

  /** The first success is returned, after exactly the calls before it, and no further call is made. */
  lemma RetryReturnsFirstSuccess<T>(op: nat -> Outcome<T>, maxRetries: int, delayMs: int, k: nat, v: T)
    requires k < maxRetries
    requires ConnectionFailures(op, k) && op(k) == Returned(v)
    ensures Retry(op, maxRetries, delayMs) == RetryRun(Ok(v), k + 1, Backoff(delayMs, k))
  {
    RetryAfterFailures(op, maxRetries, delayMs, k);
  }

  /** A first call that succeeds is the only call, with no delay. */
  lemma RetryImmediateSuccess<T>(op: nat -> Outcome<T>, maxRetries: int, delayMs: int, v: T)
    requires maxRetries >= 1 && op(0) == Returned(v)
    ensures Retry(op, maxRetries, delayMs) == RetryRun(Ok(v), 1, [])
  {
  }

  /** A non-connection error is rethrown unchanged, with no further call and no further wait. */
  lemma RetryRethrowsPermanentError<T>(op: nat -> Outcome<T>, maxRetries: int, delayMs: int, k: nat, e: Thrown)
    requires k < maxRetries
    requires ConnectionFailures(op, k) && op(k) == Threw(e) && !IsDatabaseConnectionError(e)
    ensures Retry(op, maxRetries, delayMs) == RetryRun(Err(e), k + 1, Backoff(delayMs, k))
  {
    RetryAfterFailures(op, maxRetries, delayMs, k);
  }

  /**
    When every attempt fails with a connection error, the operation is called
    exactly `maxRetries` times, the waits are `delayMs * 1 .. delayMs * (maxRetries - 1)`,
    and a flagged DatabaseError carrying the last failure is thrown.
   */
  lemma RetryExhausted<T>(op: nat -> Outcome<T>, maxRetries: int, delayMs: int)
    requires maxRetries >= 1
    requires ConnectionFailures(op, maxRetries)
    ensures Retry(op, maxRetries, delayMs)
            == RetryRun(Err(Database(DatabaseError(ExhaustedMessage(maxRetries), Some(op(maxRetries - 1).error), true))),
                        maxRetries, Backoff(delayMs, maxRetries - 1))
  {
    RetryAfterFailures(op, maxRetries, delayMs, maxRetries - 1);
    assert Backoff(delayMs, maxRetries - 1) + [] == Backoff(delayMs, maxRetries - 1);
  }

  /** With no attempts allowed the operation is never called; the error has no cause. */
  lemma RetryNoAttempts<T>(op: nat -> Outcome<T>, maxRetries: int, delayMs: int)
    requires maxRetries <= 0
    ensures Retry(op, maxRetries, delayMs)
            == RetryRun(Err(Database(DatabaseError(ExhaustedMessage(maxRetries), None, true))), 0, [])
  {
  }

  /** Every run makes at most `maxRetries` calls and requests one delay fewer than it makes calls. */
  lemma {:induction false} RetryBounds<T>(op: nat -> Outcome<T>, attempt: nat, maxRetries: int, delayMs: int,
                                          lastError: Option<Thrown>)
    requires 1 <= attempt
    ensures var run := RetryFrom(op, attempt, maxRetries, delayMs, lastError);
            && run.calls <= (if attempt <= maxRetries then maxRetries - attempt + 1 else 0)
            && |run.delays| == (if run.calls == 0 then 0 else run.calls - 1)
    decreases if attempt <= maxRetries then maxRetries - attempt + 1 else 0
  {
    if attempt <= maxRetries && op(attempt - 1).Threw? && IsDatabaseConnectionError(op(attempt - 1).error) {
      RetryStep(op, attempt, maxRetries, delayMs, lastError);
      RetryBounds(op, attempt + 1, maxRetries, delayMs, Some(op(attempt - 1).error));
    }
  }

  /** The prefix of the message thrown for a connection error. */
  const UnavailablePrefix: string := "Database temporarily unavailable during "

  /** The prefix of the message thrown for any other error. */
  const ErrorPrefix: string := "Database error during "

  /**
    `handleDatabaseError(error, operation)`: never returns normally; the
    DatabaseError it throws is classified like its cause and carries it.
   */
  function HandleDatabaseError(error: Thrown, operation: string): (thrown: DatabaseError)
    ensures thrown.isConnectionError == IsDatabaseConnectionError(error)
    ensures thrown.originalError == Some(error)
    ensures thrown.message == (if thrown.isConnectionError then UnavailablePrefix else ErrorPrefix) + operation
  {
    var isConnection := IsDatabaseConnectionError(error);
    DatabaseError(
      if isConnection then UnavailablePrefix + operation else ErrorPrefix + operation,
      Some(error),
      isConnection)
  }

  /** Lower-casing distributes over concatenation. */
  lemma LowerAppend(a: string, b: string)
    ensures Lower(a + b) == Lower(a) + Lower(b)
  {
  }

  /**
    A DatabaseError thrown for a connection error is itself classified as a
    connection error (its message says "unavailable"), so a retry loop around
    code that throws it keeps retrying.
   */
  lemma HandledConnectionErrorStaysConnection(error: Thrown, operation: string)
    requires IsDatabaseConnectionError(error)
    ensures IsDatabaseConnectionError(Database(HandleDatabaseError(error, operation)))
  {
    var m := HandleDatabaseError(error, operation).message;
    LowerAppend(UnavailablePrefix, operation);
    var lowered := Lower(m);
    assert lowered[21..32] == "unavailable";
    assert OccursAt(lowered, ConnectionMarkers[6], 21);
  }
}
