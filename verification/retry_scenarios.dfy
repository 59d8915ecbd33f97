/** Consequences of the delivery contract for particular response patterns:
    a first success, an authorization failure, exhausted attempts, and the
    sequences [503, 503, 200], [401], [400, 200] and four 400s. */
module RetryScenarios {
  import opened BulkText
  import opened Shipper

  /** The attempt count is fixed by the first response that is not retryable. */
  lemma StopsAfterUnique(responses: seq<Response>, k: nat, n: nat)
    requires k < MaxTries
    requires !Retryable(ResponseAt(responses, k))
    requires forall j :: 0 <= j < k ==> Retryable(ResponseAt(responses, j))
    requires StopsAfter(responses, 0, n)
    ensures n == k + 1
  {
    var last: nat := n - 1;
    assert last < k ==> Retryable(ResponseAt(responses, last));
    assert last > k ==> Retryable(ResponseAt(responses, k));
  }

  /** The loop stops at the first 200: k+1 POSTs, k sleeps, no final backup
      (only the backups of earlier 400s). */
  lemma FirstSuccessStops(batch: seq<string>, responses: seq<Response>, k: nat)
    requires k < MaxTries
    requires ResponseAt(responses, k) == Status(200)
    requires forall j :: 0 <= j < k ==> Retryable(ResponseAt(responses, j))
    ensures var d := Drain(batch, responses);
            && d.exit == Succeeded
            && Posts(d.trace) == k + 1
            && Sleeps(d.trace) == BackoffSchedule[..k]
            && Backups(d.trace) == Count400(responses, k)
  {
    var d := Drain(batch, responses);
    StopsAfterUnique(responses, k, Posts(d.trace));
  }

  /** A 401 ends the loop after that attempt without a sleep; the success
      flag stays false, so one final backup of the whole batch follows. */
  lemma UnauthorizedStops(batch: seq<string>, responses: seq<Response>, k: nat)
    requires k < MaxTries
    requires ResponseAt(responses, k) == Status(401)
    requires forall j :: 0 <= j < k ==> Retryable(ResponseAt(responses, j))
    ensures var d := Drain(batch, responses);
            && d.exit == Unauthorized
            && Posts(d.trace) == k + 1
            && Sleeps(d.trace) == BackoffSchedule[..k]
            && Backups(d.trace) == Count400(responses, k) + 1
            && |d.trace| >= 2
            && d.trace[|d.trace| - 2..] == [Post(RequestBody(batch)), Backup(batch)]
  {
    var d := Drain(batch, responses);
    StopsAfterUnique(responses, k, Posts(d.trace));
    UnauthorizedEnding(batch, responses);
  }

  /** A drain that ends on a 401 ends with the POST that got it and the
      final backup. */
  lemma UnauthorizedEnding(batch: seq<string>, responses: seq<Response>)
    ensures var d := Drain(batch, responses);
            d.exit == Unauthorized ==>
              |d.trace| >= 2 && d.trace[|d.trace| - 2..] == [Post(RequestBody(batch)), Backup(batch)]
  {
    var loop := Attempt(batch, responses, 0, BaseDelay);
    UnauthorizedTail(batch, responses, 0, BaseDelay);
    if loop.exit == Unauthorized {
      var t := loop.trace + [Backup(batch)];
      assert t[|t| - 2..] == [loop.trace[|loop.trace| - 1], Backup(batch)];
    }
  }

  /** The loop's trace ends with the POST that got the 401. */
  lemma {:induction false} UnauthorizedTail(batch: seq<string>, responses: seq<Response>, a: nat, delay: int)
    requires a < MaxTries
    decreases MaxTries - a
    ensures var d := Attempt(batch, responses, a, delay);
            d.exit == Unauthorized ==> |d.trace| >= 1 && d.trace[|d.trace| - 1] == Post(RequestBody(batch))
  {
    AttemptStep(batch, responses, a, delay);
    if Retryable(ResponseAt(responses, a)) && a + 1 < MaxTries {
      UnauthorizedTail(batch, responses, a + 1, delay * 2);
    }
  }

  /** Four retryable responses: four POSTs, the full doubling schedule
      (a sleep after the last attempt too), and one final backup on top of
      one per 400. */
  lemma ExhaustedRetries(batch: seq<string>, responses: seq<Response>)
    requires forall j :: 0 <= j < MaxTries ==> Retryable(ResponseAt(responses, j))
    ensures var d := Drain(batch, responses);
            && d.exit == Exhausted
            && Posts(d.trace) == MaxTries
            && Sleeps(d.trace) == BackoffSchedule
            && Backups(d.trace) == Count400(responses, MaxTries) + 1
            && d.trace[|d.trace| - 1] == Backup(batch)
  {
    var d := Drain(batch, responses);
    var n := Posts(d.trace);
    assert Retryable(ResponseAt(responses, n - 1));
  }

  /** Responses [503, 503, 200]: three POSTs, sleeps of 2000 and 4000, no
      backup. */
  lemma TwoFailuresThenSuccess(batch: seq<string>)
    ensures var d := Drain(batch, [Status(503), Status(503), Status(200)]);
            && d.exit == Succeeded && Posts(d.trace) == 3
            && Sleeps(d.trace) == [2000, 4000] && Backups(d.trace) == 0
  {
    FirstSuccessStops(batch, [Status(503), Status(503), Status(200)], 2);
  }

  /** Responses [401]: one POST, no sleep, and the final backup of the batch. */
  lemma SingleUnauthorized(batch: seq<string>)
    ensures Drain(batch, [Status(401)]).trace == [Post(RequestBody(batch)), Backup(batch)]
    ensures Drain(batch, [Status(401)]).exit == Unauthorized
  {
  }

  /** Responses [400, 200]: the batch is backed up after the 400 although
      the retry then delivers it. */
  lemma BadRequestThenSuccess(batch: seq<string>)
    ensures var d := Drain(batch, [Status(400), Status(200)]);
            && d.exit == Succeeded
            && d.trace == [Post(RequestBody(batch)), Backup(batch), Sleep(BaseDelay), Post(RequestBody(batch))]
  {
  }

  /** Four 400s: four backups in the loop plus the final one. */
  lemma RepeatedBadRequests(batch: seq<string>)
    ensures var d := Drain(batch, [Status(400), Status(400), Status(400), Status(400)]);
            d.exit == Exhausted && Backups(d.trace) == 5
  {
    ExhaustedRetries(batch, [Status(400), Status(400), Status(400), Status(400)]);
  }
}
