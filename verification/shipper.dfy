/** The delivery and retry state machine of `drain_messages`: POST the batch,
    classify the status code, back off, and fall back to a backup file.
    The network is an input sequence of responses and every side effect
    (POST, sleep, backup) is an event of the returned trace. */
module Shipper {
  import opened BulkText

  /** Initial back-off, as passed to `time.sleep` (which counts seconds). */
  const BaseDelay: int := 2000

  /** Attempts the loop makes at most. */
  const MaxTries: nat := 4

  /** The delays of the four possible sleeps, in order. */
  const BackoffSchedule: seq<int> := [2000, 4000, 8000, 16000]

  /** What `requests.post` gives back for one attempt: a status code, or an
      exception (connection error, timeout, ...) that `drain_messages`
      does not catch. */
  datatype Response = Status(code: int) | ConnectionFailure

  /** One observable side effect of a drain. */
  datatype Event =
    | Post(body: string)          // one HTTP POST to the bulk endpoint
    | Sleep(seconds: int)         // one back-off `time.sleep`
    | Backup(lines: seq<string>)  // one `backup_logs` call with these lines

  /** How the retry loop ended. */
  datatype Exit =
    | Succeeded      // a 200 arrived
    | Unauthorized   // a 401 broke out of the loop
    | Exhausted      // every attempt got some other status code
    | Raised         // `requests.post` raised; the exception leaves the drain

  datatype Delivery = Delivery(trace: seq<Event>, exit: Exit)

  /** The response to attempt `i`; past the end of the input the endpoint is
      unreachable. */
  function ResponseAt(responses: seq<Response>, i: nat): Response
  {
    if i < |responses| then responses[i] else ConnectionFailure
  }

  /** A response after which the loop sleeps and tries again. */
  predicate Retryable(r: Response)
  {
    r.Status? && r.code != 200 && r.code != 401
  }

  function Pow2(k: nat): nat
  {
    if k == 0 then 1 else 2 * Pow2(k - 1)
  }

  /** The retry loop from attempt `attempt` on, with `delay` the value of
      `sleep_between_retries` at that point. */
  function Attempt(batch: seq<string>, responses: seq<Response>, attempt: nat, delay: int): Delivery
    requires attempt <= MaxTries
    decreases MaxTries - attempt
  {
    if attempt == MaxTries then Delivery([], Exhausted)
    else
      var post := Post(RequestBody(batch));
      match ResponseAt(responses, attempt)
      case ConnectionFailure => Delivery([post], Raised)
      case Status(code) =>
        if code != 200 then
          var backup := if code == 400 then [Backup(batch)] else [];
          if code == 401 then Delivery([post] + backup, Unauthorized)
          else
            var rest := Attempt(batch, responses, attempt + 1, delay * 2);
            Delivery([post] + backup + [Sleep(delay)] + rest.trace, rest.exit)
        else Delivery([post], Succeeded)
  }

  // ---- Observations of a trace ----

  function Posts(t: seq<Event>): nat
  {
    if |t| == 0 then 0 else (if t[0].Post? then 1 else 0) + Posts(t[1..])
  }

  function Backups(t: seq<Event>): nat
  {
    if |t| == 0 then 0 else (if t[0].Backup? then 1 else 0) + Backups(t[1..])
  }

  /** The durations of the sleeps, in order. */
  function Sleeps(t: seq<Event>): seq<int>
  {
    if |t| == 0 then [] else (if t[0].Sleep? then [t[0].seconds] else []) + Sleeps(t[1..])
  }

  /** Every POST sends the body of `batch` and every backup saves `batch`. */
  predicate CarriesBatch(t: seq<Event>, batch: seq<string>)
  {
    forall i :: 0 <= i < |t| ==>
      (t[i].Post? ==> t[i].body == RequestBody(batch)) &&
      (t[i].Backup? ==> t[i].lines == batch)
  }

  /** Number of 400 responses among the first `n` attempts. */
  function Count400(responses: seq<Response>, n: nat): nat
  {
    if n == 0 then 0
    else Count400(responses, n - 1) + (if ResponseAt(responses, n - 1) == Status(400) then 1 else 0)
  }

  /** Reference description of the attempt count: started at attempt `a`, the
      loop makes exactly `n` POSTs when every response but the last one is
      retryable, and the last one is not retryable unless the attempts ran out. */
  predicate StopsAfter(responses: seq<Response>, a: nat, n: nat)
  {
    && 1 <= n && a + n <= MaxTries
    && (forall j :: a <= j < a + n - 1 ==> Retryable(ResponseAt(responses, j)))
    && (a + n < MaxTries ==> !Retryable(ResponseAt(responses, a + n - 1)))
  }

  /** How the loop ends, read off the response to its last attempt. */
  function ExitFor(r: Response): Exit
  {
    match r
    case ConnectionFailure => Raised
    case Status(code) =>
      if code == 200 then Succeeded else if code == 401 then Unauthorized else Exhausted
  }

  lemma {:induction false} PostsAppend(s: seq<Event>, t: seq<Event>)
    ensures Posts(s + t) == Posts(s) + Posts(t)
  {
    if |s| == 0 {
      assert s + t == t;
    } else {
      assert (s + t)[1..] == s[1..] + t;
      PostsAppend(s[1..], t);
    }
  }

  lemma {:induction false} BackupsAppend(s: seq<Event>, t: seq<Event>)
    ensures Backups(s + t) == Backups(s) + Backups(t)
  {
    if |s| == 0 {
      assert s + t == t;
    } else {
      assert (s + t)[1..] == s[1..] + t;
      BackupsAppend(s[1..], t);
    }
  }

  lemma {:induction false} SleepsAppend(s: seq<Event>, t: seq<Event>)
    ensures Sleeps(s + t) == Sleeps(s) + Sleeps(t)
  {
    if |s| == 0 {
      assert s + t == t;
    } else {
      var first := if s[0].Sleep? then [s[0].seconds] else [];
      assert (s + t)[0] == s[0];
      assert (s + t)[1..] == s[1..] + t;
      assert Sleeps(s + t) == first + Sleeps(s[1..] + t);
      SleepsAppend(s[1..], t);
      var x, y := Sleeps(s[1..]), Sleeps(t);
      assert first + (x + y) == (first + x) + y;
    }
  }

  /** The observations of a trace distribute over concatenation. */
  lemma TraceAppend(s: seq<Event>, t: seq<Event>)
    ensures Posts(s + t) == Posts(s) + Posts(t)
    ensures Backups(s + t) == Backups(s) + Backups(t)
    ensures Sleeps(s + t) == Sleeps(s) + Sleeps(t)
  {
    PostsAppend(s, t);
    BackupsAppend(s, t);
    SleepsAppend(s, t);
  }

  /** One step of the loop: a response that is not retryable ends it after a
      single POST; a retryable one is followed by the 400 backup (if any), a
      sleep of `delay` and the loop from the next attempt at twice the delay. */
  lemma AttemptStep(batch: seq<string>, responses: seq<Response>, a: nat, delay: int)
    requires a < MaxTries
    ensures var d := Attempt(batch, responses, a, delay);
            var r := ResponseAt(responses, a);
            && (!Retryable(r) ==> d.trace == [Post(RequestBody(batch))] && d.exit == ExitFor(r))
            && (Retryable(r) ==>
                  var rest := Attempt(batch, responses, a + 1, delay * 2);
                  && d.trace == AttemptEvents(batch, r, delay) + rest.trace
                  && d.exit == rest.exit)
  {
  }

  /** Reference events of one attempt given its response `r` and the current
      delay: the POST, the backup if `r` is a 400, and a sleep of `delay`
      unless `r` ends the loop. */
  function AttemptEvents(batch: seq<string>, r: Response, delay: int): seq<Event>
  {
    [Post(RequestBody(batch))]
    + (if r == Status(400) then [Backup(batch)] else [])
    + (if Retryable(r) then [Sleep(delay)] else [])
  }

  lemma StepCounts(batch: seq<string>, r: Response, delay: int)
    ensures var step := AttemptEvents(batch, r, delay);
            && Posts(step) == 1
            && Backups(step) == (if r == Status(400) then 1 else 0)
            && Sleeps(step) == (if Retryable(r) then [delay] else [])
  {
    var backup := if r == Status(400) then [Backup(batch)] else [];
    var sleep := if Retryable(r) then [Sleep(delay)] else [];
    TraceAppend([Post(RequestBody(batch))] + backup, sleep);
    TraceAppend([Post(RequestBody(batch))], backup);
  }

  /** A retryable response at `a` extends the attempt count from `a + 1` by one. */
  lemma StopsAfterStep(responses: seq<Response>, a: nat, m: nat)
    requires Retryable(ResponseAt(responses, a))
    requires StopsAfter(responses, a + 1, m)
    ensures StopsAfter(responses, a, m + 1)
  {
  }

  /** The attempt count, from attempt `a` on. */
  lemma {:induction false} AttemptCount(batch: seq<string>, responses: seq<Response>, a: nat, delay: int)
    requires a < MaxTries
    decreases MaxTries - a
    ensures StopsAfter(responses, a, Posts(Attempt(batch, responses, a, delay).trace))
  {
    var d := Attempt(batch, responses, a, delay);
    var r := ResponseAt(responses, a);
    AttemptStep(batch, responses, a, delay);
    if Retryable(r) {
      var rest := Attempt(batch, responses, a + 1, delay * 2);
      TraceAppend(AttemptEvents(batch, r, delay), rest.trace);
      StepCounts(batch, r, delay);
      if a + 1 < MaxTries {
        AttemptCount(batch, responses, a + 1, delay * 2);
        StopsAfterStep(responses, a, Posts(rest.trace));
      }
    } else {
      assert Posts(d.trace) == 1;
    }
  }

  /** The outcome is read off the response to the last attempt. */
  lemma {:induction false} AttemptExit(batch: seq<string>, responses: seq<Response>, a: nat, delay: int)
    requires a < MaxTries
    decreases MaxTries - a
    ensures var d := Attempt(batch, responses, a, delay);
            d.exit == ExitFor(ResponseAt(responses, a + Posts(d.trace) - 1))
  {
    var d := Attempt(batch, responses, a, delay);
    var r := ResponseAt(responses, a);
    AttemptStep(batch, responses, a, delay);
    if Retryable(r) {
      var rest := Attempt(batch, responses, a + 1, delay * 2);
      TraceAppend(AttemptEvents(batch, r, delay), rest.trace);
      StepCounts(batch, r, delay);
      if a + 1 < MaxTries {
        AttemptExit(batch, responses, a + 1, delay * 2);
      }
    } else {
      assert Posts(d.trace) == 1;
    }
  }

  /** Reference events of attempts `from` up to `from + n`, in order, attempt
      `j` sleeping for the back-off schedule's `j`-th delay. */
  function Expected(batch: seq<string>, responses: seq<Response>, from: nat, n: nat): seq<Event>
    decreases n
  {
    if n == 0 then []
    else AttemptEvents(batch, ResponseAt(responses, from), BaseDelay * Pow2(from)) + Expected(batch, responses, from + 1, n - 1)
  }

  lemma NextDelay(a: nat)
    ensures (BaseDelay * Pow2(a)) * 2 == BaseDelay * Pow2(a + 1)
  {
  }

  /** A retryable attempt's reference events put in front of the reference
      events of the attempts after it. */
  lemma ExpectedCons(batch: seq<string>, responses: seq<Response>, a: nat, rest: seq<Event>)
    requires Retryable(ResponseAt(responses, a))
    requires rest == Expected(batch, responses, a + 1, Posts(rest))
    ensures var t := AttemptEvents(batch, ResponseAt(responses, a), BaseDelay * Pow2(a)) + rest;
            t == Expected(batch, responses, a, Posts(t))
  {
    var r := ResponseAt(responses, a);
    var step := AttemptEvents(batch, r, BaseDelay * Pow2(a));
    StepCounts(batch, r, BaseDelay * Pow2(a));
    PostsAppend(step, rest);
  }

  /** The loop's trace from attempt `a` on, event by event: the reference
      events of each attempt it makes, in attempt order. */
  lemma {:induction false} AttemptOrder(batch: seq<string>, responses: seq<Response>, a: nat)
    requires a < MaxTries
    decreases MaxTries - a
    ensures var t := Attempt(batch, responses, a, BaseDelay * Pow2(a)).trace;
            t == Expected(batch, responses, a, Posts(t))
  {
    var delay := BaseDelay * Pow2(a);
    var r := ResponseAt(responses, a);
    AttemptStep(batch, responses, a, delay);
    if Retryable(r) {
      NextDelay(a);
      var rest := Attempt(batch, responses, a + 1, delay * 2).trace;
      if a + 1 < MaxTries {
        AttemptOrder(batch, responses, a + 1);
      } else {
        assert rest == [];
      }
      ExpectedCons(batch, responses, a, rest);
    } else {
      assert Posts([Post(RequestBody(batch))]) == 1;
    }
  }

  /** The number of sleeps from attempt `a` on: one per retryable attempt. */
  lemma {:induction false} AttemptSleepCount(batch: seq<string>, responses: seq<Response>, a: nat, delay: int)
    requires a < MaxTries
    decreases MaxTries - a
    ensures var d := Attempt(batch, responses, a, delay);
            |Sleeps(d.trace)| == (if d.exit == Exhausted then Posts(d.trace) else Posts(d.trace) - 1)
  {
    var r := ResponseAt(responses, a);
    AttemptStep(batch, responses, a, delay);
    if Retryable(r) {
      var rest := Attempt(batch, responses, a + 1, delay * 2);
      TraceAppend(AttemptEvents(batch, r, delay), rest.trace);
      StepCounts(batch, r, delay);
      if a + 1 < MaxTries {
        AttemptSleepCount(batch, responses, a + 1, delay * 2);
      }
    }
  }

  /** Prepending `delay` to durations doubling from `2 * delay` gives
      durations doubling from `delay`. */
  lemma PrependDoubling(delay: int, rest: seq<int>)
    requires forall j :: 0 <= j < |rest| ==> rest[j] == (delay * 2) * Pow2(j)
    ensures forall j :: 0 <= j < |[delay] + rest| ==> ([delay] + rest)[j] == delay * Pow2(j)
  {
    forall j | 0 < j < |[delay] + rest|
      ensures ([delay] + rest)[j] == delay * Pow2(j)
    {
      assert ([delay] + rest)[j] == rest[j - 1];
      assert (delay * 2) * Pow2(j - 1) == delay * (2 * Pow2(j - 1));
    }
  }

  /** The sleeps from attempt `a` on double from `delay`. */
  lemma {:induction false} AttemptSleepsDouble(batch: seq<string>, responses: seq<Response>, a: nat, delay: int)
    requires a < MaxTries
    decreases MaxTries - a
    ensures var sleeps := Sleeps(Attempt(batch, responses, a, delay).trace);
            forall j :: 0 <= j < |sleeps| ==> sleeps[j] == delay * Pow2(j)
  {
    var r := ResponseAt(responses, a);
    AttemptStep(batch, responses, a, delay);
    if Retryable(r) {
      var rest := Attempt(batch, responses, a + 1, delay * 2);
      TraceAppend(AttemptEvents(batch, r, delay), rest.trace);
      StepCounts(batch, r, delay);
      if a + 1 < MaxTries {
        AttemptSleepsDouble(batch, responses, a + 1, delay * 2);
      }
      PrependDoubling(delay, Sleeps(rest.trace));
    }
  }

  /** The backups inside the loop from attempt `a` on: one per 400. */
  lemma {:induction false} AttemptBackups(batch: seq<string>, responses: seq<Response>, a: nat, delay: int)
    requires a < MaxTries
    decreases MaxTries - a
    ensures var d := Attempt(batch, responses, a, delay);
            Backups(d.trace) == Count400(responses, a + Posts(d.trace)) - Count400(responses, a)
  {
    var t := Attempt(batch, responses, a, delay).trace;
    var r := ResponseAt(responses, a);
    AttemptStep(batch, responses, a, delay);
    if Retryable(r) {
      var rest := Attempt(batch, responses, a + 1, delay * 2).trace;
      if a + 1 < MaxTries {
        AttemptBackups(batch, responses, a + 1, delay * 2);
      } else {
        assert rest == [];
      }
      BackupsCons(batch, responses, a, delay, rest);
      assert t == AttemptEvents(batch, r, delay) + rest;
    } else {
      assert Backups(t) == 0 && Posts(t) == 1;
      assert Count400(responses, a + 1) == Count400(responses, a);
    }
  }

  /** A retryable attempt's events put in front of a trace whose backups
      count the 400s among its own attempts. */
  lemma BackupsCons(batch: seq<string>, responses: seq<Response>, a: nat, delay: int, rest: seq<Event>)
    requires Retryable(ResponseAt(responses, a))
    requires Backups(rest) == Count400(responses, a + 1 + Posts(rest)) - Count400(responses, a + 1)
    ensures var t := AttemptEvents(batch, ResponseAt(responses, a), delay) + rest;
            Backups(t) == Count400(responses, a + Posts(t)) - Count400(responses, a)
  {
    var r := ResponseAt(responses, a);
    var step := AttemptEvents(batch, r, delay);
    TraceAppend(step, rest);
    StepCounts(batch, r, delay);
    assert Posts(step + rest) == 1 + Posts(rest);
    assert Backups(step + rest) == (if r == Status(400) then 1 else 0) + Backups(rest);
    assert Count400(responses, a + 1) == Count400(responses, a) + (if r == Status(400) then 1 else 0);
  }

  /** Every event of the loop carries the batch. */
  lemma {:induction false} AttemptCarries(batch: seq<string>, responses: seq<Response>, a: nat, delay: int)
    requires a < MaxTries
    decreases MaxTries - a
    ensures CarriesBatch(Attempt(batch, responses, a, delay).trace, batch)
  {
    var r := ResponseAt(responses, a);
    AttemptStep(batch, responses, a, delay);
    if Retryable(r) && a + 1 < MaxTries {
      AttemptCarries(batch, responses, a + 1, delay * 2);
    }
  }

  /** At most four sleeps doubling from `BaseDelay` are a prefix of the schedule. */
  lemma ScheduleDoubles(sleeps: seq<int>)
    requires |sleeps| <= MaxTries
    requires forall j :: 0 <= j < |sleeps| ==> sleeps[j] == BaseDelay * Pow2(j)
    ensures sleeps == BackoffSchedule[..|sleeps|]
  {
    assert Pow2(1) == 2 && Pow2(2) == 4 && Pow2(3) == 8;
  }

  /** `drain_messages` from the copied batch on: the retry loop with the
      initial delay, then the final backup unless a 200 arrived or the
      POST raised.
      The contract is the whole delivery policy:
      - the number of POSTs is fixed by the responses (at most `MaxTries`),
      - the loop's outcome is read off the last response,
      - every attempt but the one that ended the loop is followed by a
        sleep, and the sleeps double from `BaseDelay`,
      - one backup per 400, plus one final backup after a 401 or after
        exhausting the attempts,
      - every POST sends the batch's body and every backup saves the batch,
      - event by event, the trace is each attempt's reference events in
        attempt order, then the final backup. */
  function Drain(batch: seq<string>, responses: seq<Response>): (d: Delivery)
    ensures StopsAfter(responses, 0, Posts(d.trace))
    ensures d.exit == ExitFor(ResponseAt(responses, Posts(d.trace) - 1))
    ensures |Sleeps(d.trace)| == (if d.exit == Exhausted then Posts(d.trace) else Posts(d.trace) - 1)
    ensures Sleeps(d.trace) == BackoffSchedule[..|Sleeps(d.trace)|]
    ensures Backups(d.trace) ==
              Count400(responses, Posts(d.trace)) + (if d.exit in {Unauthorized, Exhausted} then 1 else 0)
    ensures CarriesBatch(d.trace, batch)
    ensures d.trace == Expected(batch, responses, 0, Posts(d.trace)) + FinalBackup(batch, d.exit)
  {
    var loop := Attempt(batch, responses, 0, BaseDelay);
    var final := FinalBackup(batch, loop.exit);
    DrainParts(batch, responses);
    AttemptOrder(batch, responses, 0);
    Delivery(loop.trace + final, loop.exit)
  }

  /** The backup after the loop: written unless a 200 arrived or the POST raised. */
  function FinalBackup(batch: seq<string>, exit: Exit): seq<Event>
  {
    if exit == Unauthorized || exit == Exhausted then [Backup(batch)] else []
  }

  /** The loop's contract at attempt 0 and the final backup's contribution,
      combined over their concatenation. */
  lemma DrainParts(batch: seq<string>, responses: seq<Response>)
    ensures var loop := Attempt(batch, responses, 0, BaseDelay);
            var t := loop.trace + FinalBackup(batch, loop.exit);
            && Posts(t) == Posts(loop.trace)
            && StopsAfter(responses, 0, Posts(t))
            && loop.exit == ExitFor(ResponseAt(responses, Posts(t) - 1))
            && |Sleeps(t)| == (if loop.exit == Exhausted then Posts(t) else Posts(t) - 1)
            && Sleeps(t) == BackoffSchedule[..|Sleeps(t)|]
            && Backups(t) == Count400(responses, Posts(t)) + (if loop.exit in {Unauthorized, Exhausted} then 1 else 0)
            && CarriesBatch(t, batch)
  {
    var loop := Attempt(batch, responses, 0, BaseDelay);
    AttemptCount(batch, responses, 0, BaseDelay);
    AttemptExit(batch, responses, 0, BaseDelay);
    AttemptSleepCount(batch, responses, 0, BaseDelay);
    AttemptSleepsDouble(batch, responses, 0, BaseDelay);
    AttemptBackups(batch, responses, 0, BaseDelay);
    AttemptCarries(batch, responses, 0, BaseDelay);
    FinalParts(batch, responses, loop.trace, loop.exit);
  }

  /** `DrainParts` for any loop trace and outcome with the loop's contract
      at attempt 0. */
  lemma FinalParts(batch: seq<string>, responses: seq<Response>, loop: seq<Event>, exit: Exit)
    requires StopsAfter(responses, 0, Posts(loop))
    requires exit == ExitFor(ResponseAt(responses, Posts(loop) - 1))
    requires |Sleeps(loop)| == (if exit == Exhausted then Posts(loop) else Posts(loop) - 1)
    requires forall j :: 0 <= j < |Sleeps(loop)| ==> Sleeps(loop)[j] == BaseDelay * Pow2(j)
    requires Backups(loop) == Count400(responses, Posts(loop)) - Count400(responses, 0)
    requires CarriesBatch(loop, batch)
    ensures var t := loop + FinalBackup(batch, exit);
            && Posts(t) == Posts(loop)
            && StopsAfter(responses, 0, Posts(t))
            && exit == ExitFor(ResponseAt(responses, Posts(t) - 1))
            && |Sleeps(t)| == (if exit == Exhausted then Posts(t) else Posts(t) - 1)
            && Sleeps(t) == BackoffSchedule[..|Sleeps(t)|]
            && Backups(t) == Count400(responses, Posts(t)) + (if exit in {Unauthorized, Exhausted} then 1 else 0)
            && CarriesBatch(t, batch)
  {
    var final := FinalBackup(batch, exit);
    TraceAppend(loop, final);
    assert Posts(final) == 0 && Sleeps(final) == [];
    assert Sleeps(loop + final) == Sleeps(loop);
    ScheduleDoubles(Sleeps(loop));
    CarriesAppend(loop, final, batch);
  }

  lemma CarriesAppend(s: seq<Event>, t: seq<Event>, batch: seq<string>)
    requires CarriesBatch(s, batch) && CarriesBatch(t, batch)
    ensures CarriesBatch(s + t, batch)
  {
    forall i | 0 <= i < |s + t|
      ensures ((s + t)[i].Post? ==> (s + t)[i].body == RequestBody(batch)) &&
              ((s + t)[i].Backup? ==> (s + t)[i].lines == batch)
    {
      if i >= |s| {
        assert (s + t)[i] == t[i - |s|];
      }
    }
  }
}
