/** The `LogHandler` itself: construction, `emit`, the two drain triggers and
    `drain_messages`, as sequential steps over an immutable handler value. */
module Handler {
  import opened Wrappers
  import opened BulkText
  import opened LogBuffer
  import opened Shipper
  import opened Segments

  const DefaultDrainCount: int := 100
  const DefaultDrainTimeout: int := 10
  const DefaultLogType: string := "python"

  /** Settings fixed at construction. */
  datatype Config = Config(
    drainCount: int,
    drainTimeout: int,
    logType: string,
    endpoint: string,
    index: Option<string>,
    indexType: Option<string>,
    username: Option<string>,
    password: Option<string>)

  datatype Handler = Handler(config: Config, buffer: seq<string>)

  /** Construction raises when the base URL is missing or empty. */
  datatype InitError = MissingUrl

  /** How `str.format` renders an optional name: `None` becomes "None". */
  function Render(name: Option<string>): string
  {
    match name
    case None => "None"
    case Some(s) => s
  }

  /** Python truthiness of the `url` argument. */
  predicate Truthy(url: Option<string>)
  {
    url.Some? && url.value != ""
  }

  /** `__init__` without the threads: reject a falsy URL, otherwise keep the
      settings, build the bulk endpoint and start from an empty buffer. */
  function New(url: Option<string>, index: Option<string>, indexType: Option<string>,
               username: Option<string>, password: Option<string>,
               drainCount: int := DefaultDrainCount, drainTimeout: int := DefaultDrainTimeout,
               logType: string := DefaultLogType): (r: Result<Handler, InitError>)
    ensures r.Success? <==> Truthy(url)
    ensures r.Success? ==> r.value.buffer == []
    ensures r.Success? ==>
              var c := r.value.config;
              && c.drainCount == drainCount && c.drainTimeout == drainTimeout && c.logType == logType
              && c.index == index && c.indexType == indexType
              && c.username == username && c.password == password
    ensures r.Success? ==>
              var e := r.value.config.endpoint;
              var mid := |url.value| + 1 + |Render(index)|;
              && |e| == mid + 1 + |Render(indexType)| + 6
              && e[..|url.value| + 1] == url.value + "/"
              && e[|url.value| + 1..mid] == Render(index)
              && e[mid..mid + 1 + |Render(indexType)|] == "/" + Render(indexType)
              && e[|e| - 6..] == "/_bulk"
  {
    if !Truthy(url) then Failure(MissingUrl)
    else
      var endpoint := url.value + "/" + Render(index) + "/" + Render(indexType) + "/_bulk";
      Success(Handler(Config(drainCount, drainTimeout, logType, endpoint, index, indexType, username, password), []))
  }

  /** `emit` with the document already serialized: append it to the buffer. */
  function Emit(h: Handler, document: string): (r: Result<Handler, AppendError>)
    ensures r.Success? <==> h.config.index.Some? && h.config.indexType.Some?
    ensures r.Success? ==> r.value.config == h.config
    ensures r.Success? ==>
              r.value.buffer == h.buffer + [ActionLine(h.config.index.value, h.config.indexType.value), document]
  {
    var buffer :- Append(h.buffer, h.config.index, h.config.indexType, document);
    Success(h.(buffer := buffer))
  }

  /** `drain_messages`: swap the buffer out, then deliver the batch. The
      buffer is empty afterwards whatever the delivery did, so a batch whose
      POST raised is neither kept nor backed up. */
  function DrainMessages(h: Handler, responses: seq<Response>): (r: (Handler, Delivery))
    ensures r.0.buffer == [] && r.0.config == h.config
    ensures 1 <= Posts(r.1.trace) <= MaxTries
    ensures CarriesBatch(r.1.trace, h.buffer)
    ensures r.1.exit == Raised ==> Backups(r.1.trace) == Count400(responses, Posts(r.1.trace))
    ensures r.1 == Drain(h.buffer, responses)
  {
    var s := SwapEmpty(h.buffer);
    (h.(buffer := s.remaining), Drain(s.batch, responses))
  }

  /** One wake-up of the timeout trigger: drain only a non-empty buffer. */
  function TimeoutTick(h: Handler, responses: seq<Response>): (r: (Handler, Option<Delivery>))
    ensures r.1.Some? <==> |h.buffer| > 0
    ensures r.1.None? ==> r.0 == h
    ensures r.1.Some? ==> r.0.buffer == [] && r.0.config == h.config && Posts(r.1.value.trace) >= 1
    ensures r.1.Some? ==> CarriesBatch(r.1.value.trace, h.buffer) && r.1.value == Drain(h.buffer, responses)
  {
    if |h.buffer| > 0 then
      var (h', d) := DrainMessages(h, responses);
      (h', Some(d))
    else (h, None)
  }

  /** One wake-up of the count trigger: drain once the threshold is reached. */
  function CountWake(h: Handler, responses: seq<Response>): (r: (Handler, Option<Delivery>))
    ensures r.1.Some? <==> |h.buffer| >= h.config.drainCount
    ensures r.1.None? ==> r.0 == h
    ensures r.1.Some? ==> r.0.buffer == [] && r.0.config == h.config && Posts(r.1.value.trace) >= 1
    ensures r.1.Some? ==> CarriesBatch(r.1.value.trace, h.buffer) && r.1.value == Drain(h.buffer, responses)
  {
    if |h.buffer| >= h.config.drainCount then
      var (h', d) := DrainMessages(h, responses);
      (h', Some(d))
    else (h, None)
  }

  /** An emit followed by the count trigger's wake-up, with no other step in
      between. */
  function EmitThenWake(h: Handler, document: string, responses: seq<Response>)
    : Result<(Handler, Option<Delivery>), AppendError>
  {
    var h' :- Emit(h, document);
    Success(CountWake(h', responses))
  }

  /** The state the handler keeps between steps when each emit is followed by
      the count trigger: whole pairs, and fewer lines than the threshold. */
  predicate Steady(h: Handler)
  {
    |h.buffer| % 2 == 0 && |h.buffer| < h.config.drainCount
  }

  /** Emit-then-wake keeps the handler steady: the buffer never holds the
      threshold's worth of lines once the count trigger has looked at it. */
  lemma EmitThenWakeSteady(h: Handler, document: string, responses: seq<Response>)
    requires Steady(h)
    ensures EmitThenWake(h, document, responses).Success? ==> Steady(EmitThenWake(h, document, responses).value.0)
  {
    var e := Emit(h, document);
    if e.Success? {
      var w := CountWake(e.value, responses);
      assert EmitThenWake(h, document, responses) == Success(w);
      assert |e.value.buffer| == |h.buffer| + 2;
      if w.1.Some? {
        assert w.0.buffer == [] && w.0.config == h.config;
      } else {
        assert w.0 == e.value;
      }
    }
  }

  /** A timeout wake-up on an empty buffer makes no network call. */
  lemma TimeoutOnEmptyIsQuiet(h: Handler, responses: seq<Response>)
    requires h.buffer == []
    ensures TimeoutTick(h, responses) == (h, None)
  {
  }

  /** The count trigger has no such guard: with a threshold of zero or less
      it drains an empty buffer and POSTs a lone newline. */
  lemma CountWakeDrainsEmptyBuffer(h: Handler, responses: seq<Response>)
    requires h.buffer == [] && h.config.drainCount <= 0
    ensures var r := CountWake(h, responses);
            && r.1.Some?
            && r.1.value.trace[0] == Post("\n")
  {
    AttemptStep([], responses, 0, BaseDelay);
  }

  /** A POST that raises loses the swapped-out batch: it is not backed up
      and the buffer is already empty. */
  lemma ConnectionFailureLosesBatch(h: Handler, responses: seq<Response>)
    requires ResponseAt(responses, 0) == ConnectionFailure
    ensures var r := DrainMessages(h, responses);
            && r.0.buffer == []
            && r.1.exit == Raised
            && Backups(r.1.trace) == 0
            && r.1.trace == [Post(RequestBody(h.buffer))]
  {
  }

  /** Construction and the first emit agree on the names. The endpoint's
      path ends in the index, the type and `_bulk` (names without `/`;
      `None` shows as "None"). An emit succeeds exactly when both names are
      present, and then writes an action line naming the same index and
      type. A handler built with a `None` name is created, but every emit on
      it fails. */
  lemma NewThenEmit(url: Option<string>, index: Option<string>, indexType: Option<string>,
                    username: Option<string>, password: Option<string>, document: string)
    requires Truthy(url)
    requires '/' !in Render(index) && '/' !in Render(indexType)
    ensures var h := New(url, index, indexType, username, password).value;
            Split(h.config.endpoint, '/') == Split(url.value, '/') + [Render(index), Render(indexType), "_bulk"]
    ensures var h := New(url, index, indexType, username, password).value;
            && (Emit(h, document).Success? <==> index.Some? && indexType.Some?)
            && (Emit(h, document).Success? ==>
                  Emit(h, document).value.buffer == [ActionLine(Render(index), Render(indexType)), document])
  {
    BulkPathSegments(url.value, Render(index), Render(indexType));
  }

  /** The pieces of `base/index/type/_bulk` split at `/`. */
  lemma BulkPathSegments(base: string, index: string, indexType: string)
    requires '/' !in index && '/' !in indexType
    ensures Split(base + "/" + index + "/" + indexType + "/_bulk", '/')
              == Split(base, '/') + [index, indexType, "_bulk"]
  {
    var bulk := "_bulk";
    var tail := indexType + ['/'] + bulk;
    var mid := index + ['/'] + tail;
    assert "/_bulk" == ['/'] + bulk;
    assert base + "/" + index + "/" + indexType + "/_bulk" == base + ['/'] + mid;
    SplitWhole(bulk, '/');
    SplitJoin(indexType, '/', bulk);
    SplitWhole(indexType, '/');
    assert Split(tail, '/') == [indexType, bulk];
    SplitJoin(index, '/', tail);
    SplitWhole(index, '/');
    assert Split(mid, '/') == [index, indexType, bulk];
    SplitJoin(base, '/', mid);
  }

  /** A step the handler takes: an emitted record or a trigger wake-up, with
      the responses its drain (if any) would get. */
  datatype Step =
    | Log(document: string)
    | TimeoutWake(responses: seq<Response>)
    | CountWakeUp(responses: seq<Response>)

  function Perform(h: Handler, step: Step): Result<(Handler, Option<Delivery>), AppendError>
  {
    match step
    case Log(d) =>
      var h' :- Emit(h, d);
      Success((h', None))
    case TimeoutWake(responses) => Success(TimeoutTick(h, responses))
    case CountWakeUp(responses) => Success(CountWake(h, responses))
  }

  /** What a run of steps leaves: the handler, the batches its drains took,
      and each drain's delivery. */
  datatype Trail = Trail(handler: Handler, batches: seq<seq<string>>, deliveries: seq<Delivery>)

  function Operate(h: Handler, steps: seq<Step>): Result<Trail, AppendError>
  {
    if |steps| == 0 then Success(Trail(h, [], []))
    else
      var t :- Operate(h, steps[..|steps| - 1]);
      var p :- Perform(t.handler, steps[|steps| - 1]);
      if p.1.Some? then Success(Trail(p.0, t.batches + [t.handler.buffer], t.deliveries + [p.1.value]))
      else Success(Trail(p.0, t.batches, t.deliveries))
  }

  /** The documents logged by a run, in order. */
  function Logged(steps: seq<Step>): seq<string>
  {
    if |steps| == 0 then []
    else Logged(steps[..|steps| - 1]) + (if steps[|steps| - 1].Log? then [steps[|steps| - 1].document] else [])
  }

  /** One more step of a run whose earlier steps all succeeded. */
  lemma OperateSnoc(h: Handler, steps: seq<Step>)
    requires |steps| > 0
    requires Operate(h, steps[..|steps| - 1]).Success?
    ensures var t := Operate(h, steps[..|steps| - 1]).value;
            var p := Perform(t.handler, steps[|steps| - 1]);
            && (p.Failure? ==> Operate(h, steps).Failure?)
            && (p.Success? && p.value.1.Some? ==>
                  Operate(h, steps) == Success(Trail(p.value.0, t.batches + [t.handler.buffer], t.deliveries + [p.value.1.value])))
            && (p.Success? && p.value.1.None? ==>
                  Operate(h, steps) == Success(Trail(p.value.0, t.batches, t.deliveries)))
  {
  }

  /** Every step of a run with both names present succeeds and keeps the
      settings. */
  lemma {:induction false} OperateSucceeds(h: Handler, steps: seq<Step>)
    requires h.config.index.Some? && h.config.indexType.Some?
    ensures Operate(h, steps).Success?
    ensures Operate(h, steps).value.handler.config == h.config
  {
    if |steps| > 0 {
      OperateSucceeds(h, steps[..|steps| - 1]);
      OperateSnoc(h, steps);
    }
  }

  /** Any interleaving of emits and trigger wake-ups, from an empty buffer
      with both names present, loses and duplicates nothing: the batches the
      drains took followed by what is still buffered are exactly the
      action/document pairs of every logged record, in order. */
  lemma {:induction false} NoLossThroughTriggers(h: Handler, steps: seq<Step>)
    requires h.buffer == [] && h.config.index.Some? && h.config.indexType.Some?
    ensures Operate(h, steps).Success?
    ensures var t := Operate(h, steps).value;
            Flatten(t.batches) + t.handler.buffer
              == Pairs(ActionLine(h.config.index.value, h.config.indexType.value), Logged(steps))
  {
    OperateSucceeds(h, steps);
    if |steps| > 0 {
      var front := steps[..|steps| - 1];
      NoLossThroughTriggers(h, front);
      OperateSucceeds(h, front);
      OperateSnoc(h, steps);
      var t := Operate(h, front).value;
      var a := ActionLine(h.config.index.value, h.config.indexType.value);
      var b := t.handler.buffer;
      match steps[|steps| - 1]
      case Log(d) =>
        assert Logged(steps) == Logged(front) + [d];
        assert Flatten(t.batches) + (b + [a, d]) == (Flatten(t.batches) + b) + [a, d];
      case TimeoutWake(responses) =>
        assert Logged(steps) == Logged(front);
        FlattenSnoc(t.batches, b);
      case CountWakeUp(responses) =>
        assert Logged(steps) == Logged(front);
        FlattenSnoc(t.batches, b);
    }
  }

  /** In any run with both names present the buffer holds whole pairs and
      every drain that took a batch produced one delivery. */
  lemma {:induction false} RunKeepsWholePairs(h: Handler, steps: seq<Step>)
    requires |h.buffer| % 2 == 0 && h.config.index.Some? && h.config.indexType.Some?
    ensures Operate(h, steps).Success?
    ensures var t := Operate(h, steps).value;
            |t.handler.buffer| % 2 == 0 && |t.batches| == |t.deliveries|
  {
    OperateSucceeds(h, steps);
    if |steps| > 0 {
      RunKeepsWholePairs(h, steps[..|steps| - 1]);
      OperateSnoc(h, steps);
    }
  }

  /** In any run with both names present, each drain's delivery sends and
      backs up exactly the batch that drain took. */
  lemma {:induction false} TriggersDeliverTheirBatch(h: Handler, steps: seq<Step>)
    requires |h.buffer| % 2 == 0 && h.config.index.Some? && h.config.indexType.Some?
    ensures Operate(h, steps).Success?
    ensures var t := Operate(h, steps).value;
            && |t.batches| == |t.deliveries|
            && forall k :: 0 <= k < |t.deliveries| ==> CarriesBatch(t.deliveries[k].trace, t.batches[k])
  {
    RunKeepsWholePairs(h, steps);
    if |steps| > 0 {
      var front := steps[..|steps| - 1];
      TriggersDeliverTheirBatch(h, front);
      RunKeepsWholePairs(h, front);
      OperateSnoc(h, steps);
      var t := Operate(h, front).value;
      var p := Perform(t.handler, steps[|steps| - 1]);
      if p.value.1.Some? {
        var t' := Operate(h, steps).value;
        assert t'.batches[|t.batches|] == t.handler.buffer;
        assert CarriesBatch(p.value.1.value.trace, t.handler.buffer);
      }
    }
  }
}
