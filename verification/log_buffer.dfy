/** The in-memory buffer of bulk lines: `add_to_buffer` appends an action
    line and a document line; a drain swaps the contents out and leaves the
    buffer empty. Concurrency is not modelled: every operation is one step. */
module LogBuffer {
  import opened Wrappers

  /** The bulk action line that precedes every document. */
  function ActionLine(index: string, indexType: string): string
  {
    "{\"index\": {\"_index\": \"" + index + "\", \"_type\": \"" + indexType + "\"}}"
  }

  /** Concatenating a `None` index or type name to a string raises `TypeError`. */
  datatype AppendError = NameIsNone

  /** `add_to_buffer`: the action line, then the serialized document. */
  function Append(buffer: seq<string>, index: Option<string>, indexType: Option<string>, document: string)
    : (r: Result<seq<string>, AppendError>)
    ensures r.Success? <==> index.Some? && indexType.Some?
    ensures r.Success? ==> |r.value| == |buffer| + 2
    ensures r.Success? ==> r.value[..|buffer|] == buffer
    ensures r.Success? ==> r.value[|buffer|] == ActionLine(index.value, indexType.value)
    ensures r.Success? ==> r.value[|buffer| + 1] == document
    ensures r.Success? && |buffer| % 2 == 0 ==> |r.value| % 2 == 0
  {
    match (index, indexType)
    case (Some(i), Some(t)) => Success(buffer + [ActionLine(i, t), document])
    case _ => Failure(NameIsNone)
  }

  /** What a drain takes out of the buffer, and what it leaves behind. */
  datatype Swapped = Swapped(batch: seq<string>, remaining: seq<string>)

  /** The drain's copy-and-reset of the buffer. */
  function SwapEmpty(buffer: seq<string>): (s: Swapped)
    ensures s.batch == buffer
    ensures s.remaining == []
  {
    Swapped(buffer, [])
  }

  /** Reference layout: one action line and one document line per document,
      in the order the documents arrived. */
  function Pairs(action: string, documents: seq<string>): seq<string>
  {
    if |documents| == 0 then []
    else Pairs(action, documents[..|documents| - 1]) + [action, documents[|documents| - 1]]
  }

  lemma {:induction false} PairsShape(action: string, documents: seq<string>)
    ensures |Pairs(action, documents)| == 2 * |documents|
    ensures forall i :: 0 <= i < |documents| ==>
              Pairs(action, documents)[2 * i] == action && Pairs(action, documents)[2 * i + 1] == documents[i]
  {
    if |documents| > 0 {
      var front := documents[..|documents| - 1];
      PairsShape(action, front);
      forall i | 0 <= i < |documents|
        ensures Pairs(action, documents)[2 * i] == action && Pairs(action, documents)[2 * i + 1] == documents[i]
      {
        if i < |front| {
          assert documents[i] == front[i];
        }
      }
    }
  }

  /** `add_to_buffer` for each document in turn. */
  function AppendAll(buffer: seq<string>, index: Option<string>, indexType: Option<string>, documents: seq<string>)
    : Result<seq<string>, AppendError>
  {
    if |documents| == 0 then Success(buffer)
    else
      var front :- AppendAll(buffer, index, indexType, documents[..|documents| - 1]);
      Append(front, index, indexType, documents[|documents| - 1])
  }

  /** N appends to an empty buffer leave 2N lines, an action line before each
      document, documents in arrival order; the swap hands exactly those lines
      to the drain and leaves nothing behind. */
  lemma {:induction false} FillThenSwap(index: string, indexType: string, documents: seq<string>)
    ensures AppendAll([], Some(index), Some(indexType), documents).Success?
    ensures var b := AppendAll([], Some(index), Some(indexType), documents).value;
            && b == Pairs(ActionLine(index, indexType), documents)
            && |b| == 2 * |documents|
            && (forall i :: 0 <= i < |documents| ==> b[2 * i] == ActionLine(index, indexType) && b[2 * i + 1] == documents[i])
            && SwapEmpty(b) == Swapped(b, [])
  {
    if |documents| > 0 {
      FillThenSwap(index, indexType, documents[..|documents| - 1]);
    }
    PairsShape(ActionLine(index, indexType), documents);
  }

  /** A producer or drain step against the buffer. */
  datatype Op = Add(document: string) | Swap

  /** The documents added, in order. */
  function Added(ops: seq<Op>): seq<string>
  {
    if |ops| == 0 then []
    else Added(ops[..|ops| - 1]) + (if ops[|ops| - 1].Add? then [ops[|ops| - 1].document] else [])
  }

  /** The batches handed out, in order, flattened to one line sequence. */
  function Flatten(batches: seq<seq<string>>): seq<string>
  {
    if |batches| == 0 then [] else Flatten(batches[..|batches| - 1]) + batches[|batches| - 1]
  }

  datatype History = History(batches: seq<seq<string>>, buffer: seq<string>)

  /** A run of appends and swaps from an empty buffer. */
  function Run(index: string, indexType: string, ops: seq<Op>): History
  {
    if |ops| == 0 then History([], [])
    else
      var h := Run(index, indexType, ops[..|ops| - 1]);
      match ops[|ops| - 1]
      case Add(d) => History(h.batches, Append(h.buffer, Some(index), Some(indexType), d).value)
      case Swap =>
        var s := SwapEmpty(h.buffer);
        History(h.batches + [s.batch], s.remaining)
  }

  /** No line is lost or duplicated across swaps: the batches handed out,
      followed by what is still buffered, are exactly the pairs of every
      document added, in order. */
  lemma {:induction false} NoLossAcrossSwaps(index: string, indexType: string, ops: seq<Op>)
    ensures var h := Run(index, indexType, ops);
            Flatten(h.batches) + h.buffer == Pairs(ActionLine(index, indexType), Added(ops))
  {
    if |ops| > 0 {
      var front := ops[..|ops| - 1];
      NoLossAcrossSwaps(index, indexType, front);
      var h := Run(index, indexType, front);
      var a := ActionLine(index, indexType);
      match ops[|ops| - 1]
      case Add(d) =>
        assert Added(ops) == Added(front) + [d];
        assert Run(index, indexType, ops).buffer == h.buffer + [a, d];
        assert Flatten(h.batches) + (h.buffer + [a, d]) == (Flatten(h.batches) + h.buffer) + [a, d];
      case Swap =>
        assert Added(ops) == Added(front);
        FlattenSnoc(h.batches, h.buffer);
    }
  }

  lemma FlattenSnoc(batches: seq<seq<string>>, last: seq<string>)
    ensures Flatten(batches + [last]) == Flatten(batches) + last
  {
    assert (batches + [last])[..|batches|] == batches;
  }

  /** Every batch a run hands out, and what it leaves buffered, holds whole
      action/document pairs. */
  lemma {:induction false} RunKeepsPairs(index: string, indexType: string, ops: seq<Op>)
    ensures var h := Run(index, indexType, ops);
            |h.buffer| % 2 == 0 && forall k :: 0 <= k < |h.batches| ==> |h.batches[k]| % 2 == 0
  {
    if |ops| > 0 {
      RunKeepsPairs(index, indexType, ops[..|ops| - 1]);
    }
  }
}
