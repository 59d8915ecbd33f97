/** Text encodings of a batch of bulk lines: the request body sent to the
    `_bulk` endpoint and the text written to a failure backup file. */
module BulkText {
  import opened Segments

  /** `'\n'.join(lines)` in Python: the lines separated by newlines, with no
      newline after the last one (and the empty string for no lines). */
  function JoinLines(lines: seq<string>): string
  {
    if |lines| == 0 then ""
    else if |lines| == 1 then lines[0]
    else lines[0] + "\n" + JoinLines(lines[1..])
  }

  /** The POST body: the joined lines followed by one trailing newline. */
  function RequestBody(batch: seq<string>): string
  {
    JoinLines(batch) + "\n"
  }

  /** What one backup writes to its file: the joined lines, no trailing newline. */
  function BackupText(batch: seq<string>): string
  {
    JoinLines(batch)
  }

  /** Reference encoding: every line followed by its own newline. */
  function Terminated(lines: seq<string>): string
  {
    if |lines| == 0 then "" else lines[0] + "\n" + Terminated(lines[1..])
  }

  /** No line holds a raw newline (true of `json.dumps` output and of the
      action line when the index names hold none). */
  predicate SingleLines(lines: seq<string>)
  {
    forall i :: 0 <= i < |lines| ==> '\n' !in lines[i]
  }

  /** Decoder of newline-terminated text: the lines of `s`, a last line
      without a newline included. This is `Split` at newlines except that a
      newline ending the text closes the last line instead of starting an
      empty one, so the empty text has no lines. */
  function SplitLines(s: string): seq<string>
  {
    var pieces := Split(s, '\n');
    if |s| == 0 || s[|s| - 1] == '\n' then pieces[..|pieces| - 1] else pieces
  }

  /** A first line without a newline is cut off at the newline after it. */
  lemma SplitLinesCons(line: string, rest: string)
    requires '\n' !in line
    ensures SplitLines(line + "\n" + rest) == [line] + SplitLines(rest)
  {
    var s := line + "\n" + rest;
    var p := Split(rest, '\n');
    assert Split(s, '\n') == [line] + p by {
      SplitCons(line, '\n', rest);
    }
    if |rest| == 0 {
      assert s[|s| - 1] == '\n';
      assert p == [""] by {
        SplitWhole(rest, '\n');
      }
    } else {
      assert s[|s| - 1] == rest[|rest| - 1];
      DropLastCons(line, p);
    }
  }

  /** Dropping the last element of a sequence of at least one commutes with
      putting an element in front. */
  lemma DropLastCons<T>(x: T, p: seq<T>)
    requires |p| >= 1
    ensures ([x] + p)[..|p|] == [x] + p[..|p| - 1]
  {
  }

  /** Splitting newline-terminated lines gives the lines back. */
  lemma {:induction false} SplitTerminated(lines: seq<string>)
    requires SingleLines(lines)
    ensures SplitLines(Terminated(lines)) == lines
  {
    if |lines| > 0 {
      SplitLinesCons(lines[0], Terminated(lines[1..]));
      SplitTerminated(lines[1..]);
    } else {
      SplitWhole("", '\n');
    }
  }

  /** A non-empty batch's body is its lines, each terminated by a newline;
      an empty batch's body is a lone newline. */
  lemma {:induction false} BodyIsTerminated(batch: seq<string>)
    ensures |batch| > 0 ==> RequestBody(batch) == Terminated(batch)
    ensures |batch| == 0 ==> RequestBody(batch) == "\n"
  {
    if |batch| > 1 {
      BodyIsTerminated(batch[1..]);
      assert RequestBody(batch) == batch[0] + "\n" + (JoinLines(batch[1..]) + "\n");
    }
  }

  /** The body of a non-empty batch of single lines decodes back to the batch,
      in order; the backup text is the body without its last character. */
  lemma BodyRoundTrip(batch: seq<string>)
    requires |batch| > 0 && SingleLines(batch)
    ensures SplitLines(RequestBody(batch)) == batch
    ensures RequestBody(batch) == BackupText(batch) + "\n"
  {
    BodyIsTerminated(batch);
    SplitTerminated(batch);
  }
}
