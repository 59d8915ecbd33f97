/** Splitting text at a separator character. */
module Segments {

  /** Index of the first `c` in `s`, or `|s|` when there is none. */
  function Find(s: string, c: char): (i: nat)
    ensures i <= |s|
    ensures c !in s[..i]
    ensures i < |s| ==> s[i] == c
  {
    if |s| == 0 then 0
    else if s[0] == c then 0
    else
      var j := Find(s[1..], c);
      assert s[..j + 1] == [s[0]] + s[1..][..j];
      j + 1
  }

  /** A `c` with none before it is the first one. */
  lemma {:induction false} FindAt(s: string, c: char, i: nat)
    requires i < |s| && s[i] == c && c !in s[..i]
    ensures Find(s, c) == i
  {
    if i > 0 {
      assert s[0] == s[..i][0];
      assert s[1..][..i - 1] == s[..i][1..];
      FindAt(s[1..], c, i - 1);
    }
  }

  /** The first `c` of `head + [c] + rest` is the one after `head`. */
  lemma FindAfter(head: string, c: char, rest: string)
    requires c !in head
    ensures Find(head + [c] + rest, c) == |head|
  {
    var s := head + [c] + rest;
    assert s[..|head|] == head;
    FindAt(s, c, |head|);
  }

  /** Python's `s.split(c)`: the pieces between the separators, empty ones
      included. */
  function Split(s: string, c: char): (pieces: seq<string>)
    ensures |pieces| >= 1
    decreases |s|
  {
    var i := Find(s, c);
    if i < |s| then [s[..i]] + Split(s[i + 1..], c) else [s]
  }

  /** A separator at `i` with none before it cuts off the first piece. */
  lemma SplitAt(s: string, c: char, i: nat)
    requires i < |s| && s[i] == c && c !in s[..i]
    ensures Split(s, c) == [s[..i]] + Split(s[i + 1..], c)
  {
    FindAt(s, c, i);
  }

  /** Splitting at a separator placed between two texts splits each text. */
  lemma {:induction false} SplitJoin(a: string, c: char, b: string)
    ensures Split(a + [c] + b, c) == Split(a, c) + Split(b, c)
    decreases |a|
  {
    var i := Find(a, c);
    if i < |a| {
      var head, tail := a[..i], a[i + 1..];
      assert a == head + [c] + tail;
      SplitJoin(tail, c, b);
      SplitJoinCut(head, c, tail, b);
    } else {
      assert a[..i] == a;
      SplitJoinWhole(a, c, b);
    }
  }

  /** The case of `SplitJoin` where `a` is `head + [c] + tail` and `head`
      holds no separator. */
  lemma SplitJoinCut(head: string, c: char, tail: string, b: string)
    requires c !in head
    requires Split(tail + [c] + b, c) == Split(tail, c) + Split(b, c)
    ensures Split(head + [c] + tail + [c] + b, c) == Split(head + [c] + tail, c) + Split(b, c)
  {
    var rest := tail + [c] + b;
    var x := Split(tail, c);
    var y := Split(b, c);
    assert Split(head + [c] + tail + [c] + b, c) == [head] + (x + y) by {
      assert head + [c] + tail + [c] + b == head + [c] + rest;
      SplitCons(head, c, rest);
    }
    assert Split(head + [c] + tail, c) == [head] + x by {
      SplitCons(head, c, tail);
    }
    ConsAssoc(head, x, y);
  }

  /** Prepending one element commutes with appending a sequence. */
  lemma ConsAssoc<T>(h: T, x: seq<T>, y: seq<T>)
    ensures [h] + (x + y) == ([h] + x) + y
  {
  }

  /** The case of `SplitJoin` where `a` holds no separator. */
  lemma SplitJoinWhole(a: string, c: char, b: string)
    requires c !in a
    ensures Split(a + [c] + b, c) == Split(a, c) + Split(b, c)
  {
    SplitCons(a, c, b);
    SplitWhole(a, c);
  }

  /** A first piece without the separator is cut off at the separator. */
  lemma SplitCons(head: string, c: char, rest: string)
    requires c !in head
    ensures Split(head + [c] + rest, c) == [head] + Split(rest, c)
  {
    var s := head + [c] + rest;
    assert s[..|head|] == head;
    assert s[|head| + 1..] == rest;
    SplitAt(s, c, |head|);
  }

  /** Text without the separator is a single piece. */
  lemma SplitWhole(s: string, c: char)
    requires c !in s
    ensures Split(s, c) == [s]
  {
    assert s[..Find(s, c)] == s[..|s|];
  }
}
