/** Byte content of a session log and its division into lines, as a binary
    file iterator yields them: every line keeps its newline, and only the last
    one may lack it. */
module LogLines {
  newtype byte = x: int | 0 <= x < 256

  const NEWLINE: byte := 10

  predicate EndsAtLineEnd(b: seq<byte>) {
    b == [] || b[|b| - 1] == NEWLINE
  }

  /** Length of the first line, its newline included. */
  function LineLength(b: seq<byte>): (n: nat)
    requires b != []
    ensures 1 <= n <= |b|
    ensures forall k :: 0 <= k < n - 1 ==> b[k] != NEWLINE
    ensures b[n - 1] == NEWLINE || n == |b|
  {
    if b[0] == NEWLINE || |b| == 1 then 1 else 1 + LineLength(b[1..])
  }

  function SplitLines(b: seq<byte>): seq<seq<byte>> {
    if b == [] then [] else
    var n := LineLength(b);
    [b[..n]] + SplitLines(b[n..])
  }

  lemma Regroup(a: seq<byte>, line: seq<byte>, rest: seq<byte>, b: seq<byte>)
    requires a == line + rest
    ensures a + b == line + (rest + b)
    ensures rest != [] ==> a[|a| - 1] == rest[|rest| - 1]
    ensures rest == [] ==> a == line
  {
  }

  /** The first line of a content is determined by where its first newline is. */
  lemma SplitFirst(b: seq<byte>, line: seq<byte>, rest: seq<byte>)
    requires b == line + rest && line != []
    requires forall k :: 0 <= k < |line| - 1 ==> line[k] != NEWLINE
    requires line[|line| - 1] == NEWLINE || rest == []
    ensures SplitLines(b) == [line] + SplitLines(rest)
  {
    var n := LineLength(b);
    assert b[|line| - 1] == line[|line| - 1];
    assert forall k :: 0 <= k < |line| ==> b[k] == line[k];
    assert n == |line|;
    assert b[..n] == line && b[n..] == rest;
  }

  lemma FirstLine(b: seq<byte>) returns (line: seq<byte>, rest: seq<byte>)
    requires b != []
    ensures b == line + rest && line != []
    ensures forall k :: 0 <= k < |line| - 1 ==> line[k] != NEWLINE
    ensures line[|line| - 1] == NEWLINE || rest == []
    ensures SplitLines(b) == [line] + SplitLines(rest)
  {
    var n := LineLength(b);
    line, rest := b[..n], b[n..];
  }

  lemma PrependAppend<T>(x: T, s: seq<T>, t: seq<T>)
    ensures ([x] + s) + t == [x] + (s + t)
  {
  }

  /** Lines read in two goes are the lines of the whole, when the first read
      stopped at a line end. */
  lemma {:induction false} SplitAppend(a: seq<byte>, b: seq<byte>)
    requires EndsAtLineEnd(a)
    ensures SplitLines(a + b) == SplitLines(a) + SplitLines(b)
    decreases |a|
  {
    if a == [] {
      assert a + b == b;
    } else {
      var line, rest := FirstLine(a);
      Regroup(a, line, rest, b);
      SplitFirst(a + b, line, rest + b);
      SplitAppend(rest, b);
      PrependAppend(line, SplitLines(rest), SplitLines(b));
    }
  }

  lemma Join(a: seq<byte>, b: seq<byte>, c: seq<byte>)
    ensures a + (b + c) == (a + b) + c
  {
  }

  lemma TornLine(line: seq<byte>, b: seq<byte>)
    requires line != [] && b != [] && forall k :: 0 <= k < |line| ==> line[k] != NEWLINE
    ensures |SplitLines(line + b)| == |SplitLines(b)|
  {
    var line', rest' := FirstLine(b);
    Join(line, line', rest');
    SplitFirst(line + b, line + line', rest');
  }

  /** A torn last line is continued by what is appended: one line fewer than
      the two reads counted. */
  lemma {:induction false} LineCountTorn(a: seq<byte>, b: seq<byte>)
    requires !EndsAtLineEnd(a) && b != []
    ensures |SplitLines(a + b)| == |SplitLines(a)| + |SplitLines(b)| - 1
    decreases |a|
  {
    var line, rest := FirstLine(a);
    if rest == [] {
      Regroup(a, line, rest, b);
      TornLine(line, b);
    } else {
      Regroup(a, line, rest, b);
      SplitFirst(a + b, line, rest + b);
      LineCountTorn(rest, b);
    }
  }

  /** The number of lines adds up over two reads exactly when the first read
      stopped at a line end or the second found nothing. */
  lemma LineCountAdditive(a: seq<byte>, b: seq<byte>)
    ensures |SplitLines(a + b)| == |SplitLines(a)| + |SplitLines(b)| <==> EndsAtLineEnd(a) || b == []
  {
    if EndsAtLineEnd(a) {
      SplitAppend(a, b);
    } else if b == [] {
      assert a + b == a;
    } else {
      LineCountTorn(a, b);
    }
  }
}
