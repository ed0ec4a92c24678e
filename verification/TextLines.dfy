/** Text cut into lines that keep their line ends. */
module TextLines {
  predicate IsBreak(c: char) {
    || '\n' <= c <= '\r'
    || '\U{1c}' <= c <= '\U{1e}'
    || c == '\U{85}' || c == '\U{2028}' || c == '\U{2029}'
  }

  /** Length of the first line with its end; carriage return and line feed are
      one line end. */
  function LineLength(text: string): (n: nat)
    requires text != ""
    ensures 1 <= n <= |text|
  {
    if IsBreak(text[0]) then if text[0] == '\r' && |text| > 1 && text[1] == '\n' then 2 else 1
    else if |text| == 1 then 1
    else 1 + LineLength(text[1..])
  }

  function SplitLines(text: string): (lines: seq<string>)
    ensures forall k :: 0 <= k < |lines| ==> lines[k] != ""
  {
    if text == "" then [] else [text[..LineLength(text)]] + SplitLines(text[LineLength(text)..])
  }

  /** Characters in a list of lines. */
  function Width(lines: seq<string>): nat {
    if lines == [] then 0 else Width(lines[..|lines| - 1]) + |lines[|lines| - 1]|
  }

  lemma WidthSnoc(lines: seq<string>, raw: string)
    ensures Width(lines + [raw]) == Width(lines) + |raw|
  {
    assert (lines + [raw])[..|lines|] == lines;
  }

  lemma {:induction false} WidthAppend(a: seq<string>, b: seq<string>)
    ensures Width(a + b) == Width(a) + Width(b)
  {
    if b == [] {
      assert a + b == a;
    } else {
      var c := b[..|b| - 1];
      assert a + b == (a + c) + [b[|b| - 1]] && b == c + [b[|b| - 1]];
      WidthAppend(a, c);
      WidthSnoc(a + c, b[|b| - 1]);
    }
  }

  lemma WidthCons(raw: string, lines: seq<string>)
    ensures Width([raw] + lines) == |raw| + Width(lines)
  {
    WidthAppend([raw], lines);
    WidthSnoc([], raw);
    assert [] + [raw] == [raw];
  }

  lemma {:induction false} WidthSplit(text: string)
    ensures Width(SplitLines(text)) == |text|
  {
    if text != "" {
      var n := LineLength(text);
      WidthSplit(text[n..]);
      WidthCons(text[..n], SplitLines(text[n..]));
    }
  }

  /** More text does not change the first line when that line has ended. */
  lemma {:induction false} LineLengthAppend(text: string, more: string)
    requires text != "" && Complete(text, more)
    ensures LineLength(text + more) == LineLength(text)
  {
    if !IsBreak(text[0]) {
      assert |text| > 1;
      assert (text + more)[1..] == text[1..] + more;
      LineLengthAppend(text[1..], more);
    }
  }

  /** The last line of `text` has its end, which `more` does not prolong. */
  predicate Complete(text: string, more: string) {
    text == "" || (IsBreak(text[|text| - 1]) && !(text[|text| - 1] == '\r' && more != "" && more[0] == '\n'))
  }

  lemma Regroup(raw: string, a: seq<string>, b: seq<string>)
    ensures [raw] + (a + b) == [raw] + a + b
  {
  }

  lemma {:induction false} SplitAppend(text: string, more: string)
    requires Complete(text, more)
    ensures SplitLines(text + more) == SplitLines(text) + SplitLines(more)
  {
    if text == "" {
      assert text + more == more;
    } else {
      var n := LineLength(text);
      LineLengthAppend(text, more);
      assert (text + more)[..n] == text[..n] && (text + more)[n..] == text[n..] + more;
      SplitAppend(text[n..], more);
      Regroup(text[..n], SplitLines(text[n..]), SplitLines(more));
    }
  }

  /** The first line alone is one line. */
  lemma {:induction false} LineLengthPrefix(text: string, n: nat)
    requires text != "" && LineLength(text) <= n <= |text|
    ensures LineLength(text[..n]) == LineLength(text)
  {
    if !IsBreak(text[0]) && |text| > 1 {
      assert n > 1 && text[..n][1..] == text[1..][..n - 1];
      LineLengthPrefix(text[1..], n - 1);
    }
  }

  lemma PrefixCons(raw: string, lines: seq<string>, k: nat)
    requires 0 < k <= |lines| + 1
    ensures ([raw] + lines)[..k] == [raw] + lines[..k - 1]
  {
  }

  lemma CutAfter(line: string, rest: string, w: nat)
    requires w <= |rest|
    ensures (line + rest)[..|line| + w] == line + rest[..w]
  {
  }

  lemma SplitFirst(text: string, line: string, rest: string)
    requires text == line + rest && text != "" && LineLength(text) == |line|
    ensures SplitLines(text) == [line] + SplitLines(rest)
  {
    assert text[..|line|] == line && text[|line|..] == rest;
  }

  /** Cutting at a line end keeps the lines before it. */
  lemma {:induction false} SplitPrefix(text: string, k: nat)
    requires k <= |SplitLines(text)|
    ensures Width(SplitLines(text)[..k]) <= |text|
    ensures SplitLines(text[..Width(SplitLines(text)[..k])]) == SplitLines(text)[..k]
  {
    if k > 0 {
      var n := LineLength(text);
      SplitPrefix(text[n..], k - 1);
      PrefixStep(text, text[..n], text[n..], k, SplitLines(text[n..])[..k - 1]);
    }
  }

  lemma PrefixStep(text: string, line: string, rest: string, k: nat, later: seq<string>)
    requires text == line + rest && text != "" && LineLength(text) == |line| && 0 < k <= |SplitLines(rest)| + 1
    requires later == SplitLines(rest)[..k - 1] && Width(later) <= |rest| && SplitLines(rest[..Width(later)]) == later
    ensures |line| + Width(later) <= |text|
    ensures k <= |SplitLines(text)| && SplitLines(text)[..k] == [line] + later && Width([line] + later) == |line| + Width(later)
    ensures SplitLines(text[..|line| + Width(later)]) == [line] + later
  {
    var w := Width(later);
    SplitFirst(text, line, rest);
    PrefixCons(line, SplitLines(rest), k);
    WidthCons(line, later);
    LineLengthPrefix(text, |line| + w);
    CutAfter(line, rest, w);
    SplitFirst(line + rest[..w], line, rest[..w]);
  }
}
