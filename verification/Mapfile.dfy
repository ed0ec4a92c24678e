/** Reading the entries of an array from bytes, line by line. */
module Mapfile {
  import opened LogLines

  const CTRL_C: byte := 3
  const CTRL_D: byte := 4

  // ---------------------------------------------------- what there is to read

  /** The bytes of the first line with its delimiter, whether that was seen, and
      the bytes after it. Ctrl+C ends a line anywhere, Ctrl+D only where it
      would begin; neither is part of it. */
  function RawLine(d: byte, atStart: bool, input: seq<byte>): (r: (seq<byte>, bool, seq<byte>))
    ensures |r.2| + |r.0| <= |input|
    ensures r.1 ==> r.0 != []
  {
    if input == [] then ([], false, [])
    else
      var b, rest := input[0], input[1..];
      if b == CTRL_C || (b == CTRL_D && atStart) then ([], false, rest)
      else if b == d then ([b], true, rest)
      else
        var (line, saw, after) := RawLine(d, false, rest);
        ([b] + line, saw, after)
  }

  /** The lines up to the first empty read. */
  function AllLines(d: byte, input: seq<byte>): seq<seq<byte>>
    decreases |input|
  {
    var (line, saw, rest) := RawLine(d, true, input);
    if line == [] && !saw then [] else [line] + AllLines(d, rest)
  }

  /** Up to `max` lines after the first `skip`; 0 stands for no maximum. */
  function Selected(lines: seq<seq<byte>>, skip: nat, max: nat): seq<seq<byte>> {
    var kept := if skip <= |lines| then lines[skip..] else [];
    if max == 0 || |kept| <= max then kept else kept[..max]
  }

  function Entry(d: byte, strip: bool, line: seq<byte>): seq<byte> {
    if strip && line != [] && line[|line| - 1] == d then line[..|line| - 1] else line
  }

  function EntriesOf(d: byte, strip: bool, lines: seq<seq<byte>>): seq<seq<byte>> {
    seq(|lines|, i requires 0 <= i < |lines| => Entry(d, strip, lines[i]))
  }

  // ----------------------------------------------------------------- the loop

  method ReadLine(d: byte, input: seq<byte>) returns (line: seq<byte>, saw: bool, rest: seq<byte>)
    ensures (line, saw, rest) == RawLine(d, true, input)
  {
    line, saw, rest := [], false, input;
    ghost var all := RawLine(d, true, input);
    assert [] + all.0 == all.0;
    while rest != []
      invariant !saw && all == Ahead(line, RawLine(d, line == [], rest))
      decreases |rest|
    {
      var b := rest[0];
      rest := rest[1..];
      assert line + [] == line;
      if b == CTRL_C || (b == CTRL_D && line == []) {
        return;
      }
      AheadTwice(line, b, RawLine(d, false, rest));
      line := line + [b];
      if b == d {
        saw := true;
        return;
      }
    }
    assert line + [] == line;
  }

  function Ahead(line: seq<byte>, r: (seq<byte>, bool, seq<byte>)): (seq<byte>, bool, seq<byte>) {
    (line + r.0, r.1, r.2)
  }

  lemma AheadTwice(line: seq<byte>, b: byte, r: (seq<byte>, bool, seq<byte>))
    ensures Ahead(line, ([b] + r.0, r.1, r.2)) == Ahead(line + [b], r)
  {
    assert line + ([b] + r.0) == line + [b] + r.0;
  }

  /** `skip`, `max` and `strip` are the options -s, -n and -t. */
  method ReadEntries(d: byte, input: seq<byte>, skip: nat, max: nat, strip: bool) returns (entries: seq<seq<byte>>)
    ensures entries == EntriesOf(d, strip, Selected(AllLines(d, input), skip, max))
  {
    entries := [];
    var rest, readCount := input, 0;
    ghost var all := AllLines(d, input);
    ghost var k := 0;
    while max == 0 || |entries| < max
      invariant Reading(d, strip, skip, all, k, rest, readCount, entries)
      invariant max == 0 || |entries| <= max
      decreases |all| - k
    {
      var line, saw, after := ReadLine(d, rest);
      NextLine(d, rest, line, saw, after);
      if line == [] && !saw {
        break;
      }
      ReadStep(d, strip, skip, all, k, rest, line, after, readCount, entries);
      readCount, entries := KeepLine(d, strip, skip, line, readCount, entries);
      rest, k := after, k + 1;
    }
    SelectedSoFar(all, skip, max, k);
  }

  /** A line is skipped or becomes an entry. */
  method KeepLine(d: byte, strip: bool, skip: nat, raw: seq<byte>, readCount0: nat, entries0: seq<seq<byte>>)
    returns (readCount: nat, entries: seq<seq<byte>>)
    ensures readCount == if readCount0 < skip then readCount0 + 1 else readCount0
    ensures entries == if readCount0 < skip then entries0 else entries0 + [Entry(d, strip, raw)]
  {
    readCount, entries := readCount0, entries0;
    if readCount < skip {
      readCount := readCount + 1;
      return;
    }
    var line := raw;
    if strip && line != [] && line[|line| - 1] == d {
      line := line[..|line| - 1];
    }
    entries := entries + [line];
  }

  lemma NextLine(d: byte, input: seq<byte>, line: seq<byte>, saw: bool, after: seq<byte>)
    requires (line, saw, after) == RawLine(d, true, input)
    ensures AllLines(d, input) == if line == [] && !saw then [] else [line] + AllLines(d, after)
  {
  }

  /** The first `k` lines are read, and those after the skipped ones kept. */
  ghost predicate Reading(d: byte, strip: bool, skip: nat, all: seq<seq<byte>>, k: nat, rest: seq<byte>,
                          readCount: nat, entries: seq<seq<byte>>) {
    && k <= |all| && all[k..] == AllLines(d, rest)
    && readCount == (if k < skip then k else skip)
    && entries == EntriesOf(d, strip, Kept(all, skip, k))
  }

  function Kept(all: seq<seq<byte>>, skip: nat, k: nat): seq<seq<byte>>
    requires k <= |all|
  {
    if k < skip then [] else all[skip..k]
  }

  lemma ReadStep(d: byte, strip: bool, skip: nat, all: seq<seq<byte>>, k: nat, before: seq<byte>,
                 line: seq<byte>, after: seq<byte>, readCount: nat, entries: seq<seq<byte>>)
    requires Reading(d, strip, skip, all, k, before, readCount, entries)
    requires AllLines(d, before) == [line] + AllLines(d, after)
    ensures k < |all|
    ensures Reading(d, strip, skip, all, k + 1, after, if readCount < skip then readCount + 1 else readCount,
                    if readCount < skip then entries else entries + [Entry(d, strip, line)])
  {
    assert all[k] == all[k..][0] == line && all[k + 1..] == all[k..][1..] == AllLines(d, after);
    if readCount >= skip {
      assert all[skip..k + 1] == all[skip..k] + [line];
    }
  }

  lemma SelectedSoFar(all: seq<seq<byte>>, skip: nat, max: nat, k: nat)
    requires k <= |all| && (max == 0 || |Kept(all, skip, k)| <= max)
    requires k == |all| || (max > 0 && |Kept(all, skip, k)| == max)
    ensures Selected(all, skip, max) == Kept(all, skip, k)
  {
    if k >= skip {
      assert all[skip..][..k - skip] == all[skip..k];
    }
  }

  // -------------------------------------------------------------- conservation

  function Concat(lines: seq<seq<byte>>): seq<byte> {
    if lines == [] then [] else lines[0] + Concat(lines[1..])
  }

  /** The input without the control bytes that end lines, up to the first that
      ends an empty one. */
  function Visible(d: byte, atStart: bool, input: seq<byte>): seq<byte>
    decreases |input|
  {
    if input == [] then []
    else
      var b, rest := input[0], input[1..];
      if b == CTRL_C then if atStart then [] else Visible(d, true, rest)
      else if b == CTRL_D && atStart then []
      else [b] + Visible(d, b == d, rest)
  }

  lemma {:induction false} VisibleLine(d: byte, atStart: bool, input: seq<byte>)
    ensures
      var (line, saw, rest) := RawLine(d, atStart, input);
      Visible(d, atStart, input) == if line == [] && !saw && atStart then [] else line + Visible(d, true, rest)
  {
    if input != [] {
      var b, rest := input[0], input[1..];
      if !(b == CTRL_C || (b == CTRL_D && atStart)) && b != d {
        VisibleLine(d, false, rest);
        var (line, saw, after) := RawLine(d, false, rest);
        assert [b] + (line + Visible(d, true, after)) == [b] + line + Visible(d, true, after);
      }
    }
  }

  /** The lines hold the visible bytes, all of them and in order. */
  lemma {:induction false} LinesKeepVisible(d: byte, input: seq<byte>)
    ensures Concat(AllLines(d, input)) == Visible(d, true, input)
    decreases |input|
  {
    VisibleLine(d, true, input);
    var (line, saw, rest) := RawLine(d, true, input);
    if !(line == [] && !saw) {
      LinesKeepVisible(d, rest);
      assert AllLines(d, input)[1..] == AllLines(d, rest);
    }
  }

  lemma {:induction false} AllVisible(d: byte, atStart: bool, input: seq<byte>)
    ensures Visible(d, atStart, input) == input <==> NothingHidden(d, atStart, input)
    ensures |Visible(d, atStart, input)| <= |input|
    decreases |input|
  {
    if input != [] {
      var b, rest := input[0], input[1..];
      AllVisible(d, b == d, rest);
      AllVisible(d, true, rest);
      assert input == [b] + rest;
      HiddenStep(d, atStart, input);
      if b == CTRL_C || (b == CTRL_D && atStart) {
        assert |Visible(d, atStart, input)| < |input|;
      } else {
        assert ([b] + Visible(d, b == d, rest))[1..] == Visible(d, b == d, rest);
      }
    }
  }

  lemma HiddenStep(d: byte, atStart: bool, input: seq<byte>)
    requires input != []
    ensures NothingHidden(d, atStart, input) <==> !Hides(d, atStart, input, 0) && NothingHidden(d, input[0] == d, input[1..])
  {
    var rest, afterDelimiter := input[1..], input[0] == d;
    if NothingHidden(d, atStart, input) {
      forall i | 0 <= i < |rest| ensures !Hides(d, afterDelimiter, rest, i) {
        assert !Hides(d, atStart, input, i + 1);
      }
    }
    if !Hides(d, atStart, input, 0) && NothingHidden(d, afterDelimiter, rest) {
      forall i | 0 <= i < |input| ensures !Hides(d, atStart, input, i) {
        assert i > 0 ==> !Hides(d, afterDelimiter, rest, i - 1);
      }
    }
  }

  /** The byte at `i` ends a line but is no delimiter: Ctrl+C anywhere, Ctrl+D
      where a line begins. */
  predicate Hides(d: byte, atStart: bool, input: seq<byte>, i: nat)
    requires i < |input|
  {
    input[i] == CTRL_C || (input[i] == CTRL_D && if i == 0 then atStart else input[i - 1] == d)
  }

  predicate NothingHidden(d: byte, atStart: bool, input: seq<byte>) {
    forall i :: 0 <= i < |input| ==> !Hides(d, atStart, input, i)
  }

  /** Without options the entries put together are the input, exactly when it
      has no control byte that ends a line. */
  lemma EntriesRoundTrip(d: byte, input: seq<byte>)
    ensures Concat(EntriesOf(d, false, Selected(AllLines(d, input), 0, 0))) == input <==> NothingHidden(d, true, input)
  {
    LinesKeepVisible(d, input);
    AllVisible(d, true, input);
    var all := AllLines(d, input);
    assert all[0..] == all && EntriesOf(d, false, all) == all;
  }

  /** Stripping removes from each line the delimiter at its end and nothing
      else: what is left holds no delimiter. */
  lemma {:induction false} LineEndsAtDelimiter(d: byte, atStart: bool, input: seq<byte>)
    ensures
      var (line, saw, _) := RawLine(d, atStart, input);
      && Entry(d, true, line) == (if saw then line[..|line| - 1] else line)
      && d !in Entry(d, true, line) && (saw ==> line[|line| - 1] == d)
  {
    if input != [] {
      LineEndsAtDelimiter(d, false, input[1..]);
    }
  }
}
