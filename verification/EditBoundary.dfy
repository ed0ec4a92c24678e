/** The parser that finds how much of an edit can be kept when its tail is cut. */
module EditBoundary {
  import opened Options
  import opened TextLines

  datatype Section = Section(target: string, ops: nat, payload: nat, deleted: nat)

  datatype Reason = Fine | NoCompletePrefix | MissingPayload | LegacyFine

  datatype Boundary = Boundary(ok: bool, parsedEnd: nat, reason: Reason, sections: seq<Section>, lineNo: nat)

  /** How one line is recognised: `header` gives the file, `replace` the lines
      deleted, `marker` whether it starts with one of the four operation
      characters. `legacyStart` and `legacy` stand for the older format. */
  datatype Grammar = Grammar(
    blank: string -> bool,
    beginPatch: string -> bool,
    endPatch: string -> bool,
    header: string -> Option<string>,
    marker: string -> bool,
    insert: string -> bool,
    replace: string -> Option<nat>,
    legacyStart: string -> bool,
    legacy: string -> Boundary)

  /** An insert line starts with an operation character that is no header's. */
  ghost predicate Lawful(g: Grammar) {
    forall raw :: g.insert(raw) ==>
      g.marker(raw) && !g.blank(raw) && !g.beginPatch(raw) && !g.endPatch(raw) && g.header(raw).None?
  }

  datatype State = State(
    parsedEnd: nat, lineNo: nat, needs: bool, allowed: bool, saw: bool, seen: bool,
    sections: seq<Section>, stopped: bool)

  const START := State(0, 0, false, false, false, false, [], false)

  predicate Pending(s: State) {
    s.needs && !s.saw
  }

  function Stop(s: State): State {
    s.(stopped := true)
  }

  /** The last section with one more payload line. */
  function MorePayload(sections: seq<Section>): (r: seq<Section>)
    requires sections != []
  {
    var cur := sections[|sections| - 1];
    sections[|sections| - 1 := cur.(payload := cur.payload + 1)]
  }

  /** The last section with one more operation. */
  function MoreOps(sections: seq<Section>, deleted: nat): (r: seq<Section>)
    requires sections != []
  {
    var cur := sections[|sections| - 1];
    sections[|sections| - 1 := cur.(ops := cur.ops + 1, deleted := cur.deleted + deleted)]
  }

  /** A line that is no header, once there is a section. */
  function InSection(g: Grammar, s: State, raw: string, end: nat): State
    requires s.sections != []
  {
    if s.allowed && !g.marker(raw) then
      s.(sections := MorePayload(s.sections), parsedEnd := end, saw := true, needs := false)
    else if g.blank(raw) then
      if Pending(s) then Stop(s) else s.(parsedEnd := end, allowed := false, needs := false, saw := false)
    else if Pending(s) then Stop(s)
    else if g.insert(raw) then
      s.(sections := MoreOps(s.sections, 0), needs := true, allowed := true, saw := false)
    else if g.replace(raw).Some? then
      s.(sections := MoreOps(s.sections, g.replace(raw).value), parsedEnd := end,
         needs := false, allowed := true, saw := false)
    else Stop(s)
  }

  /** One line that ends at `end`. */
  function TakeLine(g: Grammar, before: State, raw: string, end: nat): State {
    var counted := before.(lineNo := before.lineNo + 1);
    if !before.seen && g.blank(raw) then counted.(parsedEnd := end)
    else
      var s := counted.(seen := true);
      if g.beginPatch(raw) || g.endPatch(raw) then
        if Pending(s) then Stop(s) else s.(parsedEnd := end, allowed := false)
      else if g.header(raw).Some? then
        if Pending(s) then Stop(s)
        else s.(sections := s.sections + [Section(g.header(raw).value, 0, 0, 0)], parsedEnd := end,
                needs := false, allowed := false, saw := false)
      else if s.sections == [] then Stop(s)
      else InSection(g, s, raw, end)
  }

  /** State after the lines, of which those after a stop are not looked at. */
  function Take(g: Grammar, lines: seq<string>): State {
    if lines == [] then START
    else
      var before := Take(g, lines[..|lines| - 1]);
      if before.stopped then before else TakeLine(g, before, lines[|lines| - 1], Width(lines))
  }

  function Outcome(s: State): Boundary {
    Boundary(s.parsedEnd > 0 && s.sections != [], s.parsedEnd,
             if Pending(s) then MissingPayload
             else if s.parsedEnd > 0 && s.sections != [] then Fine else NoCompletePrefix,
             s.sections, s.lineNo)
  }

  function BoundaryOf(g: Grammar, text: string): Boundary {
    var s := Take(g, SplitLines(text));
    if s.sections == [] && g.legacyStart(text) then g.legacy(text) else Outcome(s)
  }

  lemma TakeLast(g: Grammar, all: seq<string>, lines: seq<string>, raw: string, end: nat)
    requires all != [] && all[..|all| - 1] == lines && all[|all| - 1] == raw && Width(all) == end
    ensures Take(g, all) == if Take(g, lines).stopped then Take(g, lines) else TakeLine(g, Take(g, lines), raw, end)
  {
  }

  lemma TakeSnoc(g: Grammar, lines: seq<string>, raw: string)
    ensures Take(g, lines + [raw])
         == if Take(g, lines).stopped then Take(g, lines)
            else TakeLine(g, Take(g, lines), raw, Width(lines) + |raw|)
  {
    var all := lines + [raw];
    assert all[..|all| - 1] == lines && all[|all| - 1] == raw;
    WidthSnoc(lines, raw);
    TakeLast(g, all, lines, raw, Width(lines) + |raw|);
  }

  lemma {:induction false} StopLasts(g: Grammar, lines: seq<string>, k: nat)
    requires k <= |lines| && Take(g, lines[..k]).stopped
    ensures Take(g, lines) == Take(g, lines[..k])
  {
    if k == |lines| {
      assert lines[..k] == lines;
    } else {
      assert lines[..|lines| - 1][..k] == lines[..k];
      StopLasts(g, lines[..|lines| - 1], k);
    }
  }

  /** The loop's body, for one line. */
  method ParseLine(g: Grammar, before: State, raw: string, end: nat) returns (s: State)
    ensures s == TakeLine(g, before, raw, end)
  {
    s := before.(lineNo := before.lineNo + 1);
    if !s.seen && g.blank(raw) {
      s := s.(parsedEnd := end);
      return;
    }
    s := s.(seen := true);
    var open := s.needs && !s.saw;
    if g.beginPatch(raw) || g.endPatch(raw) {
      s := if open then s.(stopped := true) else s.(parsedEnd := end, allowed := false);
      return;
    }
    var header := g.header(raw);
    if header.Some? {
      s := ParseHeader(s, header.value, end, open);
      return;
    }
    if s.sections == [] {
      s := s.(stopped := true);
      return;
    }
    s := ParseInSection(g, s, raw, end, open);
  }

  /** A header opens a section, unless an insertion is still open. */
  method ParseHeader(s0: State, target: string, end: nat, open: bool) returns (s: State)
    ensures s == if open then Stop(s0)
                 else s0.(sections := s0.sections + [Section(target, 0, 0, 0)], parsedEnd := end,
                          needs := false, allowed := false, saw := false)
  {
    if open {
      return s0.(stopped := true);
    }
    s := s0.(sections := s0.sections + [Section(target, 0, 0, 0)]);
    s := s.(parsedEnd := end, needs := false, allowed := false, saw := false);
  }

  /** The rest of it, for a line that is no header and has a section. */
  method ParseInSection(g: Grammar, s0: State, raw: string, end: nat, open: bool) returns (s: State)
    requires s0.sections != [] && open == Pending(s0)
    ensures s == InSection(g, s0, raw, end)
  {
    s := s0;
    var last := |s.sections| - 1;
    var cur := s.sections[last];
    if s.allowed && !g.marker(raw) {
      cur := cur.(payload := cur.payload + 1);
      s := s.(sections := s.sections[last := cur], parsedEnd := end, saw := true, needs := false);
      return;
    }
    if g.blank(raw) {
      s := if open then s.(stopped := true) else s.(parsedEnd := end, allowed := false, needs := false, saw := false);
      return;
    }
    if open {
      s := s.(stopped := true);
      return;
    }
    if g.insert(raw) {
      cur := cur.(ops := cur.ops + 1);
      s := s.(sections := s.sections[last := cur], needs := true, allowed := true, saw := false);
      return;
    }
    var replace := g.replace(raw);
    if replace.Some? {
      cur := cur.(ops := cur.ops + 1, deleted := cur.deleted + replace.value);
      s := s.(sections := s.sections[last := cur], parsedEnd := end, needs := false, allowed := true, saw := false);
      return;
    }
    s := s.(stopped := true);
  }

  /** The parser itself: one pass over the line spans. */
  method ParseEditBoundary(g: Grammar, text: string) returns (r: Boundary)
    ensures r == BoundaryOf(g, text)
  {
    var lines := SplitLines(text);
    var s := START;
    var end, k := 0, 0;
    while k < |lines| && !s.stopped
      invariant k <= |lines| && end == Width(lines[..k]) && s == Take(g, lines[..k])
      decreases |lines| - k
    {
      assert lines[..k + 1] == lines[..k] + [lines[k]];
      TakeSnoc(g, lines[..k], lines[k]);
      WidthSnoc(lines[..k], lines[k]);
      end := end + |lines[k]|;
      s := ParseLine(g, s, lines[k], end);
      k := k + 1;
    }
    if s.stopped {
      StopLasts(g, lines, k);
    } else {
      assert lines[..k] == lines;
    }
    if s.sections == [] && g.legacyStart(text) {
      return g.legacy(text);
    }
    var ok := s.parsedEnd > 0 && s.sections != [];
    var reason := if ok then Fine else NoCompletePrefix;
    if s.needs && !s.saw {
      reason := MissingPayload;
    }
    r := Boundary(ok, s.parsedEnd, reason, s.sections, s.lineNo);
  }

  // ------------------------------------------------------------ what is kept

  predicate Lines(lines: seq<string>) {
    forall k :: 0 <= k < |lines| ==> lines[k] != ""
  }

  /** The lines are an edit read to its end, with no insertion left open. */
  predicate WellFormed(g: Grammar, lines: seq<string>) {
    !Take(g, lines).stopped && !Pending(Take(g, lines))
  }

  /** How many lines the parsed end keeps. */
  function Kept(g: Grammar, lines: seq<string>): (k: nat)
    ensures k <= |lines|
  {
    if lines == [] || Take(g, lines).parsedEnd == Width(lines) then |lines| else Kept(g, lines[..|lines| - 1])
  }

  /** One line either ends the parse, opens an insertion, or is kept. */
  lemma LineOutcome(g: Grammar, before: State, raw: string, end: nat)
    requires !before.stopped && (Pending(before) ==> before.seen && before.allowed && before.sections != [])
    ensures
      var s := TakeLine(g, before, raw, end);
      && (s.stopped ==> s.parsedEnd == before.parsedEnd && s.sections == before.sections && Pending(s) == Pending(before))
      && (!s.stopped && Pending(s) ==>
            && !Pending(before) && s.parsedEnd == before.parsedEnd && s.seen && s.allowed
            && before.sections != [] && s.sections == MoreOps(before.sections, 0))
      && (!s.stopped && !Pending(s) ==> s.parsedEnd == end)
      && (!s.stopped && Pending(before) ==>
            !g.marker(raw) && !g.beginPatch(raw) && !g.endPatch(raw) && g.header(raw).None? && s.sections == MorePayload(before.sections))
  {
  }

  lemma LineSections(g: Grammar, before: State, raw: string, end: nat)
    ensures before.sections != [] ==> TakeLine(g, before, raw, end).sections != []
    ensures
      var s := TakeLine(g, before, raw, end);
      s.sections != before.sections ==> s.parsedEnd == end || (s.sections != [] && before.sections != [])
    ensures TakeLine(g, before, raw, end).parsedEnd in {before.parsedEnd, end}
  {
  }

  lemma InsertPends(g: Grammar, before: State, raw: string, end: nat)
    requires Lawful(g) && g.insert(raw) && !TakeLine(g, before, raw, end).stopped
    ensures Pending(TakeLine(g, before, raw, end))
  {
  }

  /** The state is that of the lines kept, but for an insertion left open. */
  ghost predicate KeepsUpTo(g: Grammar, lines: seq<string>, k: nat) {
    k <= |lines| &&
    var s, t := Take(g, lines), Take(g, lines[..k]);
    && WellFormed(g, lines[..k])
    && s.parsedEnd == t.parsedEnd == Width(lines[..k])
    && (if Pending(s) then t.sections != [] && s.sections == MoreOps(t.sections, 0) else s.sections == t.sections)
    && (Pending(s) ==> s.seen && s.allowed)
    && (!s.stopped ==> k == if Pending(s) then |lines| - 1 else |lines|)
  }

  lemma {:induction false} KeptState(g: Grammar, lines: seq<string>)
    requires Lines(lines)
    ensures KeepsUpTo(g, lines, Kept(g, lines))
  {
    if lines != [] {
      var init, raw := lines[..|lines| - 1], lines[|lines| - 1];
      KeptState(g, init);
      KeptStep(g, init, raw);
      assert lines == init + [raw];
    }
  }

  lemma KeptStep(g: Grammar, init: seq<string>, raw: string)
    requires raw != "" && KeepsUpTo(g, init, Kept(g, init))
    ensures KeepsUpTo(g, init + [raw], Kept(g, init + [raw]))
  {
    var lines := init + [raw];
    assert lines[..|init|] == init && lines[..|lines|] == lines;
    var k := Kept(g, init);
    assert lines[..k] == init[..k];
    WidthSnoc(init, raw);
    TakeSnoc(g, init, raw);
    WidthPrefix(init, k);
    if !Take(g, init).stopped {
      LineOutcome(g, Take(g, init), raw, Width(lines));
    }
  }

  lemma {:induction false} WidthPrefix(lines: seq<string>, k: nat)
    requires k <= |lines|
    ensures Width(lines[..k]) <= Width(lines)
  {
    assert lines[..k] + lines[k..] == lines;
    WidthAppend(lines[..k], lines[k..]);
  }

  lemma WidthStrict(lines: seq<string>, j: nat, k: nat)
    requires Lines(lines) && j < k <= |lines|
    ensures Width(lines[..j]) < Width(lines[..k])
  {
    assert lines[..k] == lines[..k - 1] + [lines[k - 1]] && lines[..k - 1][..j] == lines[..j];
    WidthSnoc(lines[..k - 1], lines[k - 1]);
    WidthPrefix(lines[..k - 1], j);
  }

  /** Reading on never lowers the parsed end. */
  lemma {:induction false} EndGrows(g: Grammar, lines: seq<string>, m: nat)
    requires m <= |lines|
    ensures Take(g, lines[..m]).parsedEnd <= Take(g, lines).parsedEnd <= Width(lines)
  {
    if m == |lines| {
      assert lines[..m] == lines;
    } else {
      assert lines[..|lines| - 1][..m] == lines[..m];
    }
    if lines != [] {
      EndGrows(g, lines[..|lines| - 1], if m == |lines| then 0 else m);
      WidthPrefix(lines, |lines| - 1);
      LineSections(g, Take(g, lines[..|lines| - 1]), lines[|lines| - 1], Width(lines));
    }
  }

  /** What is kept is the longest prefix of whole lines that is a well-formed
      edit by itself. */
  lemma KeptIsLongest(g: Grammar, lines: seq<string>)
    requires Lines(lines)
    ensures WellFormed(g, lines[..Kept(g, lines)])
    ensures forall m :: 0 <= m <= |lines| && WellFormed(g, lines[..m]) ==> m <= Kept(g, lines)
  {
    var k := Kept(g, lines);
    KeptState(g, lines);
    forall m | 0 <= m <= |lines| && WellFormed(g, lines[..m]) ensures m <= k {
      KeptState(g, lines[..m]);
      assert lines[..m][..m] == lines[..m];
      EndGrows(g, lines, m);
      if k < m {
        WidthStrict(lines, k, m);
      }
    }
  }

  /** The text kept is made of whole lines of `text`, and reading it again gives
      the same parsed end and the same sections, less the one operation that an
      insertion left open had added. */
  lemma ReparseKept(g: Grammar, text: string)
    requires Take(g, SplitLines(text)).sections != []
    ensures
      var b := BoundaryOf(g, text);
      && b.ok && b.parsedEnd <= |text|
      && SplitLines(text[..b.parsedEnd]) == SplitLines(text)[..Kept(g, SplitLines(text))]
      && var again := BoundaryOf(g, text[..b.parsedEnd]);
         && again.ok && again.reason == Fine && again.parsedEnd == b.parsedEnd
         && if b.reason == MissingPayload
            then again.sections != [] && b.sections == MoreOps(again.sections, 0)
            else again.sections == b.sections
  {
    var lines := SplitLines(text);
    var k := Kept(g, lines);
    KeptState(g, lines);
    SplitPrefix(text, k);
    SectionsEnd(g, lines[..k]);
  }

  /** A section was opened by a line that was kept. */
  lemma {:induction false} SectionsEnd(g: Grammar, lines: seq<string>)
    requires Lines(lines)
    ensures Take(g, lines).sections != [] ==> Take(g, lines).parsedEnd > 0
  {
    if lines != [] {
      var init, raw := lines[..|lines| - 1], lines[|lines| - 1];
      SectionsEnd(g, init);
      LineSections(g, Take(g, init), raw, Width(lines));
    }
  }

  function OpCount(sections: seq<Section>): nat {
    if sections == [] then 0 else OpCount(sections[..|sections| - 1]) + sections[|sections| - 1].ops
  }

  /** Reading the kept text again counts the same operations exactly when no
      insertion was left open. */
  lemma SameOpCount(g: Grammar, text: string)
    requires Take(g, SplitLines(text)).sections != []
    ensures BoundaryOf(g, text).parsedEnd <= |text|
    ensures
      var b := BoundaryOf(g, text);
      OpCount(BoundaryOf(g, text[..b.parsedEnd]).sections) == OpCount(b.sections) <==> b.reason != MissingPayload
  {
    ReparseKept(g, text);
    var b := BoundaryOf(g, text);
    var again := BoundaryOf(g, text[..b.parsedEnd]);
    if b.reason == MissingPayload {
      assert b.sections[..|b.sections| - 1] == again.sections[..|again.sections| - 1];
    }
  }

  /** Every insertion in the kept lines has its payload there too. */
  lemma InsertionsKeepPayload(g: Grammar, lines: seq<string>, i: nat)
    requires Lawful(g) && Lines(lines) && i < Kept(g, lines) && g.insert(lines[i])
    ensures i + 1 < Kept(g, lines) && !g.marker(lines[i + 1])
    ensures !g.beginPatch(lines[i + 1]) && !g.endPatch(lines[i + 1]) && g.header(lines[i + 1]).None?
  {
    var k := Kept(g, lines);
    KeptState(g, lines);
    NotStopped(g, lines, i, k);
    NotStopped(g, lines, i + 1, k);
    TakeNext(g, lines, i);
    InsertPends(g, Take(g, lines[..i]), lines[i], Width(lines[..i + 1]));
    KeptState(g, lines[..i + 1]);
    assert i + 1 < k;
    NotStopped(g, lines, i + 2, k);
    AfterPending(g, lines, i + 1);
  }

  /** What follows an open insertion and does not stop the parse is payload. */
  lemma AfterPending(g: Grammar, lines: seq<string>, i: nat)
    requires Lines(lines) && i < |lines| && Pending(Take(g, lines[..i]))
    requires !Take(g, lines[..i]).stopped && !Take(g, lines[..i + 1]).stopped
    ensures !g.marker(lines[i]) && !g.beginPatch(lines[i]) && !g.endPatch(lines[i]) && g.header(lines[i]).None?
  {
    KeptState(g, lines[..i]);
    TakeNext(g, lines, i);
    LineOutcome(g, Take(g, lines[..i]), lines[i], Width(lines[..i + 1]));
  }

  lemma TakeNext(g: Grammar, lines: seq<string>, i: nat)
    requires i < |lines| && !Take(g, lines[..i]).stopped
    ensures Take(g, lines[..i + 1]) == TakeLine(g, Take(g, lines[..i]), lines[i], Width(lines[..i + 1]))
  {
    assert lines[..i + 1] == lines[..i] + [lines[i]];
    TakeSnoc(g, lines[..i], lines[i]);
    WidthSnoc(lines[..i], lines[i]);
  }

  lemma NotStopped(g: Grammar, lines: seq<string>, i: nat, k: nat)
    requires i <= k <= |lines| && !Take(g, lines[..k]).stopped
    ensures !Take(g, lines[..i]).stopped
  {
    if Take(g, lines[..i]).stopped {
      assert lines[..k][..i] == lines[..i];
      StopLasts(g, lines[..k], i);
    }
  }

  /** More text after a complete line never lowers the parsed end, and the text
      that was kept stays kept. */
  lemma AppendKeeps(g: Grammar, text: string, more: string)
    requires Complete(text, more) && Take(g, SplitLines(text)).sections != []
    ensures
      var b, longer := BoundaryOf(g, text), BoundaryOf(g, text + more);
      && longer.ok && b.parsedEnd <= |text| && b.parsedEnd <= longer.parsedEnd <= |text + more|
      && text[..b.parsedEnd] <= (text + more)[..longer.parsedEnd]
  {
    var lines := SplitLines(text);
    SplitAppend(text, more);
    var all := SplitLines(text + more);
    assert all[..|lines|] == lines;
    EndGrows(g, all, |lines|);
    EndGrows(g, lines, 0);
    WidthSplit(text);
    WidthSplit(text + more);
    SectionsStay(g, all, |lines|);
    SectionsEnd(g, all);
  }

  lemma {:induction false} SectionsStay(g: Grammar, lines: seq<string>, m: nat)
    requires m <= |lines| && Take(g, lines[..m]).sections != []
    ensures Take(g, lines).sections != []
  {
    if m == |lines| {
      assert lines[..m] == lines;
    } else {
      var init := lines[..|lines| - 1];
      assert init[..m] == lines[..m];
      SectionsStay(g, init, m);
      LineSections(g, Take(g, init), lines[|lines| - 1], Width(lines));
    }
  }

  // -------------------------------------------------------------- the action

  datatype Action = Allow | SanitizeTail | AbortReplay

  /** `signals` are the starts of the leaks found; `isEdit` holds for the input
      of an edit call. */
  function ActionForTool(isEdit: bool, signals: seq<nat>, boundary: Option<Boundary>): Action {
    if signals == [] then Allow
    else if isEdit && boundary.Some? && boundary.value.ok then
      if forall k :: 0 <= k < |signals| ==> signals[k] >= boundary.value.parsedEnd then SanitizeTail else AbortReplay
    else AbortReplay
  }

  /** An edit with leaks is cut exactly when the longest well-formed prefix of
      its lines has none; the cut text then is that prefix. */
  lemma CutIsSafe(g: Grammar, text: string, signals: seq<nat>)
    requires Take(g, SplitLines(text)).sections != [] && signals != []
    ensures
      var kept := SplitLines(text)[..Kept(g, SplitLines(text))];
      ActionForTool(true, signals, Some(BoundaryOf(g, text)))
        == if forall k :: 0 <= k < |signals| ==> signals[k] >= Width(kept) then SanitizeTail else AbortReplay
    ensures BoundaryOf(g, text).parsedEnd <= |text|
    ensures SplitLines(text[..BoundaryOf(g, text).parsedEnd]) == SplitLines(text)[..Kept(g, SplitLines(text))]
    ensures WellFormed(g, SplitLines(text)[..Kept(g, SplitLines(text))])
  {
    ReparseKept(g, text);
    KeptState(g, SplitLines(text));
  }
}
