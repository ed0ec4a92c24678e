/** Counterfactual replay of read calls under a candidate configuration, and
    the Pareto frontier over the replays. */
module ReadOptimizer {
  import opened Options
  import opened Sorting
  import opened Intervals

  const MAX_BYTES: int := 51200

  datatype Kind = Explicit | Open | Bare | Unbounded

  datatype ReadCall = ReadCall(
    kind: Kind, start: Option<int>, end: Option<int>, argTokens: nat, resultTokens: nat, tokensPerLine: real)

  datatype Config = Config(defaultLimit: int, maxLines: int, leading: int, trailing: int)

  function Max(a: int, b: int): int { if a < b then b else a }

  function Min(a: int, b: int): int { if a < b then a else b }

  // ---------- One call ----------

  function Requested(call: ReadCall, cfg: Config): Option<Span> {
    match call.kind
    case Explicit => if call.start.Some? && call.end.Some? then Some(Span(call.start.value, call.end.value)) else None
    case Open => if call.start.Some? then Some(Span(call.start.value, call.start.value + cfg.defaultLimit - 1)) else None
    case Bare => Some(Span(1, cfg.defaultLimit))
    case Unbounded => None
  }

  function FirstLine(s: int, cfg: Config): int {
    if s > 1 then Max(1, s - cfg.leading) else 1
  }

  function Delivered(call: ReadCall, cfg: Config): Option<Span> {
    match Requested(call, cfg)
    case None => None
    case Some(Span(s, e)) =>
      match call.kind
      case Explicit =>
        var start := FirstLine(s, cfg);
        var lines := Min(Max(1, e - s + 1) + (s - start) + cfg.trailing, cfg.maxLines);
        Some(Span(start, start + lines - 1))
      case Open =>
        var start := FirstLine(s, cfg);
        var lines := Min(cfg.defaultLimit + (s - start), cfg.maxLines);
        Some(Span(start, start + lines - 1))
      case Bare => Some(Span(1, Min(cfg.defaultLimit, cfg.maxLines)))
      case Unbounded => None
  }

  /** The first of the values that is present and not zero, or 1. */
  function Truthy(a: Option<int>, b: Option<int>): int {
    if a.Some? && a.value != 0 then a.value else if b.Some? && b.value != 0 then b.value else 1
  }

  function RequestedLength(call: ReadCall): int {
    Max(1, Truthy(call.end, call.start) - Truthy(call.start, None) + 1)
  }

  predicate CountsAsTruncated(call: ReadCall, cfg: Config, lines: int) {
    && lines >= cfg.maxLines && call.kind == Explicit
    && RequestedLength(call) + cfg.leading + cfg.trailing > cfg.maxLines
  }

  // ---------- The replay ----------

  datatype Tally = Tally(tokens: real, calls: nat, skipped: nat, truncations: nat, bytesLimited: nat)

  const ZERO := Tally(0.0, 0, 0, 0, 0)

  function Plus(a: Tally, b: Tally): Tally {
    Tally(a.tokens + b.tokens, a.calls + b.calls, a.skipped + b.skipped,
          a.truncations + b.truncations, a.bytesLimited + b.bytesLimited)
  }

  /** What one call adds to the totals when it is paid for. */
  function Paid(call: ReadCall, cfg: Config, delivered: Span): Tally {
    var lines := delivered.hi - delivered.lo + 1;
    var lineTokens := call.tokensPerLine * lines as real;
    var budget := Max(MAX_BYTES, lines * 512) as real;
    var over := lineTokens * 4.0 > budget;
    Tally(call.argTokens as real + (if over then budget / 4.0 else lineTokens), 1, 0,
          if CountsAsTruncated(call, cfg, lines) then 1 else 0, if over then 1 else 0)
  }

  predicate Skips(cfg: Config, first: bool, coverage: seq<Span>, call: ReadCall) {
    var req := Requested(call, cfg);
    req.Some? && Delivered(call, cfg).Some? && !first && CoveredScan(coverage, req.value)
  }

  function StepTally(cfg: Config, first: bool, coverage: seq<Span>, call: ReadCall): Tally {
    var delivered := Delivered(call, cfg);
    if delivered.None? then Tally((call.argTokens + call.resultTokens) as real, 1, 0, 0, 0)
    else if Skips(cfg, first, coverage, call) then ZERO.(skipped := 1)
    else Paid(call, cfg, delivered.value)
  }

  function StepCoverage(cfg: Config, first: bool, coverage: seq<Span>, call: ReadCall): seq<Span> {
    var delivered := Delivered(call, cfg);
    if delivered.None? || Skips(cfg, first, coverage, call) then coverage else Add(coverage, delivered.value)
  }

  /** Coverage and totals after the calls of one file in one session. */
  function ReplayGroup(cfg: Config, group: seq<ReadCall>): (seq<Span>, Tally) {
    if group == [] then ([], ZERO) else
    var (coverage, tally) := ReplayGroup(cfg, group[..|group| - 1]);
    var call, first := group[|group| - 1], |group| == 1;
    (StepCoverage(cfg, first, coverage, call), Plus(tally, StepTally(cfg, first, coverage, call)))
  }

  function Replay(cfg: Config, groups: seq<seq<ReadCall>>): Tally {
    if groups == [] then ZERO
    else Plus(Replay(cfg, groups[..|groups| - 1]), ReplayGroup(cfg, groups[|groups| - 1]).1)
  }

  /** The charge for one delivered interval. */
  method Pay(call: ReadCall, cfg: Config, delivered: Span) returns (t: Tally)
    ensures t == Paid(call, cfg, delivered)
  {
    var lines := delivered.hi - delivered.lo + 1;
    var truncations, bytesLimited := 0, 0;
    if lines >= cfg.maxLines && call.kind == Explicit {
      if RequestedLength(call) + cfg.leading + cfg.trailing > cfg.maxLines {
        truncations := 1;
      }
    }
    var lineTokens := call.tokensPerLine * lines as real;
    var budget := Max(MAX_BYTES, lines * 512) as real;
    if lineTokens * 4.0 > budget {
      bytesLimited := 1;
      lineTokens := budget / 4.0;
    }
    t := Tally(call.argTokens as real + lineTokens, 1, 0, truncations, bytesLimited);
  }

  /** The inner loop: the calls of one group, with fresh coverage. */
  method ReplayCalls(cfg: Config, group: seq<ReadCall>) returns (coverage: seq<Span>, t: Tally)
    ensures (coverage, t) == ReplayGroup(cfg, group)
  {
    coverage, t := [], ZERO;
    for idx := 0 to |group|
      invariant (coverage, t) == ReplayGroup(cfg, group[..idx])
    {
      var call := group[idx];
      assert group[..idx + 1][..idx] == group[..idx];
      var req, delivered := Requested(call, cfg), Delivered(call, cfg);
      if req.None? || delivered.None? {
        t := Plus(t, Tally((call.argTokens + call.resultTokens) as real, 1, 0, 0, 0));
        continue;
      }
      if idx > 0 {
        var covered := IsCovered(coverage, req.value);
        if covered {
          t := Plus(t, ZERO.(skipped := 1));
          continue;
        }
      }
      var paid := Pay(call, cfg, delivered.value);
      t := Plus(t, paid);
      coverage := AddInterval(coverage, delivered.value);
    }
    assert group[..|group|] == group;
  }

  method ReplayAll(cfg: Config, groups: seq<seq<ReadCall>>) returns (t: Tally)
    ensures t == Replay(cfg, groups)
  {
    t := ZERO;
    for g := 0 to |groups|
      invariant t == Replay(cfg, groups[..g])
    {
      assert groups[..g + 1][..g] == groups[..g];
      var _, ofGroup := ReplayCalls(cfg, groups[g]);
      t := Plus(t, ofGroup);
    }
    assert groups[..|groups|] == groups;
  }

  // ---------- Every call is paid for or skipped ----------

  function CallCount(groups: seq<seq<ReadCall>>): nat {
    if groups == [] then 0 else CallCount(groups[..|groups| - 1]) + |groups[|groups| - 1]|
  }

  lemma {:induction false} GroupCounts(cfg: Config, group: seq<ReadCall>)
    ensures ReplayGroup(cfg, group).1.calls + ReplayGroup(cfg, group).1.skipped == |group|
  {
    if group != [] {
      GroupCounts(cfg, group[..|group| - 1]);
    }
  }

  lemma {:induction false} PaidPlusSkipped(cfg: Config, groups: seq<seq<ReadCall>>)
    ensures Replay(cfg, groups).calls + Replay(cfg, groups).skipped == CallCount(groups)
  {
    if groups != [] {
      PaidPlusSkipped(cfg, groups[..|groups| - 1]);
      GroupCounts(cfg, groups[|groups| - 1]);
    }
  }

  // ---------- Coverage ----------

  predicate GoodConfig(cfg: Config) {
    cfg.defaultLimit >= 1 && cfg.maxLines >= 1 && cfg.leading >= 0 && cfg.trailing >= 0
  }

  /** Calls as the selector parser makes them: starts from 0 on, ends no
      smaller than starts. */
  predicate ParsedCall(call: ReadCall) {
    && (call.kind == Explicit || call.kind == Open ==> call.start.Some? && call.start.value >= 0)
    && (call.kind == Explicit ==> call.end.Some? && call.end.value >= call.start.value)
  }

  predicate GoodCall(call: ReadCall) {
    ParsedCall(call) && (call.kind == Explicit || call.kind == Open ==> call.start.value >= 1)
  }

  /** The call delivers at least one line: all do but those from line 0 with next
      to nothing asked for. */
  predicate DeliversLines(call: ReadCall, cfg: Config)
    requires ParsedCall(call)
  {
    match call.kind
    case Explicit => call.start.value >= 1 || call.end.value + cfg.trailing >= 1
    case Open => call.start.value >= 1 || cfg.defaultLimit >= 2
    case _ => true
  }

  /** What a call that delivers no line adds. */
  const NOTHING := Span(1, 0)

  lemma DeliveredProper(call: ReadCall, cfg: Config)
    requires GoodConfig(cfg) && ParsedCall(call) && Delivered(call, cfg).Some?
    ensures
      var d := Delivered(call, cfg).value;
      && (d.lo <= d.hi <==> DeliversLines(call, cfg))
      && d.lo >= 1 && (d.lo > d.hi ==> d == NOTHING && Requested(call, cfg) == Some(Span(0, 0)))
  {
  }

  /** A canonical list of lines from 1 on. */
  predicate Tame(coverage: seq<Span>) {
    Canonical(coverage) && (coverage != [] ==> coverage[0].lo >= 1)
  }

  /** ... with the empty interval put before it, line 1 not being covered. */
  predicate Marred(coverage: seq<Span>) {
    && coverage != [] && coverage[0] == NOTHING
    && Tame(coverage[1..]) && (|coverage| > 1 ==> coverage[1].lo > 1)
  }

  lemma MarredIsNotCanonical(coverage: seq<Span>)
    requires Marred(coverage)
    ensures !Canonical(coverage) && !In(coverage, 1)
    ensures forall x :: In(coverage, x) <==> In(coverage[1..], x)
  {
    LineOne(coverage[1..]);
  }

  /** Line 1 is covered exactly when it starts the list. */
  lemma LineOne(coverage: seq<Span>)
    requires Tame(coverage)
    ensures In(coverage, 1) <==> coverage != [] && coverage[0].lo == 1
  {
    if coverage != [] {
      HeadCovered(coverage);
    }
  }

  /** An empty interval leaves the list as it is exactly when line 1 is covered. */
  lemma AddNothing(coverage: seq<Span>)
    requires Tame(coverage)
    ensures Add(coverage, NOTHING) == if coverage != [] && coverage[0].lo == 1 then coverage else [NOTHING] + coverage
  {
    if coverage != [] && coverage[0].lo == 1 {
      AddFront(coverage[1..], coverage[0]);
      assert [coverage[0]] + coverage[1..] == coverage;
    } else {
      AddFront(coverage, NOTHING);
    }
  }

  /** Another call that delivers nothing changes nothing more, one that delivers
      line 1 mends the list, and any other adds its lines beside the empty interval. */
  lemma AddToMarred(coverage: seq<Span>, v: Span)
    requires Marred(coverage) && v.lo >= 1 && (v.lo <= v.hi || v == NOTHING)
    ensures
      Add(coverage, v) == if v == NOTHING then coverage
                          else if v.lo == 1 then Add(coverage[1..], v)
                          else [NOTHING] + Add(coverage[1..], v)
  {
    if v == NOTHING {
      AddFront(coverage[1..], NOTHING);
      assert [NOTHING] + coverage[1..] == coverage;
    }
  }

  /** Every coverage a replay reaches. */
  predicate Reached(coverage: seq<Span>) {
    Tame(coverage) || Marred(coverage)
  }

  /** What adding a delivered interval does to the lines, and to the canonical form. */
  lemma AddReached(coverage: seq<Span>, v: Span)
    requires Reached(coverage) && v.lo >= 1 && (v.lo <= v.hi || v == NOTHING)
    ensures Reached(Add(coverage, v))
    ensures forall x :: In(Add(coverage, v), x) <==> In(coverage, x) || Has(v, x)
    ensures Canonical(Add(coverage, v)) <==> In(coverage, 1) || (v.lo <= v.hi && (Canonical(coverage) || v.lo == 1))
  {
    if Tame(coverage) {
      AddToTame(coverage, v);
    } else {
      AddToMarred(coverage, v);
      MarredIsNotCanonical(coverage);
      if v != NOTHING {
        AddToTame(coverage[1..], v);
        AddCanonical(coverage[1..], v);
        if v.lo > 1 {
          MarredIsNotCanonical([NOTHING] + Add(coverage[1..], v));
        }
      }
    }
  }

  lemma AddToTame(coverage: seq<Span>, v: Span)
    requires Tame(coverage) && v.lo >= 1 && (v.lo <= v.hi || v == NOTHING)
    ensures Reached(Add(coverage, v))
    ensures forall x :: In(Add(coverage, v), x) <==> In(coverage, x) || Has(v, x)
    ensures Canonical(Add(coverage, v)) <==> In(coverage, 1) || v.lo <= v.hi
  {
    LineOne(coverage);
    if v == NOTHING {
      AddNothing(coverage);
      if !In(coverage, 1) {
        MarredIsNotCanonical([NOTHING] + coverage);
      }
    } else {
      AddSound(coverage, v);
      AddCanonical(coverage, v);
    }
  }

  /** On every coverage reached, the scan decides inclusion for lines from 1 on,
      and never skips a call for line 0. */
  lemma ScanReached(coverage: seq<Span>, v: Span)
    requires Reached(coverage) && 0 <= v.lo <= v.hi
    ensures CoveredScan(coverage, v) <==> Covers(coverage, v)
    ensures v.lo == 0 ==> !Covers(coverage, v)
  {
    if Tame(coverage) {
      ScanIsCovers(coverage, v);
      FromLineOne(coverage, v);
    } else {
      MarredIsNotCanonical(coverage);
      ScanIsCovers(coverage[1..], v);
      FromLineOne(coverage[1..], v);
      assert Covers(coverage, v) <==> Covers(coverage[1..], v);
    }
  }

  lemma FromLineOne(coverage: seq<Span>, v: Span)
    requires Tame(coverage) && v.lo <= v.hi
    ensures v.lo <= 0 ==> !Covers(coverage, v)
  {
    if coverage != [] {
      HeadCovered(coverage);
    }
    assert v.lo <= 0 ==> Has(v, v.lo) && !In(coverage, v.lo);
  }

  /** One call leaves a canonical coverage canonical exactly when it delivers
      lines or line 1 is covered already. */
  lemma StepCanonicalExactly(cfg: Config, first: bool, coverage: seq<Span>, call: ReadCall)
    requires GoodConfig(cfg) && ParsedCall(call) && Tame(coverage)
    ensures Canonical(StepCoverage(cfg, first, coverage, call)) <==>
      DeliversLines(call, cfg) || (coverage != [] && coverage[0].lo == 1)
  {
    LineOne(coverage);
    StepReached(cfg, first, coverage, call);
  }

  /** Call `k` of a group is paid for and delivers from line 1 on. */
  predicate DeliversLineOne(cfg: Config, group: seq<ReadCall>, k: nat)
    requires k < |group| && ParsedCall(group[k])
  {
    && Delivered(group[k], cfg).Some? && Delivered(group[k], cfg).value.lo == 1 && DeliversLines(group[k], cfg)
    && !Skips(cfg, k == 0, ReplayGroup(cfg, group[..k]).0, group[k])
  }

  ghost predicate ParsedCalls(group: seq<ReadCall>) {
    forall k :: 0 <= k < |group| ==> ParsedCall(group[k])
  }

  ghost predicate AllDeliver(cfg: Config, group: seq<ReadCall>)
    requires ParsedCalls(group)
  {
    forall k :: 0 <= k < |group| ==> DeliversLines(group[k], cfg)
  }

  ghost predicate SomeDeliversLineOne(cfg: Config, group: seq<ReadCall>)
    requires ParsedCalls(group)
  {
    exists k :: 0 <= k < |group| && DeliversLineOne(cfg, group, k)
  }

  lemma LineOneSnoc(cfg: Config, group: seq<ReadCall>)
    requires group != [] && ParsedCalls(group)
    ensures ParsedCalls(group[..|group| - 1])
    ensures SomeDeliversLineOne(cfg, group)
       <==> SomeDeliversLineOne(cfg, group[..|group| - 1]) || DeliversLineOne(cfg, group, |group| - 1)
    ensures AllDeliver(cfg, group) <==> AllDeliver(cfg, group[..|group| - 1]) && DeliversLines(group[|group| - 1], cfg)
  {
    var front := group[..|group| - 1];
    forall k | 0 <= k < |front| ensures DeliversLineOne(cfg, front, k) <==> DeliversLineOne(cfg, group, k) {
      assert front[..k] == group[..k];
    }
    if SomeDeliversLineOne(cfg, front) {
      var k :| 0 <= k < |front| && DeliversLineOne(cfg, front, k);
      assert DeliversLineOne(cfg, group, k);
    }
  }

  /** The coverage of a group is canonical exactly when every call delivers lines
      or some call that is paid for delivers line 1. */
  lemma {:induction false} CoverageCanonical(cfg: Config, group: seq<ReadCall>)
    requires GoodConfig(cfg) && ParsedCalls(group)
    ensures Reached(ReplayGroup(cfg, group).0)
    ensures In(ReplayGroup(cfg, group).0, 1) <==> SomeDeliversLineOne(cfg, group)
    ensures Canonical(ReplayGroup(cfg, group).0) <==> AllDeliver(cfg, group) || SomeDeliversLineOne(cfg, group)
  {
    if group != [] {
      var front, call := group[..|group| - 1], group[|group| - 1];
      LineOneSnoc(cfg, group);
      CoverageCanonical(cfg, front);
      var coverage := ReplayGroup(cfg, front).0;
      StepReached(cfg, |group| == 1, coverage, call);
    }
  }

  lemma StepReached(cfg: Config, first: bool, coverage: seq<Span>, call: ReadCall)
    requires GoodConfig(cfg) && ParsedCall(call) && Reached(coverage)
    ensures
      var after, d := StepCoverage(cfg, first, coverage, call), Delivered(call, cfg);
      var paid := d.Some? && !Skips(cfg, first, coverage, call);
      && Reached(after)
      && (forall x :: In(after, x) <==> In(coverage, x) || (paid && Has(d.value, x)))
      && (In(after, 1) <==> In(coverage, 1) || (paid && d.value.lo == 1 && DeliversLines(call, cfg)))
      && (Canonical(after) <==> In(after, 1) || (Canonical(coverage) && DeliversLines(call, cfg)))
  {
    if Delivered(call, cfg).Some? {
      var d := Delivered(call, cfg).value;
      DeliveredProper(call, cfg);
      AddReached(coverage, d);
      if !DeliversLines(call, cfg) {
        ScanReached(coverage, Span(0, 0));
      }
    }
    if Marred(coverage) {
      MarredIsNotCanonical(coverage);
    }
  }

  /** A call for line 0 alone breaks the canonical form under every configuration
      without trailing context. */
  lemma ZeroStartExample(cfg: Config, call: ReadCall)
    requires GoodConfig(cfg) && cfg.trailing == 0
    requires call.kind == Explicit && call.start == Some(0) && call.end == Some(0)
    ensures !Canonical(ReplayGroup(cfg, [call]).0)
  {
    assert [call][..0] == [];
    assert Delivered(call, cfg) == Some(NOTHING);
    assert ReplayGroup(cfg, [call]).0 == Add([], NOTHING) == [NOTHING];
  }

  /** An explicit call not counted as truncated, and a bare call under a default
      within the cap, deliver every line asked for. */
  lemma DeliversRequested(call: ReadCall, cfg: Config)
    requires GoodConfig(cfg) && GoodCall(call) && (call.kind == Explicit || call.kind == Bare)
    requires call.kind == Bare ==> cfg.defaultLimit <= cfg.maxLines
    requires
      var d := Delivered(call, cfg).value;
      !CountsAsTruncated(call, cfg, d.hi - d.lo + 1)
    ensures
      var (r, d) := (Requested(call, cfg).value, Delivered(call, cfg).value);
      d.lo <= r.lo && r.hi <= d.hi
  {
  }

  /** An open call delivers every line asked for exactly when the default and
      its leading context fit under the cap; a shortfall is not counted. */
  lemma OpenDeliversRequested(call: ReadCall, cfg: Config)
    requires GoodConfig(cfg) && GoodCall(call) && call.kind == Open
    ensures
      var (r, d) := (Requested(call, cfg).value, Delivered(call, cfg).value);
      && !CountsAsTruncated(call, cfg, d.hi - d.lo + 1)
      && (d.lo <= r.lo && r.hi <= d.hi <==> cfg.defaultLimit + Min(cfg.leading, call.start.value - 1) <= cfg.maxLines)
  {
  }

  lemma StepCovers(cfg: Config, first: bool, coverage: seq<Span>, call: ReadCall)
    requires GoodConfig(cfg) && GoodCall(call) && Reached(coverage)
    requires call.kind == Explicit || call.kind == Bare
    requires cfg.defaultLimit <= cfg.maxLines && StepTally(cfg, first, coverage, call).truncations == 0
    ensures Covers(StepCoverage(cfg, first, coverage, call), Requested(call, cfg).value)
  {
    var r := Requested(call, cfg).value;
    if Skips(cfg, first, coverage, call) {
      ScanReached(coverage, r);
    } else {
      DeliversRequested(call, cfg);
      StepReached(cfg, first, coverage, call);
    }
  }

  /** Without truncations, every line an explicit or bare call of a group asks
      for is covered in the end, exactly when the call starts at line 1 or later,
      whatever the other calls ask for. */
  lemma {:induction false} NothingLost(cfg: Config, group: seq<ReadCall>, i: nat)
    requires GoodConfig(cfg) && cfg.defaultLimit <= cfg.maxLines && ParsedCalls(group)
    requires ReplayGroup(cfg, group).1.truncations == 0
    requires i < |group| && (group[i].kind == Explicit || group[i].kind == Bare)
    ensures Requested(group[i], cfg).Some?
    ensures Covers(ReplayGroup(cfg, group).0, Requested(group[i], cfg).value) <==> GoodCall(group[i])
    decreases |group|
  {
    assert ParsedCall(group[i]);
    CoverageCanonical(cfg, group);
    if !GoodCall(group[i]) {
      ScanReached(ReplayGroup(cfg, group).0, Requested(group[i], cfg).value);
    } else {
      var front, call := group[..|group| - 1], group[|group| - 1];
      var coverage := ReplayGroup(cfg, front).0;
      CoverageCanonical(cfg, front);
      if i == |group| - 1 {
        StepCovers(cfg, |group| == 1, coverage, call);
      } else {
        NothingLost(cfg, front, i);
        StepReached(cfg, |group| == 1, coverage, call);
      }
    }
  }

  lemma {:induction false} NoTruncationsAnywhere(cfg: Config, groups: seq<seq<ReadCall>>, g: nat)
    requires g < |groups| && Replay(cfg, groups).truncations == 0
    ensures ReplayGroup(cfg, groups[g]).1.truncations == 0
    decreases |groups|
  {
    if g < |groups| - 1 {
      NoTruncationsAnywhere(cfg, groups[..|groups| - 1], g);
    }
  }

  /** ... in every group of a replay that reports no truncation. */
  lemma ReplayLosesNothing(cfg: Config, groups: seq<seq<ReadCall>>, g: nat, i: nat)
    requires GoodConfig(cfg) && cfg.defaultLimit <= cfg.maxLines
    requires g < |groups| && ParsedCalls(groups[g])
    requires i < |groups[g]| && (groups[g][i].kind == Explicit || groups[g][i].kind == Bare)
    ensures Requested(groups[g][i], cfg).Some?
    ensures Replay(cfg, groups).truncations == 0 ==>
              (Covers(ReplayGroup(cfg, groups[g]).0, Requested(groups[g][i], cfg).value) <==> GoodCall(groups[g][i]))
  {
    assert ParsedCall(groups[g][i]);
    if Replay(cfg, groups).truncations == 0 {
      NoTruncationsAnywhere(cfg, groups, g);
      NothingLost(cfg, groups[g], i);
    }
  }

  // ---------- The Pareto frontier ----------

  datatype Candidate = Candidate(config: Config, tokens: real, calls: int, truncations: int)

  predicate CostLe(a: Candidate, b: Candidate) {
    a.tokens < b.tokens || (a.tokens == b.tokens && a.calls <= b.calls)
  }

  predicate Eligible(r: Candidate, maxTruncations: int, maxTokens: Option<real>) {
    r.truncations <= maxTruncations && (maxTokens.Some? ==> r.tokens <= maxTokens.value)
  }

  function Filter(results: seq<Candidate>, maxTruncations: int, maxTokens: Option<real>): seq<Candidate> {
    if results == [] then [] else
    var front := Filter(results[..|results| - 1], maxTruncations, maxTokens);
    if Eligible(results[|results| - 1], maxTruncations, maxTokens) then front + [results[|results| - 1]] else front
  }

  lemma {:induction false} FilterElements(results: seq<Candidate>, maxTruncations: int, maxTokens: Option<real>, r: Candidate)
    ensures r in Filter(results, maxTruncations, maxTokens) <==> r in results && Eligible(r, maxTruncations, maxTokens)
  {
    if results != [] {
      FilterElements(results[..|results| - 1], maxTruncations, maxTokens, r);
      assert results == results[..|results| - 1] + [results[|results| - 1]];
    }
  }

  /** No worse in either coordinate. */
  predicate WeaklyDominates(a: Candidate, b: Candidate) {
    a.tokens <= b.tokens && a.calls <= b.calls
  }

  predicate Dominates(a: Candidate, b: Candidate) {
    WeaklyDominates(a, b) && (a.tokens < b.tokens || a.calls < b.calls)
  }

  predicate Staircase(frontier: seq<Candidate>) {
    forall i, j :: 0 <= i < j < |frontier| ==>
      frontier[i].tokens < frontier[j].tokens && frontier[i].calls > frontier[j].calls
  }

  /** Some member weakly dominates the result. */
  ghost predicate Answered(frontier: seq<Candidate>, r: Candidate) {
    exists m :: m in frontier && WeaklyDominates(m, r)
  }

  /** Each of the first `n` results is weakly dominated by a member. */
  ghost predicate Dominated(frontier: seq<Candidate>, results: seq<Candidate>, n: nat)
    requires n <= |results|
  {
    forall k :: 0 <= k < n ==> Answered(frontier, results[k])
  }

  lemma AnsweredSnoc(frontier: seq<Candidate>, added: Candidate, r: Candidate)
    requires Answered(frontier, r)
    ensures Answered(frontier + [added], r)
  {
    var m :| m in frontier && WeaklyDominates(m, r);
    assert m in frontier + [added];
  }

  lemma DominatedSnoc(frontier: seq<Candidate>, r: Candidate, results: seq<Candidate>, n: nat)
    requires n < |results| && Dominated(frontier, results, n) && r == results[n]
    ensures Dominated(frontier + [r], results, n + 1)
  {
    forall k | 0 <= k < n ensures Answered(frontier + [r], results[k]) {
      AnsweredSnoc(frontier, r, results[k]);
    }
    assert r in frontier + [r] && WeaklyDominates(r, r);
  }

  lemma StaircaseSnoc(frontier: seq<Candidate>, r: Candidate)
    requires Staircase(frontier)
    requires frontier != [] ==> r.calls < frontier[|frontier| - 1].calls && CostLe(frontier[|frontier| - 1], r)
    ensures Staircase(frontier + [r])
  {
  }

  lemma MembersUndominated(frontier: seq<Candidate>, results: seq<Candidate>, m: Candidate, r: Candidate)
    requires Staircase(frontier) && Dominated(frontier, results, |results|) && m in frontier && r in results
    ensures !Dominates(r, m)
  {
    var k :| 0 <= k < |results| && results[k] == r;
    assert Answered(frontier, results[k]);
    var m' :| m' in frontier && WeaklyDominates(m', r);
    StepsApart(frontier, m, m');
  }

  /** Two members of a staircase are equal or trade one cost for the other. */
  lemma StepsApart(frontier: seq<Candidate>, a: Candidate, b: Candidate)
    requires Staircase(frontier) && a in frontier && b in frontier
    ensures a == b || (a.tokens < b.tokens && a.calls > b.calls) || (b.tokens < a.tokens && b.calls > a.calls)
  {
    var i :| 0 <= i < |frontier| && frontier[i] == a;
    var j :| 0 <= j < |frontier| && frontier[j] == b;
  }

  lemma CleanElements(results: seq<Candidate>, maxTruncations: int, maxTokens: Option<real>)
    ensures
      var clean := Sort(Filter(results, maxTruncations, maxTokens), CostLe);
      && Sorted(clean, CostLe)
      && forall r :: r in clean <==> r in results && Eligible(r, maxTruncations, maxTokens)
  {
    var eligible := Filter(results, maxTruncations, maxTokens);
    assert TotalPreorder(CostLe);
    SortSorted(eligible, CostLe);
    forall r ensures r in Sort(eligible, CostLe) <==> r in results && Eligible(r, maxTruncations, maxTokens) {
      FilterElements(results, maxTruncations, maxTokens, r);
      SortElements(eligible, CostLe, r);
    }
  }

  /** The frontier: its members are eligible, none is dominated by an eligible
      result, and each eligible result is weakly dominated by a member. */
  method Pareto(results: seq<Candidate>, maxTruncations: int, maxTokens: Option<real>) returns (frontier: seq<Candidate>)
    ensures Staircase(frontier)
    ensures forall m :: m in frontier ==> m in results && Eligible(m, maxTruncations, maxTokens)
    ensures forall m, r :: m in frontier && r in results && Eligible(r, maxTruncations, maxTokens) ==> !Dominates(r, m)
    ensures forall r :: r in results && Eligible(r, maxTruncations, maxTokens) ==> Answered(frontier, r)
  {
    var clean := Sort(Filter(results, maxTruncations, maxTokens), CostLe);
    CleanElements(results, maxTruncations, maxTokens);
    frontier := ScanSorted(clean);
    FrontierSound(frontier, clean);
  }

  lemma FrontierSound(frontier: seq<Candidate>, clean: seq<Candidate>)
    requires Staircase(frontier) && Dominated(frontier, clean, |clean|)
    ensures forall m, r :: m in frontier && r in clean ==> !Dominates(r, m)
    ensures forall r :: r in clean ==> Answered(frontier, r)
  {
    forall m, r | m in frontier && r in clean ensures !Dominates(r, m) {
      MembersUndominated(frontier, clean, m, r);
    }
  }

  /** The scan of the eligible results, the cheapest first. */
  method ScanSorted(clean: seq<Candidate>) returns (frontier: seq<Candidate>)
    requires Sorted(clean, CostLe)
    ensures Staircase(frontier) && Dominated(frontier, clean, |clean|)
    ensures forall m :: m in frontier ==> m in clean
  {
    frontier := [];
    var best: Option<int> := None;
    ghost var last: nat := 0;
    for i := 0 to |clean|
      invariant Scanned(frontier, clean, i, last)
      invariant best == if frontier == [] then None else Some(frontier[|frontier| - 1].calls)
      invariant forall m :: m in frontier ==> m in clean
    {
      var r := clean[i];
      ScanStep(frontier, clean, i, last);
      if best.None? || r.calls < best.value {
        frontier := frontier + [r];
        best := Some(r.calls);
        last := i;
      }
    }
  }

  /** The frontier of the first `i` results, its last member the one at `last`. */
  ghost predicate Scanned(frontier: seq<Candidate>, clean: seq<Candidate>, i: nat, last: nat) {
    && i <= |clean| && Staircase(frontier) && Dominated(frontier, clean, i)
    && (frontier == [] <==> i == 0)
    && (frontier != [] ==> last < i && frontier[|frontier| - 1] == clean[last])
  }

  lemma ScanStep(frontier: seq<Candidate>, clean: seq<Candidate>, i: nat, last: nat)
    requires Sorted(clean, CostLe) && i < |clean| && Scanned(frontier, clean, i, last)
    ensures
      if frontier == [] || clean[i].calls < frontier[|frontier| - 1].calls
      then Scanned(frontier + [clean[i]], clean, i + 1, i)
      else Scanned(frontier, clean, i + 1, last)
  {
    assert frontier != [] ==> CostLe(clean[last], clean[i]);
    if frontier == [] || clean[i].calls < frontier[|frontier| - 1].calls {
      StaircaseSnoc(frontier, clean[i]);
      DominatedSnoc(frontier, clean[i], clean, i);
    } else {
      assert WeaklyDominates(frontier[|frontier| - 1], clean[i]);
      assert Answered(frontier, clean[i]);
    }
  }
}
