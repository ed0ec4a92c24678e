/** Two-phase replay of the reads of one file in one session: what a simulated
    configuration returns, and synthetic chunks for whatever it falls short of. */
module ReadConfig {
  import opened Options
  import opened Sorting
  import opened Intervals

  const ROUNDTRIP_OVERHEAD: real := 200.0

  datatype Intent = BarePath | Range(start: Option<int>, end: Option<int>) | Raw | NoLines

  /** A call with the range it was observed to return, if its footer told. */
  datatype ReadCall = ReadCall(intent: Intent, actualA: Option<int>, actualB: Option<int>)

  datatype FileStats = FileStats(sizeLines: int, tokensPerLine: real, bytesPerLine: real)

  datatype Config = Config(defaultPage: int, lineCap: int, byteCap: int, summarizeMin: int)

  function Max(a: int, b: int): int { if a < b then b else a }

  function Min(a: int, b: int): int { if a < b then a else b }

  /** Lines the byte cap allows in one call, at least one. */
  function ByteLines(fs: FileStats, cfg: Config): int
    requires fs.bytesPerLine > 0.0
  {
    Max(1, (cfg.byteCap as real / fs.bytesPerLine).Floor)
  }

  function EffectiveReturned(rc: ReadCall, fs: FileStats, cfg: Config): (r: Option<Span>)
    ensures r.Some? ==> r.value.lo <= r.value.hi
  {
    var size := Max(fs.sizeLines, 1);
    if rc.intent.NoLines? then None
    else
      var start := match rc.intent
        case Range(s, _) => if s.Some? && s.value != 0 then s.value else 1
        case _ => 1;
      var wanted := match rc.intent
        case BarePath => cfg.defaultPage
        case Range(_, e) => e.GetOr(start + cfg.defaultPage - 1)
        case _ => size;
      var capped := Min(Min(wanted, size), start + cfg.lineCap - 1);
      var end := if fs.bytesPerLine > 0.0 then Min(capped, start + ByteLines(fs, cfg) - 1) else capped;
      Some(Span(start, if end < start then start else end))
  }

  function CostOfChunk(v: Span, fs: FileStats, bare: bool, cfg: Config): real {
    var raw := Max(v.hi - v.lo + 1, 0) as real * fs.tokensPerLine;
    if bare && cfg.summarizeMin >= 0 && fs.sizeLines >= cfg.summarizeMin then raw * 0.35 else raw
  }

  /** The most lines one call may return. */
  function PerCallCap(fs: FileStats, cfg: Config): (n: int)
    ensures cfg.lineCap >= 1 ==> n >= 1
    ensures n <= cfg.lineCap
  {
    if fs.bytesPerLine > 0.0 then Min(cfg.lineCap, ByteLines(fs, cfg)) else cfg.lineCap
  }

  // ---------- Chunks ----------

  function ChunksFrom(s: int, e: int, cap: int): seq<Span>
    requires cap >= 1
    decreases e - s
  {
    if s > e then [] else [Span(s, Min(s + cap - 1, e))] + ChunksFrom(s + cap, e, cap)
  }

  lemma {:induction false} ChunksSound(s: int, e: int, cap: int)
    requires cap >= 1
    ensures Ordered(ChunksFrom(s, e, cap), 0)
    ensures ChunksFrom(s, e, cap) != [] ==> ChunksFrom(s, e, cap)[0].lo == s
    ensures forall x :: In(ChunksFrom(s, e, cap), x) <==> s <= x <= e
    decreases e - s
  {
    if s <= e {
      ChunksSound(s + cap, e, cap);
    }
  }

  lemma {:induction false} ChunksCapped(s: int, e: int, cap: int, v: Span)
    requires cap >= 1 && v in ChunksFrom(s, e, cap)
    ensures 1 <= v.hi - v.lo + 1 <= cap
    decreases e - s
  {
    if s <= e && v != Span(s, Min(s + cap - 1, e)) {
      ChunksCapped(s + cap, e, cap, v);
    }
  }

  method ChunkRange(s: int, e: int, fs: FileStats, cfg: Config) returns (out: seq<Span>)
    requires cfg.lineCap >= 1
    ensures out == ChunksFrom(s, e, PerCallCap(fs, cfg))
  {
    var maxPerCall := cfg.lineCap;
    if fs.bytesPerLine > 0.0 {
      maxPerCall := Min(maxPerCall, ByteLines(fs, cfg));
    }
    out := [];
    var cur := s;
    while cur <= e
      invariant ChunksFrom(s, e, maxPerCall) == out + ChunksFrom(cur, e, maxPerCall)
      decreases e - cur
    {
      var end := Min(cur + maxPerCall - 1, e);
      AppendOne(out, Span(cur, end), ChunksFrom(cur + maxPerCall, e, maxPerCall));
      out := out + [Span(cur, end)];
      if end == e {
        assert out + [] == out;
      }
      cur := end + 1;
    }
  }

  // ---------- The two phases ----------

  /** A charged call or chunk. */
  datatype Charge = Charge(span: Span, bare: bool)

  /** Phase one: the simulated coverage and the calls charged for it. */
  function PhaseOne(calls: seq<ReadCall>, fs: FileStats, cfg: Config): (seq<Span>, seq<Charge>) {
    if calls == [] then ([], []) else
    var (covered, charges) := PhaseOne(calls[..|calls| - 1], fs, cfg);
    var rc := calls[|calls| - 1];
    match EffectiveReturned(rc, fs, cfg)
    case None => (covered, charges)
    case Some(v) =>
      if InOne(covered, v) then (covered, charges)
      else (Merged(covered + [v]), charges + [Charge(v, rc.intent.BarePath?)])
  }

  /** The ranges observed to come back. */
  function Observed(calls: seq<ReadCall>): seq<Span> {
    if calls == [] then [] else
    var front, rc := Observed(calls[..|calls| - 1]), calls[|calls| - 1];
    if rc.actualA.Some? && rc.actualB.Some? && rc.actualB.value >= rc.actualA.value
    then front + [Span(rc.actualA.value, rc.actualB.value)] else front
  }

  /** What the needed ranges lack, range by range. */
  function Gaps(needed: seq<Span>, covered: seq<Span>): seq<Span> {
    if needed == [] then []
    else Gaps(needed[..|needed| - 1], covered) + Subtracted(needed[|needed| - 1], covered)
  }

  function ChunksOf(gaps: seq<Span>, cap: int): seq<Span>
    requires cap >= 1
  {
    if gaps == [] then []
    else ChunksOf(gaps[..|gaps| - 1], cap) + ChunksFrom(gaps[|gaps| - 1].lo, gaps[|gaps| - 1].hi, cap)
  }

  /** Coverage after each gap's chunks have been merged in. */
  function FinalCoverage(covered: seq<Span>, gaps: seq<Span>, cap: int): seq<Span>
    requires cap >= 1
  {
    if gaps == [] then covered
    else Merged(FinalCoverage(covered, gaps[..|gaps| - 1], cap)
                + ChunksFrom(gaps[|gaps| - 1].lo, gaps[|gaps| - 1].hi, cap))
  }

  function TotalCost(charges: seq<Charge>, fs: FileStats, cfg: Config): real {
    if charges == [] then 0.0
    else TotalCost(charges[..|charges| - 1], fs, cfg)
         + CostOfChunk(charges[|charges| - 1].span, fs, charges[|charges| - 1].bare, cfg)
  }

  function AsCharges(chunks: seq<Span>): seq<Charge> {
    seq(|chunks|, i requires 0 <= i < |chunks| => Charge(chunks[i], false))
  }

  /** The whole replay: phase-one coverage, gaps, chunks and final coverage. */
  datatype Outcome = Outcome(covered: seq<Span>, charges: seq<Charge>, chunks: seq<Span>, final: seq<Span>)

  function Simulated(calls: seq<ReadCall>, fs: FileStats, cfg: Config): Outcome
    requires cfg.lineCap >= 1
  {
    var (covered, charges) := PhaseOne(calls, fs, cfg);
    var gaps := Gaps(Merged(Observed(calls)), covered);
    var cap := PerCallCap(fs, cfg);
    Outcome(covered, charges, ChunksOf(gaps, cap), FinalCoverage(covered, gaps, cap))
  }

  // ---------- Proofs ----------

  lemma ProperSnoc(a: seq<Span>, v: Span)
    requires Proper(a) && v.lo <= v.hi
    ensures Proper(a + [v])
  {
  }

  lemma ProperAppend(a: seq<Span>, b: seq<Span>)
    requires Proper(a) && Proper(b)
    ensures Proper(a + b)
  {
  }

  lemma {:induction false} OrderedIsProper(ivs: seq<Span>, gap: nat)
    requires Ordered(ivs, gap)
    ensures Proper(ivs)
  {
    if ivs != [] {
      OrderedIsProper(ivs[1..], gap);
      assert forall i :: 1 <= i < |ivs| ==> ivs[i] == ivs[1..][i - 1];
    }
  }

  lemma {:induction false} ObservedProper(calls: seq<ReadCall>)
    ensures Proper(Observed(calls))
  {
    if calls != [] {
      ObservedProper(calls[..|calls| - 1]);
    }
  }

  lemma {:induction false} PhaseOneCanonical(calls: seq<ReadCall>, fs: FileStats, cfg: Config)
    ensures Canonical(PhaseOne(calls, fs, cfg).0)
  {
    if calls != [] {
      var covered := PhaseOne(calls[..|calls| - 1], fs, cfg).0;
      PhaseOneCanonical(calls[..|calls| - 1], fs, cfg);
      OrderedIsProper(covered, 1);
      var returned := EffectiveReturned(calls[|calls| - 1], fs, cfg);
      if returned.Some? {
        ProperSnoc(covered, returned.value);
        MergedSound(covered + [returned.value]);
      }
    }
  }

  /** The ranges the calls return, covered before or not. */
  function ReturnedBy(calls: seq<ReadCall>, fs: FileStats, cfg: Config): seq<Span> {
    if calls == [] then [] else
    var front := ReturnedBy(calls[..|calls| - 1], fs, cfg);
    match EffectiveReturned(calls[|calls| - 1], fs, cfg)
    case None => front
    case Some(v) => front + [v]
  }

  /** Phase one covers exactly what its calls return: a call left out because
      it was covered leaves out no line. */
  lemma {:induction false} PhaseOneIsUnion(calls: seq<ReadCall>, fs: FileStats, cfg: Config, x: int)
    ensures In(PhaseOne(calls, fs, cfg).0, x) <==> In(ReturnedBy(calls, fs, cfg), x)
  {
    if calls != [] {
      var front := calls[..|calls| - 1];
      var covered := PhaseOne(front, fs, cfg).0;
      PhaseOneIsUnion(front, fs, cfg, x);
      var returned := EffectiveReturned(calls[|calls| - 1], fs, cfg);
      if returned.Some? {
        PhaseOneCanonical(front, fs, cfg);
        OrderedIsProper(covered, 1);
        ProperSnoc(covered, returned.value);
        MergedSound(covered + [returned.value]);
        InSnoc(covered, returned.value, x);
        InSnoc(ReturnedBy(front, fs, cfg), returned.value, x);
        InOneIsCovers(covered, returned.value);
      }
    }
  }

  /** Gaps are ordered and denote exactly what is needed and not covered. */
  lemma {:induction false} GapsSound(needed: seq<Span>, covered: seq<Span>)
    requires Ordered(needed, 0) && Proper(covered)
    ensures Ordered(Gaps(needed, covered), 0)
    ensures forall x :: In(Gaps(needed, covered), x) <==> In(needed, x) && !In(covered, x)
    decreases |needed|
  {
    if needed != [] {
      var front, v := needed[..|needed| - 1], needed[|needed| - 1];
      assert needed == front + [v];
      OrderedFront(needed, front, v);
      GapsSound(front, covered);
      SubtractedSound(v, covered);
      var a, b := Gaps(front, covered), Subtracted(v, covered);
      StartsInside(b, v);
      OrderedAppend(a, b, v.lo);
      forall x ensures In(Gaps(needed, covered), x) <==> In(needed, x) && !In(covered, x) {
        InAppend(a, b, x);
        InSnoc(front, v, x);
      }
    }
  }

  lemma StartsInside(b: seq<Span>, v: Span)
    requires Ordered(b, 0) && forall x :: In(b, x) ==> Has(v, x)
    ensures b != [] ==> v.lo <= b[0].lo
  {
    if b != [] {
      assert In(b, b[0].lo);
    }
  }

  lemma {:induction false} ChunksOfSound(gaps: seq<Span>, cap: int)
    requires cap >= 1 && Ordered(gaps, 0)
    ensures Ordered(ChunksOf(gaps, cap), 0)
    ensures forall x :: In(ChunksOf(gaps, cap), x) <==> In(gaps, x)
    decreases |gaps|
  {
    if gaps != [] {
      var front, v := gaps[..|gaps| - 1], gaps[|gaps| - 1];
      assert gaps == front + [v];
      OrderedFront(gaps, front, v);
      ChunksOfSound(front, cap);
      ChunksSound(v.lo, v.hi, cap);
      var a, b := ChunksOf(front, cap), ChunksFrom(v.lo, v.hi, cap);
      OrderedAppend(a, b, v.lo);
      forall x ensures In(ChunksOf(gaps, cap), x) <==> In(gaps, x) {
        InAppend(a, b, x);
        InSnoc(front, v, x);
      }
    }
  }

  lemma {:induction false} ChunksOfCapped(gaps: seq<Span>, cap: int, v: Span)
    requires cap >= 1 && v in ChunksOf(gaps, cap)
    ensures 1 <= v.hi - v.lo + 1 <= cap
    decreases |gaps|
  {
    if gaps != [] {
      var front, last := gaps[..|gaps| - 1], gaps[|gaps| - 1];
      if v in ChunksOf(front, cap) {
        ChunksOfCapped(front, cap, v);
      } else {
        ChunksCapped(last.lo, last.hi, cap, v);
      }
    }
  }

  lemma {:induction false} FinalSound(covered: seq<Span>, gaps: seq<Span>, cap: int)
    requires cap >= 1 && Canonical(covered) && Ordered(gaps, 0)
    ensures Canonical(FinalCoverage(covered, gaps, cap))
    ensures forall x :: In(FinalCoverage(covered, gaps, cap), x) <==> In(covered, x) || In(gaps, x)
    decreases |gaps|
  {
    if gaps != [] {
      var front, v := gaps[..|gaps| - 1], gaps[|gaps| - 1];
      assert gaps == front + [v];
      OrderedFront(gaps, front, v);
      FinalSound(covered, front, cap);
      ChunksSound(v.lo, v.hi, cap);
      var a, b := FinalCoverage(covered, front, cap), ChunksFrom(v.lo, v.hi, cap);
      OrderedIsProper(a, 1);
      OrderedIsProper(b, 0);
      MergedSound(a + b);
      forall x ensures In(FinalCoverage(covered, gaps, cap), x) <==> In(covered, x) || In(gaps, x) {
        assert In(Merged(a + b), x) <==> In(a + b, x);
        InAppend(a, b, x);
        InSnoc(front, v, x);
      }
    }
  }

  /** The synthetic chunks are disjoint, within the per-call cap, and denote
      exactly the observed lines that phase one did not deliver; with them the
      coverage is what phase one delivered and all that was observed. */
  lemma ReplaySound(calls: seq<ReadCall>, fs: FileStats, cfg: Config)
    requires cfg.lineCap >= 1
    ensures
      var o := Simulated(calls, fs, cfg);
      && Ordered(o.chunks, 0)
      && (forall v :: v in o.chunks ==> 1 <= v.hi - v.lo + 1 <= PerCallCap(fs, cfg))
      && (forall x :: In(o.chunks, x) <==> In(Observed(calls), x) && !In(o.covered, x))
      && Canonical(o.final)
      && (forall x :: In(o.final, x) <==> In(o.covered, x) || In(Observed(calls), x))
  {
    var covered := PhaseOne(calls, fs, cfg).0;
    var needed, cap := Merged(Observed(calls)), PerCallCap(fs, cfg);
    var gaps := Gaps(needed, covered);
    PhaseOneCanonical(calls, fs, cfg);
    OrderedIsProper(covered, 1);
    ObservedProper(calls);
    MergedSound(Observed(calls));
    Looser(needed);
    GapsSound(needed, covered);
    ChunksOfSound(gaps, cap);
    FinalSound(covered, gaps, cap);
    forall v | v in ChunksOf(gaps, cap) ensures 1 <= v.hi - v.lo + 1 <= cap {
      ChunksOfCapped(gaps, cap, v);
    }
  }

  lemma {:induction false} Looser(ivs: seq<Span>)
    requires Canonical(ivs)
    ensures Ordered(ivs, 0)
  {
    if ivs != [] {
      Looser(ivs[1..]);
    }
  }

  /** Lines in a list, counted interval by interval. */
  function Length(ivs: seq<Span>): int {
    if ivs == [] then 0 else ivs[0].hi - ivs[0].lo + 1 + Length(ivs[1..])
  }

  function LinesBetween(a: int, b: int): set<int> {
    set x | a <= x <= b && Has(Span(a, b), x)
  }

  lemma {:induction false} CountBetween(a: int, b: int)
    requires a <= b + 1
    ensures |LinesBetween(a, b)| == b - a + 1
    decreases b - a
  {
    if a <= b {
      CountBetween(a, b - 1);
      assert LinesBetween(a, b) == LinesBetween(a, b - 1) + {b};
    } else {
      assert LinesBetween(a, b) == {};
    }
  }

  /** A set of lines denoted by disjoint intervals has as many members as their
      lengths add up to. */
  lemma {:induction false} LengthIsCount(ivs: seq<Span>, lines: set<int>)
    requires Ordered(ivs, 0) && forall x :: x in lines <==> In(ivs, x)
    ensures Length(ivs) == |lines|
    decreases |ivs|
  {
    if ivs == [] {
      assert forall x :: x in lines ==> In(ivs, x);
      assert forall x :: x !in lines;
      assert lines == {};
    } else {
      var head := LinesBetween(ivs[0].lo, ivs[0].hi);
      forall x ensures x in lines - head <==> In(ivs[1..], x) {
        if In(ivs[1..], x) {
          TailIsBeyond(ivs, 0, x);
        }
      }
      LengthIsCount(ivs[1..], lines - head);
      CountBetween(ivs[0].lo, ivs[0].hi);
      assert lines == head + (lines - head);
    }
  }

  /** The chunks hold as many lines as were observed and not delivered. */
  lemma ChunksTotal(calls: seq<ReadCall>, fs: FileStats, cfg: Config, missing: set<int>)
    requires cfg.lineCap >= 1
    requires forall x :: x in missing <==> In(Observed(calls), x) && !In(PhaseOne(calls, fs, cfg).0, x)
    ensures Length(Simulated(calls, fs, cfg).chunks) == |missing|
  {
    ReplaySound(calls, fs, cfg);
    LengthIsCount(Simulated(calls, fs, cfg).chunks, missing);
  }

  // ---------- The loops ----------

  lemma CostSnoc(charges: seq<Charge>, c: Charge, fs: FileStats, cfg: Config)
    ensures TotalCost(charges + [c], fs, cfg) == TotalCost(charges, fs, cfg) + CostOfChunk(c.span, fs, c.bare, cfg)
  {
    assert (charges + [c])[..|charges|] == charges;
  }

  lemma AsChargesAppend(a: seq<Span>, v: Span)
    ensures AsCharges(a + [v]) == AsCharges(a) + [Charge(v, false)]
  {
  }

  method ReplayPhaseOne(calls: seq<ReadCall>, fs: FileStats, cfg: Config)
    returns (covered: seq<Span>, needed: seq<Span>, total: real, kept: nat)
    ensures covered == PhaseOne(calls, fs, cfg).0 && needed == Observed(calls)
    ensures kept == |PhaseOne(calls, fs, cfg).1|
    ensures total == TotalCost(PhaseOne(calls, fs, cfg).1, fs, cfg) + kept as real * ROUNDTRIP_OVERHEAD
  {
    covered, needed, total, kept := [], [], 0.0, 0;
    ghost var charges := [];
    for i := 0 to |calls|
      invariant (covered, charges) == PhaseOne(calls[..i], fs, cfg) && needed == Observed(calls[..i])
      invariant kept == |charges| && total == TotalCost(charges, fs, cfg) + kept as real * ROUNDTRIP_OVERHEAD
    {
      var rc := calls[i];
      assert calls[..i + 1][..i] == calls[..i];
      PhaseOneCanonical(calls[..i], fs, cfg);
      if rc.actualA.Some? && rc.actualB.Some? && rc.actualB.value >= rc.actualA.value {
        needed := needed + [Span(rc.actualA.value, rc.actualB.value)];
      }
      var ret := EffectiveReturned(rc, fs, cfg);
      if ret.None? {
        continue;
      }
      var v := ret.value;
      var within := Contained(v.lo, v.hi, covered);
      if within {
        continue;
      }
      ghost var c := Charge(v, rc.intent.BarePath?);
      CostSnoc(charges, c, fs, cfg);
      total := total + CostOfChunk(v, fs, rc.intent.BarePath?, cfg);
      total := total + ROUNDTRIP_OVERHEAD;
      kept := kept + 1;
      charges := charges + [c];
      OrderedIsProper(covered, 1);
      ProperSnoc(covered, v);
      covered := Merge(covered + [v]);
    }
    assert calls[..|calls|] == calls;
  }

  /** Charges for the chunks of one gap. */
  method ChargeChunks(chunks: seq<Span>, fs: FileStats, cfg: Config, total0: real, kept0: nat, ghost charges: seq<Charge>)
    returns (total: real, kept: nat)
    requires kept0 == |charges| && total0 == TotalCost(charges, fs, cfg) + kept0 as real * ROUNDTRIP_OVERHEAD
    ensures kept == kept0 + |chunks|
    ensures total == TotalCost(charges + AsCharges(chunks), fs, cfg) + kept as real * ROUNDTRIP_OVERHEAD
  {
    total, kept := total0, kept0;
    assert charges + AsCharges([]) == charges;
    for i := 0 to |chunks|
      invariant kept == kept0 + i
      invariant total == TotalCost(charges + AsCharges(chunks[..i]), fs, cfg) + kept as real * ROUNDTRIP_OVERHEAD
    {
      assert chunks[..i + 1] == chunks[..i] + [chunks[i]];
      AsChargesAppend(chunks[..i], chunks[i]);
      CostSnoc(charges + AsCharges(chunks[..i]), Charge(chunks[i], false), fs, cfg);
      assert charges + (AsCharges(chunks[..i]) + [Charge(chunks[i], false)])
          == (charges + AsCharges(chunks[..i])) + [Charge(chunks[i], false)];
      total := total + CostOfChunk(chunks[i], fs, false, cfg);
      total := total + ROUNDTRIP_OVERHEAD;
      kept := kept + 1;
    }
    assert chunks[..|chunks|] == chunks;
  }

  lemma AsChargesPlus(charges: seq<Charge>, a: seq<Span>, b: seq<Span>)
    ensures charges + AsCharges(a) + AsCharges(b) == charges + AsCharges(a + b)
  {
  }

  method FindGaps(needed: seq<Span>, covered: seq<Span>) returns (gaps: seq<Span>)
    requires Proper(needed) && Proper(covered)
    ensures gaps == Gaps(needed, covered)
  {
    gaps := [];
    for i := 0 to |needed|
      invariant gaps == Gaps(needed[..i], covered)
    {
      assert needed[..i + 1][..i] == needed[..i];
      var lacking := Subtract(needed[i], covered);
      gaps := gaps + lacking;
    }
    assert needed[..|needed|] == needed;
  }

  /** Phase two: charges the chunks of every gap and merges them in. */
  method FillGaps(gaps: seq<Span>, covered0: seq<Span>, fs: FileStats, cfg: Config, total0: real, kept0: nat, ghost charges: seq<Charge>)
    returns (covered: seq<Span>, total: real, kept: nat)
    requires cfg.lineCap >= 1 && Canonical(covered0)
    requires kept0 == |charges| && total0 == TotalCost(charges, fs, cfg) + kept0 as real * ROUNDTRIP_OVERHEAD
    ensures
      var chunks := ChunksOf(gaps, PerCallCap(fs, cfg));
      && covered == FinalCoverage(covered0, gaps, PerCallCap(fs, cfg))
      && kept == kept0 + |chunks|
      && total == TotalCost(charges + AsCharges(chunks), fs, cfg) + kept as real * ROUNDTRIP_OVERHEAD
  {
    covered, total, kept := covered0, total0, kept0;
    ghost var cap, chunks := PerCallCap(fs, cfg), [];
    assert charges + AsCharges([]) == charges;
    for i := 0 to |gaps|
      invariant chunks == ChunksOf(gaps[..i], cap)
      invariant covered == FinalCoverage(covered0, gaps[..i], cap) && Canonical(covered)
      invariant kept == kept0 + |chunks|
      invariant total == TotalCost(charges + AsCharges(chunks), fs, cfg) + kept as real * ROUNDTRIP_OVERHEAD
    {
      assert gaps[..i + 1][..i] == gaps[..i];
      var ofGap := ChunkRange(gaps[i].lo, gaps[i].hi, fs, cfg);
      total, kept := ChargeChunks(ofGap, fs, cfg, total, kept, charges + AsCharges(chunks));
      AsChargesPlus(charges, chunks, ofGap);
      chunks := chunks + ofGap;
      MergeableChunks(covered, gaps[i], cap);
      covered := Merge(covered + ofGap);
    }
    assert gaps[..|gaps|] == gaps;
  }

  lemma MergeableChunks(covered: seq<Span>, gap: Span, cap: int)
    requires cap >= 1 && Canonical(covered)
    ensures Proper(covered + ChunksFrom(gap.lo, gap.hi, cap))
  {
    ChunksSound(gap.lo, gap.hi, cap);
    OrderedIsProper(ChunksFrom(gap.lo, gap.hi, cap), 0);
    OrderedIsProper(covered, 1);
    ProperAppend(covered, ChunksFrom(gap.lo, gap.hi, cap));
  }

  /** The whole replay; a line cap below 1 would make no chunk, and no end. */
  method ReplayPair(calls: seq<ReadCall>, fs: FileStats, cfg: Config) returns (total: real, kept: nat, ghost final: seq<Span>)
    requires cfg.lineCap >= 1
    ensures kept == |Simulated(calls, fs, cfg).charges| + |Simulated(calls, fs, cfg).chunks|
    ensures
      var o := Simulated(calls, fs, cfg);
      total == TotalCost(o.charges + AsCharges(o.chunks), fs, cfg) + kept as real * ROUNDTRIP_OVERHEAD
    ensures final == Simulated(calls, fs, cfg).final
  {
    var covered, needed, total1, kept1 := ReplayPhaseOne(calls, fs, cfg);
    PhaseOneCanonical(calls, fs, cfg);
    OrderedIsProper(covered, 1);
    ObservedProper(calls);
    needed := Merge(needed);
    OrderedIsProper(needed, 1);
    var gaps := FindGaps(needed, covered);
    covered, total, kept := FillGaps(gaps, covered, fs, cfg, total1, kept1, PhaseOne(calls, fs, cfg).1);
    final := covered;
  }
}
