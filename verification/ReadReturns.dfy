/** What a simulated configuration returns and charges for, line by line. */
module ReadReturns {
  import opened Options
  import opened Intervals
  import opened ReadConfig

  /** One call may return that many lines. */
  predicate Fits(fs: FileStats, cfg: Config, lines: int) {
    lines <= cfg.lineCap && (fs.bytesPerLine > 0.0 ==> lines <= 1 || lines as real * fs.bytesPerLine <= cfg.byteCap as real)
  }

  lemma TimesAtMost(n: int, rate: real, total: real)
    requires rate > 0.0
    ensures n as real * rate <= total <==> n <= (total / rate).Floor
  {
    var q := total / rate;
    assert q * rate == total;
    if n as real <= q {
      assert n as real * rate <= q * rate;
    } else {
      assert n as real * rate > q * rate;
    }
  }

  /** The cap of a call is the largest number of lines that fits. */
  lemma CapIsLargest(fs: FileStats, cfg: Config, lines: int)
    ensures lines <= PerCallCap(fs, cfg) <==> Fits(fs, cfg, lines)
  {
    if fs.bytesPerLine > 0.0 {
      TimesAtMost(lines, fs.bytesPerLine, cfg.byteCap as real);
    }
  }

  /** The lines a call asks for: a bare path one page from the start, a range its
      own, with line 1 for a missing start and a page for a missing end, a raw
      read the whole file. */
  predicate Wants(rc: ReadCall, fs: FileStats, cfg: Config, start: int, end: int) {
    match rc.intent
    case BarePath => start == 1 && end == cfg.defaultPage
    case Raw => start == 1 && end == Max(fs.sizeLines, 1)
    case NoLines => false
    case Range(s, e) =>
      && (if s == None || s == Some(0) then start == 1 else s == Some(start))
      && (if e == None then end - start + 1 == cfg.defaultPage else e == Some(end))
  }

  /** A call returns its first line, and a later one exactly when it asks for it,
      the file has it, and the lines up to it fit. */
  lemma ReturnedExactly(rc: ReadCall, fs: FileStats, cfg: Config, start: int, end: int, x: int)
    requires Wants(rc, fs, cfg, start, end)
    ensures
      var r := EffectiveReturned(rc, fs, cfg);
      && r.Some? && r.value.lo == start
      && (Has(r.value, x) <==>
            x == start || (start < x <= end && x <= Max(fs.sizeLines, 1) && Fits(fs, cfg, x - start + 1)))
  {
    CapIsLargest(fs, cfg, x - start + 1);
  }

  lemma ReturnsOrNot(rc: ReadCall, fs: FileStats, cfg: Config)
    ensures EffectiveReturned(rc, fs, cfg).None? <==> rc.intent.NoLines?
    ensures !rc.intent.NoLines? ==> exists start, end :: Wants(rc, fs, cfg, start, end)
  {
    match rc.intent
    case Range(s, e) =>
      var start := if s.Some? && s.value != 0 then s.value else 1;
      assert Wants(rc, fs, cfg, start, e.GetOr(start + cfg.defaultPage - 1));
    case BarePath => assert Wants(rc, fs, cfg, 1, cfg.defaultPage);
    case Raw => assert Wants(rc, fs, cfg, 1, Max(fs.sizeLines, 1));
    case NoLines =>
  }

  /** A line was observed exactly when a call's footer reported it. */
  lemma {:induction false} ObservedAre(calls: seq<ReadCall>, x: int)
    ensures In(Observed(calls), x) <==>
      exists rc :: rc in calls && rc.actualA.Some? && rc.actualB.Some? && rc.actualA.value <= x <= rc.actualB.value
  {
    if calls != [] {
      var front, rc := calls[..|calls| - 1], calls[|calls| - 1];
      assert calls == front + [rc];
      ObservedAre(front, x);
      if rc.actualA.Some? && rc.actualB.Some? && rc.actualB.value >= rc.actualA.value {
        InSnoc(Observed(front), Span(rc.actualA.value, rc.actualB.value), x);
      }
    }
  }

  // ---------- What phase one charges ----------

  /** The charge is what some call returned, and bare if that call was. */
  ghost predicate ChargeOf(c: Charge, calls: seq<ReadCall>, fs: FileStats, cfg: Config) {
    exists rc :: rc in calls && EffectiveReturned(rc, fs, cfg) == Some(c.span) && c.bare == rc.intent.BarePath?
  }

  lemma {:induction false} ChargesAreReturns(calls: seq<ReadCall>, fs: FileStats, cfg: Config, c: Charge)
    requires c in PhaseOne(calls, fs, cfg).1
    ensures ChargeOf(c, calls, fs, cfg)
  {
    var front, rc := calls[..|calls| - 1], calls[|calls| - 1];
    assert calls == front + [rc];
    if c in PhaseOne(front, fs, cfg).1 {
      ChargesAreReturns(front, fs, cfg, c);
    } else {
      assert rc in calls;
    }
  }

  /** The lines of a bare read, its page cut to the file and to the caps. */
  predicate OnBarePage(fs: FileStats, cfg: Config, x: int) {
    x == 1 || (1 < x <= cfg.defaultPage && x <= fs.sizeLines && Fits(fs, cfg, x))
  }

  /** A bare call is charged for a page at most, cut to the file and the caps. */
  lemma BareChargeIsPage(calls: seq<ReadCall>, fs: FileStats, cfg: Config, c: Charge)
    requires c in PhaseOne(calls, fs, cfg).1 && c.bare
    ensures forall x :: Has(c.span, x) <==> OnBarePage(fs, cfg, x)
    ensures 1 <= c.span.hi - c.span.lo + 1 <= Max(1, cfg.defaultPage)
  {
    ChargesAreReturns(calls, fs, cfg, c);
    var rc :| rc in calls && EffectiveReturned(rc, fs, cfg) == Some(c.span) && rc.intent.BarePath?;
    BareReturns(rc, fs, cfg);
    assert Has(c.span, c.span.lo) && Has(c.span, c.span.hi);
  }

  lemma BareReturns(rc: ReadCall, fs: FileStats, cfg: Config)
    requires rc.intent.BarePath?
    ensures EffectiveReturned(rc, fs, cfg).Some? && EffectiveReturned(rc, fs, cfg).value.lo == 1
    ensures forall x :: Has(EffectiveReturned(rc, fs, cfg).value, x) <==> OnBarePage(fs, cfg, x)
  {
    forall x ensures Has(EffectiveReturned(rc, fs, cfg).value, x) <==> OnBarePage(fs, cfg, x) {
      ReturnedExactly(rc, fs, cfg, 1, cfg.defaultPage, x);
    }
  }

  /** What was charged is covered. */
  lemma ChargedIsCovered(calls: seq<ReadCall>, fs: FileStats, cfg: Config, c: Charge)
    requires c in PhaseOne(calls, fs, cfg).1
    ensures InOne(PhaseOne(calls, fs, cfg).0, c.span)
  {
    ChargesAreReturns(calls, fs, cfg, c);
    var rc :| rc in calls && EffectiveReturned(rc, fs, cfg) == Some(c.span);
    PhaseOneCanonical(calls, fs, cfg);
    forall x | Has(c.span, x) ensures In(PhaseOne(calls, fs, cfg).0, x) {
      PhaseOneIsUnion(calls, fs, cfg, x);
      ReturnedByAre(calls, fs, cfg, rc, x);
    }
    InOneIsCovers(PhaseOne(calls, fs, cfg).0, c.span);
  }

  lemma {:induction false} ReturnedByAre(calls: seq<ReadCall>, fs: FileStats, cfg: Config, rc: ReadCall, x: int)
    requires rc in calls && EffectiveReturned(rc, fs, cfg).Some? && Has(EffectiveReturned(rc, fs, cfg).value, x)
    ensures In(ReturnedBy(calls, fs, cfg), x)
  {
    var front, last := calls[..|calls| - 1], calls[|calls| - 1];
    assert calls == front + [last];
    var returned := EffectiveReturned(last, fs, cfg);
    if returned.Some? {
      InSnoc(ReturnedBy(front, fs, cfg), returned.value, x);
    }
    if rc in front {
      ReturnedByAre(front, fs, cfg, rc, x);
    }
  }

  /** No two charges are for the same lines. */
  lemma {:induction false} PaidOnce(calls: seq<ReadCall>, fs: FileStats, cfg: Config, i: nat, j: nat)
    requires i < j < |PhaseOne(calls, fs, cfg).1|
    ensures PhaseOne(calls, fs, cfg).1[i].span != PhaseOne(calls, fs, cfg).1[j].span
  {
    var front, rc := calls[..|calls| - 1], calls[|calls| - 1];
    var charges := PhaseOne(front, fs, cfg).1;
    if j < |charges| {
      PaidOnce(front, fs, cfg, i, j);
    } else {
      ChargedIsCovered(front, fs, cfg, charges[i]);
    }
  }

  lemma SameLines(a: Span, b: Span)
    requires a.lo <= a.hi && b.lo <= b.hi && forall x :: Has(a, x) <==> Has(b, x)
    ensures a == b
  {
    assert Has(a, a.lo) && Has(a, a.hi) && Has(b, b.lo) && Has(b, b.hi);
  }

  /** However often the path is read bare, its page is paid for once at most. */
  lemma BareReadsPayOnce(calls: seq<ReadCall>, fs: FileStats, cfg: Config, i: nat, j: nat)
    requires
      var charges := PhaseOne(calls, fs, cfg).1;
      i < j < |charges| && charges[i].bare
    ensures !PhaseOne(calls, fs, cfg).1[j].bare
  {
    var charges := PhaseOne(calls, fs, cfg).1;
    if charges[j].bare {
      PaidOnce(calls, fs, cfg, i, j);
      BareChargeIsPage(calls, fs, cfg, charges[i]);
      BareChargeIsPage(calls, fs, cfg, charges[j]);
      SameLines(charges[i].span, charges[j].span);
    }
  }

  /** Bare reads alone, one or many, are charged one page ... */
  lemma {:induction false} BareReadsCharge(calls: seq<ReadCall>, fs: FileStats, cfg: Config, page: int)
    requires calls != [] && forall rc :: rc in calls ==> rc.intent.BarePath?
    requires page >= 1 && OnBarePage(fs, cfg, page) && !OnBarePage(fs, cfg, page + 1)
    ensures PhaseOne(calls, fs, cfg).1 == [Charge(Span(1, page), true)]
  {
    var front, rc := calls[..|calls| - 1], calls[|calls| - 1];
    assert calls == front + [rc];
    BarePageIs(rc, fs, cfg, page);
    if front == [] {
      assert PhaseOne(front, fs, cfg) == ([], []);
    } else {
      BareReadsCharge(front, fs, cfg, page);
      ChargedIsCovered(front, fs, cfg, Charge(Span(1, page), true));
    }
  }

  /** ... which costs its lines at the rate of the file, or at the summarizer's
      where the file is long enough for it. */
  lemma BarePageCost(fs: FileStats, cfg: Config, page: int)
    requires page >= 1
    ensures TotalCost([Charge(Span(1, page), true)], fs, cfg)
         == page as real * fs.tokensPerLine * (if 0 <= cfg.summarizeMin <= fs.sizeLines then 0.35 else 1.0)
  {
    CostSnoc([], Charge(Span(1, page), true), fs, cfg);
    assert [] + [Charge(Span(1, page), true)] == [Charge(Span(1, page), true)];
  }

  lemma BarePageIs(rc: ReadCall, fs: FileStats, cfg: Config, page: int)
    requires rc.intent.BarePath? && page >= 1 && OnBarePage(fs, cfg, page) && !OnBarePage(fs, cfg, page + 1)
    ensures EffectiveReturned(rc, fs, cfg) == Some(Span(1, page))
  {
    BareReturns(rc, fs, cfg);
    var v := EffectiveReturned(rc, fs, cfg).value;
    assert Has(v, page) && !Has(v, page + 1);
  }

  // ---------- What a replay costs ----------

  lemma {:induction false} CostPlus(a: seq<Charge>, b: seq<Charge>, fs: FileStats, cfg: Config)
    ensures TotalCost(a + b, fs, cfg) == TotalCost(a, fs, cfg) + TotalCost(b, fs, cfg)
  {
    if b == [] {
      assert a + b == a;
    } else {
      var front, last := b[..|b| - 1], b[|b| - 1];
      CostPlus(a, front, fs, cfg);
      assert a + b == (a + front) + [last];
      CostSnoc(a + front, last, fs, cfg);
    }
  }

  lemma OneChunkCost(v: Span, fs: FileStats, cfg: Config)
    requires v.lo <= v.hi
    ensures TotalCost(AsCharges([v]), fs, cfg) == (v.hi - v.lo + 1) as real * fs.tokensPerLine
  {
    assert AsCharges([v]) == [] + [Charge(v, false)];
    CostSnoc([], Charge(v, false), fs, cfg);
  }

  lemma RateOfSum(a: int, b: int, rate: real)
    ensures (a + b) as real * rate == a as real * rate + b as real * rate
  {
  }

  lemma {:induction false} ChunkCost(chunks: seq<Span>, fs: FileStats, cfg: Config)
    requires Ordered(chunks, 0)
    ensures TotalCost(AsCharges(chunks), fs, cfg) == Length(chunks) as real * fs.tokensPerLine
  {
    if chunks == [] {
      assert AsCharges(chunks) == [];
    } else {
      var v, rest := chunks[0], chunks[1..];
      assert AsCharges(chunks) == AsCharges([v]) + AsCharges(rest);
      CostPlus(AsCharges([v]), AsCharges(rest), fs, cfg);
      OneChunkCost(v, fs, cfg);
      ChunkCost(rest, fs, cfg);
      RateOfSum(v.hi - v.lo + 1, Length(rest), fs.tokensPerLine);
    }
  }

  lemma CountCost(chunks: seq<Span>, lines: set<int>, fs: FileStats, cfg: Config)
    requires Ordered(chunks, 0) && forall x :: x in lines <==> In(chunks, x)
    ensures TotalCost(AsCharges(chunks), fs, cfg) == |lines| as real * fs.tokensPerLine
  {
    LengthIsCount(chunks, lines);
    ChunkCost(chunks, fs, cfg);
  }

  /** Whatever phase one covered and whatever the cap of a call, phase two costs
      exactly the needed lines not covered, at the rate of the file and never at
      the summarizer's, on top of what was charged before. */
  lemma PhaseTwoCost(needed: seq<Span>, covered: seq<Span>, cap: int, missing: set<int>, charges: seq<Charge>, fs: FileStats, cfg: Config)
    requires cap >= 1 && Ordered(needed, 0) && Proper(covered)
    requires forall x :: x in missing <==> In(needed, x) && !In(covered, x)
    ensures TotalCost(charges + AsCharges(ChunksOf(Gaps(needed, covered), cap)), fs, cfg)
         == TotalCost(charges, fs, cfg) + |missing| as real * fs.tokensPerLine
  {
    var chunks := ChunksOf(Gaps(needed, covered), cap);
    GapsSound(needed, covered);
    ChunksOfSound(Gaps(needed, covered), cap);
    CountCost(chunks, missing, fs, cfg);
    CostPlus(charges, AsCharges(chunks), fs, cfg);
  }
}
