/** What a replayed call delivers, line by line, and what it is charged. */
module ReadDelivery {
  import opened Options
  import opened Intervals
  import opened ReadOptimizer

  /** The first line delivered: the leading context before the start, from line 1
      on. */
  function From(call: ReadCall, cfg: Config): int {
    if call.kind == Bare then 1 else Max(1, call.start.GetOr(1) - cfg.leading)
  }

  /** The last line a call would deliver if nothing cut it short: its end and the
      trailing context, or one page from its start. */
  function Upto(call: ReadCall, cfg: Config): int {
    match call.kind
    case Explicit => call.end.GetOr(0) + cfg.trailing
    case _ => From(call, cfg.(leading := 0)) + cfg.defaultLimit - 1
  }

  /** A call delivers the lines from its leading context to its end and trailing
      context, or to a page from its start, the cap's number of them at most. */
  lemma DeliveredExactly(call: ReadCall, cfg: Config, x: int)
    requires GoodConfig(cfg) && GoodCall(call) && call.kind != Unbounded
    ensures
      var d := Delivered(call, cfg);
      && d.Some? && (Has(d.value, x) <==> From(call, cfg) <= x <= Upto(call, cfg) && x - From(call, cfg) < cfg.maxLines)
  {
  }

  /** A call from line 0 delivers what one from line 1 would, less a line where it
      has no end of its own. */
  lemma DeliveredFromZero(call: ReadCall, cfg: Config, x: int)
    requires GoodConfig(cfg) && ParsedCall(call) && (call.kind == Explicit || call.kind == Open) && call.start == Some(0)
    ensures
      var last := if call.kind == Explicit then call.end.value + cfg.trailing else cfg.defaultLimit - 1;
      && Delivered(call, cfg).Some?
      && (Has(Delivered(call, cfg).value, x) <==> 1 <= x <= last && x <= cfg.maxLines)
  {
  }

  /** Nothing is delivered exactly when there are no lines to ask for. */
  lemma DeliversOrNot(call: ReadCall, cfg: Config)
    requires ParsedCall(call)
    ensures Delivered(call, cfg).None? <==> call.kind == Unbounded
    ensures Requested(call, cfg).None? <==> call.kind == Unbounded
  {
  }

  /** Four bytes are taken for a token. An answer costs its lines at the rate of
      the call, or what a quarter of the byte budget buys if that is less; the
      budget is 50 KiB, or 512 bytes a line for long answers. */
  lemma PaidExactly(call: ReadCall, cfg: Config, delivered: Span)
    requires delivered.lo <= delivered.hi + 1
    ensures
      var lines := delivered.hi - delivered.lo + 1;
      var answer := Paid(call, cfg, delivered).tokens - call.argTokens as real;
      var full := call.tokensPerLine * lines as real;
      && answer <= full && (answer * 4.0 <= 51200.0 || answer * 4.0 <= 512.0 * lines as real)
      && (answer == full || answer * 4.0 == 51200.0 || answer * 4.0 == 512.0 * lines as real)
      && (answer < full ==> answer * 4.0 >= 51200.0 && answer * 4.0 >= 512.0 * lines as real)
      && (Paid(call, cfg, delivered).bytesLimited == 1 <==> answer < full)
      && Paid(call, cfg, delivered).calls == 1 && Paid(call, cfg, delivered).skipped == 0
  {
    var lines := delivered.hi - delivered.lo + 1;
    assert (lines * 512) as real == 512.0 * lines as real;
  }

  /** A call is counted as truncated exactly when it names both ends and its
      lines with the context of both sides do not fit the cap, and the answer
      is as long as the cap. */
  lemma TruncatedExactly(call: ReadCall, cfg: Config)
    requires GoodConfig(cfg) && GoodCall(call) && Delivered(call, cfg).Some?
    ensures
      var d := Delivered(call, cfg).value;
      Paid(call, cfg, d).truncations == 1 <==>
        call.kind == Explicit && d.hi - d.lo + 1 == cfg.maxLines
        && cfg.leading + (call.end.value - call.start.value + 1) + cfg.trailing > cfg.maxLines
  {
  }

  // ---------- Over a group ----------

  /** Call `k` of a group is paid for and delivers the line. */
  predicate PaysFor(cfg: Config, group: seq<ReadCall>, k: nat, x: int)
    requires k < |group|
  {
    && Delivered(group[k], cfg).Some? && Has(Delivered(group[k], cfg).value, x)
    && !Skips(cfg, k == 0, ReplayGroup(cfg, group[..k]).0, group[k])
  }

  /** One of the first `n` calls is paid for and delivers the line. */
  ghost predicate PaidBefore(cfg: Config, group: seq<ReadCall>, n: nat, x: int)
    requires n <= |group|
  {
    exists k: nat :: k < n && PaysFor(cfg, group, k, x)
  }

  lemma PaysForPrefix(cfg: Config, group: seq<ReadCall>, n: nat, k: nat, x: int)
    requires k < n <= |group|
    ensures PaysFor(cfg, group[..n], k, x) == PaysFor(cfg, group, k, x)
  {
    assert group[..n][..k] == group[..k];
  }

  lemma PaidBeforePrefix(cfg: Config, group: seq<ReadCall>, n: nat, x: int)
    requires n <= |group|
    ensures PaidBefore(cfg, group[..n], n, x) == PaidBefore(cfg, group, n, x)
  {
    forall k: nat | k < n ensures PaysFor(cfg, group[..n], k, x) == PaysFor(cfg, group, k, x) {
      PaysForPrefix(cfg, group, n, k, x);
    }
  }

  lemma PaidSnoc(cfg: Config, group: seq<ReadCall>, x: int)
    requires group != []
    ensures
      var n := |group| - 1;
      PaidBefore(cfg, group, n + 1, x) <==> PaidBefore(cfg, group[..n], n, x) || PaysFor(cfg, group, n, x)
  {
    PaidBeforePrefix(cfg, group, |group| - 1, x);
  }

  /** The coverage holds exactly the lines that calls paid for deliver. */
  lemma {:induction false} CoverageExactly(cfg: Config, group: seq<ReadCall>, x: int)
    requires GoodConfig(cfg) && ParsedCalls(group)
    ensures In(ReplayGroup(cfg, group).0, x) <==> PaidBefore(cfg, group, |group|, x)
  {
    if group != [] {
      var front, call := group[..|group| - 1], group[|group| - 1];
      CoverageExactly(cfg, front, x);
      CoverageCanonical(cfg, front);
      StepReached(cfg, |group| == 1, ReplayGroup(cfg, front).0, call);
      PaidSnoc(cfg, group, x);
    }
  }

  lemma RequestedProper(call: ReadCall, cfg: Config)
    requires GoodConfig(cfg) && ParsedCall(call) && Requested(call, cfg).Some?
    ensures 0 <= Requested(call, cfg).value.lo <= Requested(call, cfg).value.hi
  {
  }

  /** A call is skipped exactly when it is not the first of its group, asks for
      lines, and each of them was delivered by an earlier call that was paid for. */
  lemma SkippedExactly(cfg: Config, group: seq<ReadCall>, k: nat)
    requires GoodConfig(cfg) && ParsedCalls(group) && k < |group|
    ensures
      var req := Requested(group[k], cfg);
      Skips(cfg, k == 0, ReplayGroup(cfg, group[..k]).0, group[k]) <==>
        k > 0 && req.Some? && forall x :: Has(req.value, x) ==> PaidBefore(cfg, group, k, x)
  {
    var before, call := group[..k], group[k];
    var coverage, req := ReplayGroup(cfg, before).0, Requested(call, cfg);
    DeliversOrNot(call, cfg);
    if req.Some? {
      CoverageCanonical(cfg, before);
      RequestedProper(call, cfg);
      ScanReached(coverage, req.value);
      forall x ensures In(coverage, x) <==> PaidBefore(cfg, group, k, x) {
        CoverageExactly(cfg, before, x);
        PaidBeforePrefix(cfg, group, k, x);
      }
    }
  }
}
