/** Search for the longest repeated run of lines in a block of an edit. */
module LongestRepeat {
  import opened Options

  /** Two equal windows of length `k` that do not overlap. */
  predicate Repeats(block: seq<string>, i: nat, j: nat, k: nat) {
    i + k <= j && j + k <= |block| && block[i..i + k] == block[j..j + k]
  }

  /** Length of the repeat from `i` and `j`, extended from `k` as far as it goes. */
  function Extension(block: seq<string>, i: nat, j: nat, k: nat): (r: nat)
    decreases |block| - k
  {
    if i + k < j && j + k < |block| && block[i + k] == block[j + k] then Extension(block, i, j, k + 1) else k
  }

  function Max(a: int, b: int): int {
    if a < b then b else a
  }

  function MeaningfulCount(window: seq<string>, meaningful: string -> bool): nat {
    if window == [] then 0
    else MeaningfulCount(window[..|window| - 1], meaningful) + if meaningful(window[|window| - 1]) then 1 else 0
  }

  /** At least half of the lines, and at least two, are meaningful. */
  predicate MeaningfulEnough(window: seq<string>, meaningful: string -> bool) {
    MeaningfulCount(window, meaningful) >= Max((|window| + 1) / 2, 2)
  }

  lemma RepeatsAt(block: seq<string>, i: nat, j: nat, m: nat, k: nat)
    requires Repeats(block, i, j, m) && k < m
    ensures i + k < j && j + k < |block| && block[i + k] == block[j + k]
  {
    assert block[i + k] == block[i..i + m][k] && block[j + k] == block[j..j + m][k];
  }

  lemma WindowSnoc(block: seq<string>, i: nat, k: nat)
    requires i + k < |block|
    ensures block[i..i + k + 1] == block[i..i + k] + [block[i + k]]
  {
  }

  lemma {:induction false} ExtensionMaximal(block: seq<string>, i: nat, j: nat, k: nat)
    requires Repeats(block, i, j, k)
    ensures k <= Extension(block, i, j, k) && Repeats(block, i, j, Extension(block, i, j, k))
    ensures forall m: nat :: Repeats(block, i, j, m) ==> m <= Extension(block, i, j, k)
    decreases |block| - k
  {
    if i + k < j && j + k < |block| && block[i + k] == block[j + k] {
      WindowSnoc(block, i, k);
      WindowSnoc(block, j, k);
      ExtensionMaximal(block, i, j, k + 1);
    } else {
      forall m: nat | Repeats(block, i, j, m) ensures m <= k {
        if k < m {
          RepeatsAt(block, i, j, m, k);
        }
      }
    }
  }

  /** A pair of starts is tried, and its maximal repeat is long and meaningful
      enough. */
  predicate Qualifies(block: seq<string>, minLen: nat, meaningful: string -> bool, i: nat, j: nat) {
    && i + minLen <= j && j + minLen <= |block|
    && var k := Extension(block, i, j, 0);
       && k >= minLen && i + k <= |block| && MeaningfulEnough(block[i..i + k], meaningful)
  }

  method CountMeaningful(window: seq<string>, meaningful: string -> bool) returns (n: nat)
    ensures n == MeaningfulCount(window, meaningful)
  {
    n := 0;
    for s := 0 to |window|
      invariant n == MeaningfulCount(window[..s], meaningful)
    {
      assert window[..s + 1][..s] == window[..s];
      if meaningful(window[s]) {
        n := n + 1;
      }
    }
    assert window[..|window|] == window;
  }

  method Extend(block: seq<string>, i: nat, j: nat) returns (k: nat)
    requires i <= j <= |block|
    ensures k == Extension(block, i, j, 0) && Repeats(block, i, j, k)
    ensures forall m: nat :: Repeats(block, i, j, m) ==> m <= k
  {
    k := 0;
    while i + k < j && j + k < |block| && block[i + k] == block[j + k]
      invariant Extension(block, i, j, 0) == Extension(block, i, j, k)
      invariant i + k <= j && j + k <= |block|
      decreases |block| - k
    {
      k := k + 1;
    }
    ExtensionMaximal(block, i, j, 0);
  }

  /** Pairs tried before (i, j). */
  predicate Before(i': nat, j': nat, i: nat, j: nat) {
    i' < i || (i' == i && j' < j)
  }

  /** Length of the maximal repeat of a pair that qualifies. */
  function Score(block: seq<string>, minLen: nat, meaningful: string -> bool, i: nat, j: nat): Option<nat> {
    if Qualifies(block, minLen, meaningful, i, j) then Some(Extension(block, i, j, 0)) else None
  }

  type Scores = (nat, nat) -> Option<nat>

  /** `best` beats every pair tried before (i, j), and is one of them. */
  ghost predicate BestSoFar(score: Scores, best: Option<(nat, nat)>, i: nat, j: nat) {
    && (forall i', j' :: Before(i', j', i, j) && score(i', j').Some? ==> Beats(best, i', score(i', j').value))
    && (best.Some? ==> exists j' :: Before(best.value.0, j', i, j) && score(best.value.0, j') == Some(best.value.1))
  }

  /** At least as long, and no later among equals. */
  predicate Beats(best: Option<(nat, nat)>, i: nat, k: nat) {
    best.Some? && (best.value.1 > k || (best.value.1 == k && best.value.0 <= i))
  }

  function Better(score: Scores, best: Option<(nat, nat)>, i: nat, j: nat): Option<(nat, nat)> {
    if score(i, j).Some? && (best.None? || score(i, j).value > best.value.1) then Some((i, score(i, j).value)) else best
  }

  lemma BestStep(score: Scores, best: Option<(nat, nat)>, i: nat, j: nat)
    requires BestSoFar(score, best, i, j)
    ensures BestSoFar(score, Better(score, best, i, j), i, j + 1)
  {
    var better := Better(score, best, i, j);
    if better == best {
      if best.Some? {
        var j' :| Before(best.value.0, j', i, j) && score(best.value.0, j') == Some(best.value.1);
        assert Before(best.value.0, j', i, j + 1);
      }
    } else {
      assert Before(i, j, i, j + 1);
    }
  }

  /** Moving on past pairs that score nothing. */
  lemma BestSkip(score: Scores, best: Option<(nat, nat)>, i: nat, j: nat, i': nat, j': nat)
    requires BestSoFar(score, best, i, j)
    requires forall a, b :: Before(a, b, i', j') && !Before(a, b, i, j) ==> score(a, b).None?
    requires forall a, b :: Before(a, b, i, j) ==> Before(a, b, i', j')
    ensures BestSoFar(score, best, i', j')
  {
    if best.Some? {
      var b :| Before(best.value.0, b, i, j) && score(best.value.0, b) == Some(best.value.1);
      assert Before(best.value.0, b, i', j');
    }
  }

  /** The search scores pairs as `Score` does. */
  ghost predicate Scoring(score: Scores, block: seq<string>, minLen: nat, meaningful: string -> bool) {
    forall i, j :: score(i, j) == Score(block, minLen, meaningful, i, j)
  }

  lemma NoScoreOutside(score: Scores, block: seq<string>, minLen: nat, meaningful: string -> bool, i: nat, j: nat)
    requires Scoring(score, block, minLen, meaningful) && (j < i + minLen || j + minLen > |block|)
    ensures score(i, j).None?
  {
  }

  /** One pair of starts. */
  method TryPair(block: seq<string>, minLen: nat, meaningful: string -> bool, i: nat, j: nat, best: Option<(nat, nat)>)
    returns (best': Option<(nat, nat)>)
    requires i + minLen <= j && j + minLen <= |block|
    ensures
      var s := Score(block, minLen, meaningful, i, j);
      best' == if s.Some? && (best.None? || s.value > best.value.1) then Some((i, s.value)) else best
  {
    best' := best;
    var k := Extend(block, i, j);
    if k < minLen {
      return;
    }
    var count := CountMeaningful(block[i..i + k], meaningful);
    if count < Max((k + 1) / 2, 2) {
      return;
    }
    if best.None? || k > best.value.1 {
      best' := Some((i, k));
    }
  }

  /** The inner loop: all second starts for the first start `i`. */
  method ScanSecond(block: seq<string>, minLen: nat, meaningful: string -> bool, i: nat, best0: Option<(nat, nat)>, ghost score: Scores)
    returns (best: Option<(nat, nat)>)
    requires minLen >= 1 && i + minLen <= |block|
    requires Scoring(score, block, minLen, meaningful) && BestSoFar(score, best0, i, 0)
    ensures BestSoFar(score, best, i + 1, 0)
  {
    best := best0;
    SkipRow(score, block, minLen, meaningful, best, i, 0, i, i + minLen);
    var limit := Max(|block| - minLen + 1, i + minLen);
    for j := i + minLen to limit
      invariant BestSoFar(score, best, i, j)
    {
      BestStep(score, best, i, j);
      assert score(i, j) == Score(block, minLen, meaningful, i, j);
      best := TryPair(block, minLen, meaningful, i, j, best);
    }
    SkipRow(score, block, minLen, meaningful, best, i, limit, i + 1, 0);
  }

  /** From the start of a row to its first pair, or from past its last to the
      next row, nothing scores. */
  lemma SkipRow(score: Scores, block: seq<string>, minLen: nat, meaningful: string -> bool, best: Option<(nat, nat)>,
                i: nat, j: nat, i': nat, j': nat)
    requires Scoring(score, block, minLen, meaningful) && BestSoFar(score, best, i, j)
    requires (i' == i && j <= j' == i + minLen) || (i' == i + 1 && j' == 0 && j + minLen > |block|)
    ensures BestSoFar(score, best, i', j')
  {
    forall a, b | Before(a, b, i', j') && !Before(a, b, i, j) ensures score(a, b).None? {
      NoScoreOutside(score, block, minLen, meaningful, a, b);
    }
    BestSkip(score, best, i, j, i', j');
  }

  /** The result starts the longest of the qualifying maximal repeats, the
      earliest start among equals; None means there is none. */
  method FindLongestRepeat(block: seq<string>, minLen: nat, meaningful: string -> bool) returns (best: Option<(nat, nat)>)
    requires minLen >= 1
    ensures best.Some? ==> exists j ::
      && Qualifies(block, minLen, meaningful, best.value.0, j)
      && best.value.1 == Extension(block, best.value.0, j, 0) && Repeats(block, best.value.0, j, best.value.1)
    ensures forall i, j :: Qualifies(block, minLen, meaningful, i, j) ==> Beats(best, i, Extension(block, i, j, 0))
  {
    var n := |block|;
    if n < 2 * minLen {
      return None;
    }
    best := None;
    ghost var score: Scores := (i, j) => Score(block, minLen, meaningful, i, j);
    for i := 0 to n - minLen + 1
      invariant BestSoFar(score, best, i, 0)
    {
      best := ScanSecond(block, minLen, meaningful, i, best, score);
    }
    Final(block, minLen, meaningful, best, score, n - minLen + 1);
  }

  lemma Final(block: seq<string>, minLen: nat, meaningful: string -> bool, best: Option<(nat, nat)>, score: Scores, i: nat)
    requires minLen >= 1
    requires BestSoFar(score, best, i, 0) && i + minLen > |block| && Scoring(score, block, minLen, meaningful)
    ensures best.Some? ==> exists j ::
      && Qualifies(block, minLen, meaningful, best.value.0, j)
      && best.value.1 == Extension(block, best.value.0, j, 0) && Repeats(block, best.value.0, j, best.value.1)
    ensures forall a, b :: Qualifies(block, minLen, meaningful, a, b) ==> Beats(best, a, Extension(block, a, b, 0))
  {
    if best.Some? {
      var j :| Before(best.value.0, j, i, 0) && score(best.value.0, j) == Some(best.value.1);
      BestRepeats(block, minLen, meaningful, best.value.0, j, score);
    }
    forall a, b | Qualifies(block, minLen, meaningful, a, b) ensures Beats(best, a, Extension(block, a, b, 0)) {
      BestBeats(block, minLen, meaningful, best, score, i, a, b);
    }
  }

  lemma BestRepeats(block: seq<string>, minLen: nat, meaningful: string -> bool, i: nat, j: nat, score: Scores)
    requires Scoring(score, block, minLen, meaningful) && score(i, j).Some?
    ensures Qualifies(block, minLen, meaningful, i, j)
    ensures score(i, j).value == Extension(block, i, j, 0) && Repeats(block, i, j, score(i, j).value)
  {
    assert score(i, j) == Score(block, minLen, meaningful, i, j);
    assert Repeats(block, i, j, 0);
    ExtensionMaximal(block, i, j, 0);
  }

  lemma BestBeats(block: seq<string>, minLen: nat, meaningful: string -> bool, best: Option<(nat, nat)>, score: Scores,
                  i: nat, a: nat, b: nat)
    requires BestSoFar(score, best, i, 0) && i + minLen > |block| && Scoring(score, block, minLen, meaningful)
    requires minLen >= 1 && Qualifies(block, minLen, meaningful, a, b)
    ensures Beats(best, a, Extension(block, a, b, 0))
  {
    assert score(a, b) == Score(block, minLen, meaningful, a, b);
    assert Before(a, b, i, 0);
  }

  /** A repeat that is long enough makes its pair of starts qualify exactly when
      the maximal repeat of that pair is meaningful enough. */
  lemma QualifiesExactly(block: seq<string>, minLen: nat, meaningful: string -> bool, i: nat, j: nat, k: nat)
    requires Repeats(block, i, j, k) && k >= minLen
    ensures Repeats(block, i, j, Extension(block, i, j, 0)) && k <= Extension(block, i, j, 0)
    ensures Qualifies(block, minLen, meaningful, i, j)
       <==> MeaningfulEnough(block[i..i + Extension(block, i, j, 0)], meaningful)
  {
    assert Repeats(block, i, j, 0);
    ExtensionMaximal(block, i, j, 0);
  }

  lemma {:induction false} AllCounted(window: seq<string>, meaningful: string -> bool)
    requires forall s :: s in window ==> meaningful(s)
    ensures MeaningfulCount(window, meaningful) == |window|
  {
    if window != [] {
      AllCounted(window[..|window| - 1], meaningful);
    }
  }

  /** Where every line is meaningful, any repeat that is long enough makes its
      pair of starts qualify. */
  lemma MeaningfulBlock(block: seq<string>, minLen: nat, meaningful: string -> bool, i: nat, j: nat, k: nat)
    requires forall s :: s in block ==> meaningful(s)
    requires Repeats(block, i, j, k) && k >= minLen && k >= 2
    ensures Qualifies(block, minLen, meaningful, i, j)
  {
    QualifiesExactly(block, minLen, meaningful, i, j, k);
    AllCounted(block[i..i + Extension(block, i, j, 0)], meaningful);
  }

  lemma CountSnoc(window: seq<string>, s: string, meaningful: string -> bool)
    ensures MeaningfulCount(window + [s], meaningful) == MeaningfulCount(window, meaningful) + if meaningful(s) then 1 else 0
  {
    assert (window + [s])[..|window|] == window;
  }

  /** The counts in a window of `a`, `b` and then only lines `x`. */
  lemma CountsExample(a: string, b: string, x: string, meaningful: string -> bool)
    requires meaningful(a) && meaningful(b) && !meaningful(x)
    ensures MeaningfulCount([a, b, x, x], meaningful) == 2 && MeaningfulCount([a, b, x, x, x], meaningful) == 2
    ensures MeaningfulCount([b, x, x, x], meaningful) == 1
  {
    CountSnoc([], a, meaningful);
    CountSnoc([a], b, meaningful);
    CountSnoc([a, b], x, meaningful);
    CountSnoc([a, b, x], x, meaningful);
    CountSnoc([a, b, x, x], x, meaningful);
    CountSnoc([], b, meaningful);
    CountSnoc([b], x, meaningful);
    CountSnoc([b, x], x, meaningful);
    CountSnoc([b, x, x], x, meaningful);
    assert [] + [a] == [a] && [a] + [b] == [a, b] && [a, b] + [x] == [a, b, x] && [a, b, x] + [x] == [a, b, x, x];
    assert [a, b, x, x] + [x] == [a, b, x, x, x] && [] + [b] == [b] && [b] + [x] == [b, x];
    assert [b, x] + [x] == [b, x, x] && [b, x, x] + [x] == [b, x, x, x];
  }

  lemma ExtensionsExample(a: string, b: string, x: string)
    requires a != b && a != x && b != x
    ensures
      var block := [a, b, x, x, x, a, b, x, x, x];
      && Extension(block, 0, 4, 0) == 0 && Extension(block, 0, 5, 0) == 5 && Extension(block, 0, 6, 0) == 0
      && Extension(block, 1, 5, 0) == 0 && Extension(block, 1, 6, 0) == 4 && Extension(block, 2, 6, 0) == 0
  {
    var block := [a, b, x, x, x, a, b, x, x, x];
    assert |block| == 10 && block[0] == a == block[5] && block[1] == b == block[6];
    assert block[2] == x == block[3] && block[4] == x == block[7] && block[8] == x == block[9];
    assert Extension(block, 0, 5, 5) == 5;
    assert Extension(block, 0, 5, 4) == 5;
    assert Extension(block, 0, 5, 3) == 5;
    assert Extension(block, 0, 5, 2) == 5;
    assert Extension(block, 0, 5, 1) == 5;
    assert Extension(block, 1, 6, 4) == 4;
    assert Extension(block, 1, 6, 3) == 4;
    assert Extension(block, 1, 6, 2) == 4;
    assert Extension(block, 1, 6, 1) == 4;
  }

  /** A block with a meaningful repeat of four lines that only a shorter window
      than the maximal one shows: nothing qualifies. */
  lemma ShorterRepeatMissed(a: string, b: string, x: string, meaningful: string -> bool)
    requires a != b && a != x && b != x && meaningful(a) && meaningful(b) && !meaningful(x)
    ensures
      var block := [a, b, x, x, x, a, b, x, x, x];
      && Repeats(block, 0, 5, 4) && MeaningfulEnough(block[0..4], meaningful)
      && forall i, j :: !Qualifies(block, 4, meaningful, i, j)
  {
    var block := [a, b, x, x, x, a, b, x, x, x];
    assert block[0..4] == [a, b, x, x] == block[5..9] && block[0..5] == [a, b, x, x, x] && block[1..5] == [b, x, x, x];
    CountsExample(a, b, x, meaningful);
    ExtensionsExample(a, b, x);
    forall i, j ensures !Qualifies(block, 4, meaningful, i, j) {
      if i + 4 <= j && j + 4 <= 10 {
        assert (i == 0 && 4 <= j <= 6) || (i == 1 && 5 <= j <= 6) || (i == 2 && j == 6);
      }
    }
  }
}
