/** Lists of inclusive line intervals: the canonical form, and the operations
    that keep it while agreeing with the plain set of lines denoted. */
module Intervals {
  import opened Sorting

  datatype Span = Span(lo: int, hi: int)

  predicate Has(v: Span, x: int) {
    v.lo <= x <= v.hi
  }

  /** The set of lines a list denotes. */
  predicate In(ivs: seq<Span>, x: int) {
    ivs != [] && (Has(ivs[0], x) || In(ivs[1..], x))
  }

  /** Proper intervals in increasing order, more than `gap` apart. */
  predicate Ordered(ivs: seq<Span>, gap: nat) {
    ivs == [] || (
      && ivs[0].lo <= ivs[0].hi
      && (|ivs| > 1 ==> ivs[0].hi + gap < ivs[1].lo)
      && Ordered(ivs[1..], gap))
  }

  /** No two intervals overlap or touch. */
  predicate Canonical(ivs: seq<Span>) {
    Ordered(ivs, 1)
  }

  predicate Proper(ivs: seq<Span>) {
    forall i :: 0 <= i < |ivs| ==> ivs[i].lo <= ivs[i].hi
  }

  lemma {:induction false} TailIsBeyond(ivs: seq<Span>, gap: nat, x: int)
    requires Ordered(ivs, gap) && ivs != [] && In(ivs[1..], x)
    ensures x > ivs[0].hi + gap
  {
    if !Has(ivs[1], x) {
      TailIsBeyond(ivs[1..], gap, x);
    }
  }

  lemma {:induction false} InAppend(a: seq<Span>, b: seq<Span>, x: int)
    ensures In(a + b, x) <==> In(a, x) || In(b, x)
  {
    if a == [] {
      assert a + b == b;
    } else {
      assert (a + b)[1..] == a[1..] + b;
      InAppend(a[1..], b, x);
    }
  }

  // ---------- Canonical lists are determined by their lines ----------

  ghost predicate SameLines(a: seq<Span>, b: seq<Span>) {
    forall x :: In(a, x) <==> In(b, x)
  }

  lemma HeadCovered(a: seq<Span>)
    requires Canonical(a) && a != []
    ensures In(a, a[0].lo) && In(a, a[0].hi) && !In(a, a[0].hi + 1)
    ensures forall x :: In(a, x) ==> a[0].lo <= x
  {
    forall x | In(a[1..], x) ensures x > a[0].hi + 1 {
      TailIsBeyond(a, 1, x);
    }
  }

  lemma SameHead(a: seq<Span>, b: seq<Span>)
    requires Canonical(a) && Canonical(b) && SameLines(a, b) && a != [] && b != []
    ensures a[0] == b[0]
  {
    HeadCovered(a);
    HeadCovered(b);
    assert In(b, a[0].lo) && In(a, b[0].lo);
    assert In(b, a[0].hi) && In(a, b[0].hi) && !In(b, a[0].hi + 1) && !In(a, b[0].hi + 1);
    if a[0].hi < b[0].hi {
      assert Has(b[0], a[0].hi + 1);
    } else if b[0].hi < a[0].hi {
      assert Has(a[0], b[0].hi + 1);
    }
  }

  lemma {:induction false} CanonicalUnique(a: seq<Span>, b: seq<Span>)
    requires Canonical(a) && Canonical(b) && SameLines(a, b)
    ensures a == b
  {
    if a == [] {
      if b != [] {
        HeadCovered(b);
      }
    } else if b == [] {
      HeadCovered(a);
    } else {
      SameHead(a, b);
      forall x ensures In(a[1..], x) <==> In(b[1..], x) {
        assert In(a, x) <==> In(b, x);
        if In(a[1..], x) { TailIsBeyond(a, 1, x); }
        if In(b[1..], x) { TailIsBeyond(b, 1, x); }
      }
      CanonicalUnique(a[1..], b[1..]);
    }
  }

  // ---------- Adding one interval ----------

  function Hull(v: Span, w: Span): Span {
    Span(if v.lo < w.lo then v.lo else w.lo, if v.hi > w.hi then v.hi else w.hi)
  }

  /** The scan that adds an interval: `placed` once it has been emitted. */
  function AddScan(ivs: seq<Span>, v: Span, placed: bool): seq<Span>
    decreases |ivs|
  {
    if ivs == [] then (if placed then [] else [v])
    else if ivs[0].hi + 1 < v.lo then [ivs[0]] + AddScan(ivs[1..], v, placed)
    else if v.hi + 1 < ivs[0].lo then (if placed then [] else [v]) + ([ivs[0]] + AddScan(ivs[1..], v, true))
    else AddScan(ivs[1..], Hull(v, ivs[0]), placed)
  }

  function Add(ivs: seq<Span>, v: Span): seq<Span> {
    AddScan(ivs, v, false)
  }

  /** Once placed, the interval leaves a canonical rest alone. */
  lemma {:induction false} AddPlaced(ivs: seq<Span>, v: Span)
    requires Canonical(ivs) && (ivs != [] ==> v.hi + 1 < ivs[0].lo)
    ensures AddScan(ivs, v, true) == ivs
  {
    if ivs != [] {
      AddPlaced(ivs[1..], v);
      assert [ivs[0]] + ivs[1..] == ivs;
    }
  }

  /** An interval that ends well before a canonical list goes in front of it. */
  lemma AddFront(ivs: seq<Span>, v: Span)
    requires Canonical(ivs) && v.lo <= v.hi + 1 && (ivs != [] ==> v.hi + 1 < ivs[0].lo)
    ensures Add(ivs, v) == [v] + ivs
  {
    if ivs != [] {
      AddPlaced(ivs[1..], v);
      assert [ivs[0]] + ivs[1..] == ivs;
    }
  }

  lemma {:induction false} AddCovers(ivs: seq<Span>, v: Span, x: int)
    requires Canonical(ivs) && v.lo <= v.hi
    ensures In(Add(ivs, v), x) <==> In(ivs, x) || Has(v, x)
  {
    if ivs != [] {
      if ivs[0].hi + 1 < v.lo {
        AddCovers(ivs[1..], v, x);
      } else if v.hi + 1 >= ivs[0].lo {
        AddCovers(ivs[1..], Hull(v, ivs[0]), x);
      } else {
        AddPlaced(ivs, v);
        AddPlaced(ivs[1..], v);
      }
    }
  }

  lemma {:induction false} AddCanonical(ivs: seq<Span>, v: Span)
    requires Canonical(ivs) && v.lo <= v.hi
    ensures Canonical(Add(ivs, v)) && Add(ivs, v) != []
    ensures Add(ivs, v)[0].lo == if ivs != [] && ivs[0].lo < v.lo then ivs[0].lo else v.lo
  {
    if ivs != [] {
      if ivs[0].hi + 1 < v.lo {
        AddCanonical(ivs[1..], v);
      } else if v.hi + 1 >= ivs[0].lo {
        AddCanonical(ivs[1..], Hull(v, ivs[0]));
      } else {
        AddPlaced(ivs[1..], v);
        assert [ivs[0]] + ivs[1..] == ivs;
        Head(v, ivs);
      }
    }
  }

  method AddInterval(intervals: seq<Span>, item: Span) returns (out: seq<Span>)
    ensures out == Add(intervals, item)
    ensures Canonical(intervals) && item.lo <= item.hi ==>
      Canonical(out) && forall x :: In(out, x) <==> In(intervals, x) || Has(item, x)
  {
    var v, placed := item, false;
    out := [];
    for i := 0 to |intervals|
      invariant Add(intervals, item) == out + AddScan(intervals[i..], v, placed)
    {
      var w := intervals[i];
      ghost var rest := intervals[i + 1..];
      assert intervals[i..] == [w] + rest;
      Head(w, rest);
      if w.hi + 1 < v.lo {
        AppendOne(out, w, AddScan(rest, v, placed));
        out := out + [w];
      } else if v.hi + 1 < w.lo {
        if !placed {
          AppendOne(out, v, [w] + AddScan(rest, v, true));
          out := out + [v];
          placed := true;
        } else {
          NoneFirst([w] + AddScan(rest, v, true));
        }
        AppendOne(out, w, AddScan(rest, v, true));
        out := out + [w];
      } else {
        v := Hull(v, w);
      }
    }
    assert out + [] == out;
    if !placed {
      out := out + [v];
    }
    if Canonical(intervals) && item.lo <= item.hi {
      AddSound(intervals, item);
    }
  }

  lemma NoneFirst(s: seq<Span>)
    ensures [] + s == s
  {
  }

  lemma Head(w: Span, rest: seq<Span>)
    ensures ([w] + rest)[0] == w && ([w] + rest)[1..] == rest
  {
  }

  lemma AppendOne(a: seq<Span>, w: Span, b: seq<Span>)
    ensures (a + [w]) + b == a + ([w] + b)
  {
  }

  lemma AddSound(ivs: seq<Span>, v: Span)
    requires Canonical(ivs) && v.lo <= v.hi
    ensures Canonical(Add(ivs, v))
    ensures forall x :: In(Add(ivs, v), x) <==> In(ivs, x) || Has(v, x)
  {
    AddCanonical(ivs, v);
    forall x ensures In(Add(ivs, v), x) <==> In(ivs, x) || Has(v, x) {
      AddCovers(ivs, v, x);
    }
  }

  // ---------- Sorting and merging all at once ----------

  /** Tuples compare by their first component, then by their second. */
  predicate SpanLe(v: Span, w: Span) {
    v.lo < w.lo || (v.lo == w.lo && v.hi <= w.hi)
  }

  function Sweep(current: Span, rest: seq<Span>): seq<Span>
    decreases |rest|
  {
    if rest == [] then [current]
    else if rest[0].lo <= current.hi + 1
    then Sweep(Span(current.lo, if rest[0].hi > current.hi then rest[0].hi else current.hi), rest[1..])
    else [current] + Sweep(rest[0], rest[1..])
  }

  function Merged(ivs: seq<Span>): seq<Span> {
    var s := Sort(ivs, SpanLe);
    if s == [] then [] else Sweep(s[0], s[1..])
  }

  // Reversed intervals denote no line, but a list may still show them.

  /** Merging makes the reversed `v` disappear into `w`: `w` starts before it and
      reaches at least the line before it, or both start at the same line, `v`
      ends just before it and `w` does not. */
  predicate Absorbs(w: Span, v: Span) {
    w.hi >= v.lo - 1 && (w.lo < v.lo || (w.lo == v.lo && w.lo <= w.hi && v.hi == v.lo - 1))
  }

  ghost predicate AllAbsorbed(s: set<Span>) {
    forall v :: v in s && v.hi < v.lo ==> exists w :: w in s && Absorbs(w, v)
  }

  function Elements(ivs: seq<Span>): set<Span> {
    set v | v in ivs
  }

  /** Every reversed interval is absorbed by another. */
  ghost predicate Settled(ivs: seq<Span>) {
    AllAbsorbed(Elements(ivs))
  }

  /** The sweep's `current` after it has taken in `v`. */
  function Grown(current: Span, v: Span): Span {
    Span(current.lo, if v.hi > current.hi then v.hi else current.hi)
  }

  lemma AbsorbedByGrown(current: Span, v: Span, u: Span)
    requires SpanLe(current, v) && SpanLe(v, u) && v.lo <= current.hi + 1
    ensures Absorbs(Grown(current, v), u) <==> Absorbs(current, u) || Absorbs(v, u)
  {
  }

  /** Joining two intervals that touch absorbs nothing new and loses nothing. */
  lemma JoinAbsorbs(current: Span, v: Span, rest: set<Span>)
    requires SpanLe(current, v) && v.lo <= current.hi + 1 && forall u :: u in rest ==> SpanLe(v, u)
    ensures AllAbsorbed(rest + {current, v}) <==> AllAbsorbed(rest + {Grown(current, v)})
  {
    var g := Grown(current, v);
    var apart, joined := rest + {current, v}, rest + {g};
    forall u | u in rest ensures (exists w :: w in apart && Absorbs(w, u)) <==> exists w :: w in joined && Absorbs(w, u) {
      AbsorbedByGrown(current, v, u);
      if w :| w in apart && Absorbs(w, u) {
        assert (if w in rest then w else g) in joined;
        assert Absorbs(if w in rest then w else g, u);
      }
      if w :| w in joined && Absorbs(w, u) {
        assert w in rest || Absorbs(current, u) || Absorbs(v, u);
        assert current in apart && v in apart;
      }
    }
    EndsAlike(current, v, rest);
  }

  /** Of two that touch, the reversed ones are absorbed exactly when what they
      join to is proper or absorbed. */
  lemma EndsAlike(current: Span, v: Span, rest: set<Span>)
    requires SpanLe(current, v) && v.lo <= current.hi + 1 && forall u :: u in rest ==> SpanLe(v, u)
    ensures
      var g := Grown(current, v);
      var apart, joined := rest + {current, v}, rest + {g};
      (forall u :: u in {current, v} && u.hi < u.lo ==> exists w :: w in apart && Absorbs(w, u))
      <==> (g.hi < g.lo ==> exists w :: w in joined && Absorbs(w, g))
  {
    var g := Grown(current, v);
    if current.lo <= current.hi {
      assert v.hi < v.lo ==> current in rest + {current, v} && Absorbs(current, v);
    } else {
      assert g == v && current.lo == v.lo && current.hi == v.lo - 1;
      if v.lo <= v.hi {
        assert v in rest + {current, v} && Absorbs(v, current);
      } else {
        assert current == v;
      }
    }
  }

  /** Where the next interval does not touch, `current` has to be proper. */
  lemma ApartAbsorbs(current: Span, v: Span, rest: set<Span>)
    requires SpanLe(current, v) && v.lo > current.hi + 1 && forall u :: u in rest ==> SpanLe(v, u)
    ensures AllAbsorbed(rest + {current, v}) <==> current.lo <= current.hi && AllAbsorbed(rest + {v})
  {
    var all, later := rest + {current, v}, rest + {v};
    forall u | u in later ensures (exists w :: w in all && Absorbs(w, u)) <==> exists w :: w in later && Absorbs(w, u) {
      assert !Absorbs(current, u);
      if w :| w in all && Absorbs(w, u) {
        assert w in later;
      }
      if w :| w in later && Absorbs(w, u) {
        assert w in all;
      }
    }
    assert forall w :: w in all ==> !Absorbs(w, current) || current.lo <= current.hi;
    if AllAbsorbed(all) {
      assert current in all;
    }
  }

  lemma LoneAbsorbs(current: Span)
    ensures AllAbsorbed({current}) <==> Canonical([current])
  {
    assert [current][1..] == [] && Ordered([current][1..], 1);
    if current.hi < current.lo {
      var one := {current};
      forall w | w in one ensures !Absorbs(w, current) {
      }
      assert current in one && !AllAbsorbed(one);
    } else {
      var one := {current};
      forall v | v in one ensures v.lo <= v.hi {
      }
      assert AllAbsorbed(one);
    }
  }

  ghost predicate SortedFrom(current: Span, rest: seq<Span>) {
    Sorted(rest, SpanLe) && forall v :: v in rest ==> SpanLe(current, v)
  }

  lemma SortedNext(current: Span, rest: seq<Span>)
    requires SortedFrom(current, rest) && rest != []
    ensures SortedFrom(rest[0], rest[1..]) && SpanLe(current, rest[0])
    ensures rest[0].lo <= current.hi + 1 ==> SortedFrom(Grown(current, rest[0]), rest[1..])
    ensures Elements(rest) == Elements(rest[1..]) + {rest[0]}
  {
    forall v | v in rest[1..] ensures SpanLe(rest[0], v) && SpanLe(current, v) {
      var i :| 0 <= i < |rest[1..]| && rest[1..][i] == v;
      assert rest[i + 1] == v && v in rest;
    }
    assert rest == [rest[0]] + rest[1..];
  }

  /** The sweep ends canonical exactly when every reversed interval was absorbed. */
  lemma {:induction false} SweepCanonical(current: Span, rest: seq<Span>)
    requires SortedFrom(current, rest)
    ensures Sweep(current, rest) != [] && Sweep(current, rest)[0].lo == current.lo
    ensures Canonical(Sweep(current, rest)) <==> AllAbsorbed(Elements(rest) + {current})
    decreases |rest|
  {
    if rest == [] {
      assert Elements(rest) + {current} == {current};
      LoneAbsorbs(current);
    } else {
      var v, later := rest[0], Elements(rest[1..]);
      SortedNext(current, rest);
      assert later + {v} + {current} == later + {current, v};
      if v.lo <= current.hi + 1 {
        SweepCanonical(Grown(current, v), rest[1..]);
        JoinAbsorbs(current, v, later);
      } else {
        SweepCanonical(v, rest[1..]);
        ApartAbsorbs(current, v, later);
        Head(current, Sweep(v, rest[1..]));
      }
    }
  }

  lemma {:induction false} SweepCovers(current: Span, rest: seq<Span>, x: int)
    requires SortedFrom(current, rest)
    ensures In(Sweep(current, rest), x) <==> Has(current, x) || In(rest, x)
    decreases |rest|
  {
    if rest != [] {
      SortedNext(current, rest);
      if rest[0].lo <= current.hi + 1 {
        SweepCovers(Grown(current, rest[0]), rest[1..], x);
      } else {
        SweepCovers(rest[0], rest[1..], x);
        Head(current, Sweep(rest[0], rest[1..]));
      }
    }
  }

  lemma {:induction false} InIsMember(ivs: seq<Span>, x: int)
    ensures In(ivs, x) <==> exists v :: v in ivs && Has(v, x)
  {
    if ivs != [] {
      InIsMember(ivs[1..], x);
    }
  }

  lemma SortedSpans(ivs: seq<Span>)
    ensures Sorted(Sort(ivs, SpanLe), SpanLe) && Elements(Sort(ivs, SpanLe)) == Elements(ivs)
    ensures forall x :: In(Sort(ivs, SpanLe), x) <==> In(ivs, x)
  {
    var s := Sort(ivs, SpanLe);
    assert TotalPreorder(SpanLe);
    SortSorted(ivs, SpanLe);
    forall v ensures v in s <==> v in ivs {
      SortElements(ivs, SpanLe, v);
    }
    forall x ensures In(s, x) <==> In(ivs, x) {
      InIsMember(s, x);
      InIsMember(ivs, x);
    }
  }

  lemma SortedHead(s: seq<Span>)
    requires Sorted(s, SpanLe) && s != []
    ensures SortedFrom(s[0], s[1..]) && Elements(s) == Elements(s[1..]) + {s[0]}
  {
    forall v | v in s[1..] ensures SpanLe(s[0], v) {
      var i :| 0 <= i < |s[1..]| && s[1..][i] == v;
      assert s[i + 1] == v;
    }
    assert s == [s[0]] + s[1..];
  }

  lemma ProperIsSettled(ivs: seq<Span>)
    ensures Proper(ivs) ==> Settled(ivs)
  {
  }

  /** Merging keeps the lines of any list, and its result is canonical exactly
      when every reversed interval is absorbed; a list without any is one case. */
  lemma MergedSound(ivs: seq<Span>)
    ensures Canonical(Merged(ivs)) <==> Settled(ivs)
    ensures Proper(ivs) ==> Canonical(Merged(ivs))
    ensures forall x :: In(Merged(ivs), x) <==> In(ivs, x)
  {
    var s := Sort(ivs, SpanLe);
    SortedSpans(ivs);
    ProperIsSettled(ivs);
    if s != [] {
      SortedHead(s);
      SweepCanonical(s[0], s[1..]);
    }
    forall x ensures In(Merged(ivs), x) <==> In(ivs, x) {
      assert In(s, x) <==> In(ivs, x);
      if s != [] {
        SweepCovers(s[0], s[1..], x);
      }
    }
  }

  method Merge(ivs: seq<Span>) returns (out: seq<Span>)
    ensures out == Merged(ivs)
    ensures Canonical(out) <==> Settled(ivs)
    ensures Proper(ivs) ==> Canonical(out)
    ensures forall x :: In(out, x) <==> In(ivs, x)
  {
    MergedSound(ivs);
    if ivs == [] {
      return [];
    }
    var sorted := Sort(ivs, SpanLe);
    SortElements(ivs, SpanLe, ivs[0]);
    out := [sorted[0]];
    for i := 1 to |sorted|
      invariant Merging(out, sorted, i, Merged(ivs))
    {
      MergeStep(out, sorted, i, Merged(ivs));
      var v, last := sorted[i], out[|out| - 1];
      if v.lo <= last.hi + 1 {
        out := out[|out| - 1 := Span(last.lo, if v.hi > last.hi then v.hi else last.hi)];
      } else {
        out := out + [v];
      }
    }
    MergeEnd(out, sorted, Merged(ivs));
  }

  /** The last interval of `out` still grows with the rest of the sorted ones. */
  ghost predicate Merging(out: seq<Span>, sorted: seq<Span>, i: nat, all: seq<Span>) {
    out != [] && i <= |sorted| && out[..|out| - 1] + Sweep(out[|out| - 1], sorted[i..]) == all
  }

  lemma MergeStep(out: seq<Span>, sorted: seq<Span>, i: nat, all: seq<Span>)
    requires i < |sorted| && Merging(out, sorted, i, all)
    ensures
      var v, last := sorted[i], out[|out| - 1];
      Merging(if v.lo <= last.hi + 1 then out[|out| - 1 := Span(last.lo, if v.hi > last.hi then v.hi else last.hi)] else out + [v],
              sorted, i + 1, all)
  {
    var v, last, done := sorted[i], out[|out| - 1], out[..|out| - 1];
    assert sorted[i..] == [v] + sorted[i + 1..] && out == done + [last];
    Head(v, sorted[i + 1..]);
    if v.lo <= last.hi + 1 {
      var grown := Span(last.lo, if v.hi > last.hi then v.hi else last.hi);
      assert out[|out| - 1 := grown] == done + [grown];
    } else {
      AppendOne(done, last, Sweep(v, sorted[i + 1..]));
      assert (out + [v])[..|out|] == out;
    }
  }

  lemma MergeEnd(out: seq<Span>, sorted: seq<Span>, all: seq<Span>)
    requires Merging(out, sorted, |sorted|, all)
    ensures out == all
  {
    assert out == out[..|out| - 1] + [out[|out| - 1]];
  }

  /** Merging gives the one list of the lines denoted, whatever the order of the
      input and however its intervals overlap, exactly when every reversed
      interval is absorbed. */
  lemma MergeOfSameLines(a: seq<Span>, b: seq<Span>)
    requires SameLines(a, b) && Settled(b)
    ensures Merged(a) == Merged(b) <==> Settled(a)
  {
    MergedSound(a);
    MergedSound(b);
    forall x ensures In(Merged(a), x) <==> In(Merged(b), x) {
      assert In(a, x) <==> In(b, x);
    }
    if Settled(a) {
      CanonicalUnique(Merged(a), Merged(b));
    }
  }

  /** A reversed interval past the others stays in the list, though it denotes
      no line. */
  lemma ReversedExample()
    ensures Merged([Span(1, 3), Span(10, 5)]) == [Span(1, 3), Span(10, 5)] && Merged([Span(1, 3)]) == [Span(1, 3)]
    ensures SameLines([Span(1, 3), Span(10, 5)], [Span(1, 3)]) && !Canonical([Span(1, 3), Span(10, 5)])
  {
    var u, v := Span(1, 3), Span(10, 5);
    assert [u, v][1..] == [v] && [v][1..] == [] && [u][1..] == [];
    assert Sort([v], SpanLe) == [v] && Sort([u], SpanLe) == [u];
    assert Sort([u, v], SpanLe) == Insert(u, [v], SpanLe) == [u] + [v] == [u, v];
    assert Sweep(u, [v]) == [u] + Sweep(v, []) == [u, v];
    assert [u, v][0] == u;
  }

  /** Adding intervals one by one, the earliest first. */
  function AddAll(ivs: seq<Span>): seq<Span> {
    if ivs == [] then [] else Add(AddAll(ivs[..|ivs| - 1]), ivs[|ivs| - 1])
  }

  lemma {:induction false} AddAllSound(ivs: seq<Span>)
    requires Proper(ivs)
    ensures Canonical(AddAll(ivs)) && SameLines(AddAll(ivs), ivs)
  {
    if ivs != [] {
      var front, v := ivs[..|ivs| - 1], ivs[|ivs| - 1];
      AddAllSound(front);
      AddCanonical(AddAll(front), v);
      forall x ensures In(AddAll(ivs), x) <==> In(ivs, x) {
        AddCovers(AddAll(front), v, x);
        assert ivs == front + [v] && [v][1..] == [];
        InAppend(front, [v], x);
      }
    }
  }

  /** The incremental and the batch form agree on every sequence of intervals. */
  lemma AddAllIsMerge(ivs: seq<Span>)
    requires Proper(ivs)
    ensures AddAll(ivs) == Merged(ivs)
  {
    AddAllSound(ivs);
    MergedSound(ivs);
    CanonicalUnique(AddAll(ivs), Merged(ivs));
  }

  // ---------- Containment ----------

  /** Every line of an interval lies in the list. */
  ghost predicate Covers(ivs: seq<Span>, v: Span) {
    forall x :: Has(v, x) ==> In(ivs, x)
  }

  /** One interval of the list contains the target. */
  predicate InOne(ivs: seq<Span>, v: Span) {
    ivs != [] && ((ivs[0].lo <= v.lo && v.hi <= ivs[0].hi) || InOne(ivs[1..], v))
  }

  /** In a canonical list, containment in one interval is containment in all. */
  lemma {:induction false} InOneIsCovers(ivs: seq<Span>, v: Span)
    requires Canonical(ivs) && v.lo <= v.hi
    ensures InOne(ivs, v) <==> Covers(ivs, v)
  {
    if ivs == [] {
      assert Has(v, v.lo);
    } else {
      var h := ivs[0];
      InOneIsCovers(ivs[1..], v);
      if h.lo <= v.lo && v.hi <= h.hi {
        assert forall x :: Has(v, x) ==> Has(h, x);
      } else if Covers(ivs, v) {
        assert In(ivs, v.lo) && In(ivs, v.hi);
        if Has(v, h.hi + 1) {
          HeadCovered(ivs);
          assert false;
        }
        TailCovers(ivs, v);
      }
    }
  }

  /** A target that starts past the first interval is left to the others. */
  lemma TailCovers(ivs: seq<Span>, v: Span)
    requires Canonical(ivs) && ivs != [] && v.lo <= v.hi && Covers(ivs, v)
    requires !Has(v, ivs[0].hi + 1) && !(ivs[0].lo <= v.lo && v.hi <= ivs[0].hi)
    ensures Covers(ivs[1..], v)
  {
    HeadCovered(ivs);
    assert Has(v, v.lo) && Has(v, v.hi);
    forall x | Has(v, x) ensures In(ivs[1..], x) {
      assert In(ivs, x);
    }
  }

  /** The scan with its early exit: false as soon as an interval starts past
      the target. */
  predicate CoveredScan(ivs: seq<Span>, v: Span) {
    ivs != [] && (
      if ivs[0].lo <= v.lo && v.hi <= ivs[0].hi then true
      else if ivs[0].lo > v.lo then false
      else CoveredScan(ivs[1..], v))
  }

  /** In a canonical list the early exit loses nothing, and the scan decides
      inclusion of the sets of lines. */
  lemma {:induction false} ScanIsCovers(ivs: seq<Span>, v: Span)
    requires Canonical(ivs) && v.lo <= v.hi
    ensures CoveredScan(ivs, v) <==> Covers(ivs, v)
  {
    ScanIsInOne(ivs, v);
    InOneIsCovers(ivs, v);
  }

  lemma {:induction false} ScanIsInOne(ivs: seq<Span>, v: Span)
    requires Canonical(ivs)
    ensures CoveredScan(ivs, v) <==> InOne(ivs, v)
  {
    if ivs != [] {
      if ivs[0].lo > v.lo {
        StartsBeyond(ivs, v);
      } else {
        ScanIsInOne(ivs[1..], v);
      }
    }
  }

  method IsCovered(intervals: seq<Span>, target: Span) returns (r: bool)
    ensures r == CoveredScan(intervals, target)
    ensures Canonical(intervals) && target.lo <= target.hi ==> (r <==> Covers(intervals, target))
  {
    if Canonical(intervals) && target.lo <= target.hi {
      ScanIsCovers(intervals, target);
    }
    for i := 0 to |intervals|
      invariant CoveredScan(intervals, target) == CoveredScan(intervals[i..], target)
    {
      var v := intervals[i];
      assert intervals[i..] == [v] + intervals[i + 1..];
      Head(v, intervals[i + 1..]);
      if v.lo <= target.lo && target.hi <= v.hi {
        return true;
      }
      if v.lo > target.lo {
        return false;
      }
    }
    return false;
  }

  lemma {:induction false} StartsBeyond(ivs: seq<Span>, v: Span)
    requires Canonical(ivs) && ivs != [] && ivs[0].lo > v.lo
    ensures !InOne(ivs, v)
  {
    if |ivs| > 1 {
      StartsBeyond(ivs[1..], v);
    }
  }

  /** The scan without an early exit. */
  method Contained(s: int, e: int, ivs: seq<Span>) returns (r: bool)
    ensures r <==> InOne(ivs, Span(s, e))
  {
    for i := 0 to |ivs|
      invariant InOne(ivs, Span(s, e)) <==> InOne(ivs[i..], Span(s, e))
    {
      assert ivs[i..][0] == ivs[i] && ivs[i..][1..] == ivs[i + 1..];
      if ivs[i].lo <= s && ivs[i].hi >= e {
        return true;
      }
    }
    return false;
  }

  // ---------- Subtraction ----------

  function Pieces(v: Span, cut: Span): seq<Span> {
    if cut.hi < v.lo || cut.lo > v.hi then [v]
    else (if cut.lo > v.lo then [Span(v.lo, cut.lo - 1)] else []) + (if cut.hi < v.hi then [Span(cut.hi + 1, v.hi)] else [])
  }

  function CutAll(vs: seq<Span>, cut: Span): seq<Span> {
    if vs == [] then [] else CutAll(vs[..|vs| - 1], cut) + Pieces(vs[|vs| - 1], cut)
  }

  function Subtracted(v: Span, ivs: seq<Span>): seq<Span> {
    if ivs == [] then [v] else CutAll(Subtracted(v, ivs[..|ivs| - 1]), ivs[|ivs| - 1])
  }

  lemma {:induction false} OrderedAppend(a: seq<Span>, b: seq<Span>, bound: int)
    requires Ordered(a, 0) && Ordered(b, 0)
    requires forall x :: In(a, x) ==> x < bound
    requires b != [] ==> bound <= b[0].lo
    ensures Ordered(a + b, 0)
  {
    if a == [] {
      assert a + b == b;
    } else {
      var t := a[1..];
      assert (a + b)[1..] == t + b;
      assert In(a, a[0].hi);
      forall x | In(t, x) ensures x < bound { assert In(a, x); }
      OrderedAppend(t, b, bound);
    }
  }

  lemma {:induction false} CutAllSound(vs: seq<Span>, cut: Span)
    requires Ordered(vs, 0) && cut.lo <= cut.hi
    ensures Ordered(CutAll(vs, cut), 0)
    ensures forall x :: In(CutAll(vs, cut), x) <==> In(vs, x) && !Has(cut, x)
    decreases |vs|
  {
    if vs != [] {
      var front, v := vs[..|vs| - 1], vs[|vs| - 1];
      assert vs == front + [v];
      OrderedFront(vs, front, v);
      CutAllSound(front, cut);
      PiecesSound(v, cut);
      OrderedAppend(CutAll(front, cut), Pieces(v, cut), v.lo);
      forall x ensures In(CutAll(vs, cut), x) <==> In(vs, x) && !Has(cut, x) {
        InAppend(CutAll(front, cut), Pieces(v, cut), x);
        InSnoc(front, v, x);
      }
    }
  }

  lemma InSnoc(front: seq<Span>, v: Span, x: int)
    ensures In(front + [v], x) <==> In(front, x) || Has(v, x)
  {
    Head(v, []);
    InAppend(front, [v], x);
  }

  lemma PiecesSound(v: Span, cut: Span)
    requires v.lo <= v.hi && cut.lo <= cut.hi
    ensures Ordered(Pieces(v, cut), 0)
    ensures Pieces(v, cut) != [] ==> v.lo <= Pieces(v, cut)[0].lo
    ensures forall x :: In(Pieces(v, cut), x) <==> Has(v, x) && !Has(cut, x)
  {
    var a := if cut.lo > v.lo then [Span(v.lo, cut.lo - 1)] else [];
    var b := if cut.hi < v.hi then [Span(cut.hi + 1, v.hi)] else [];
    forall x ensures In(Pieces(v, cut), x) <==> Has(v, x) && !Has(cut, x) {
      assert [v][1..] == [] && (a != [] ==> a[1..] == []) && (b != [] ==> b[1..] == []);
      InAppend(a, b, x);
    }
    assert a != [] && b != [] ==> (a + b)[1..] == b && b[1..] == [];
    assert a == [] ==> a + b == b;
    assert b == [] ==> a + b == a;
  }

  lemma {:induction false} OrderedFront(vs: seq<Span>, front: seq<Span>, v: Span)
    requires Ordered(vs, 0) && vs == front + [v]
    ensures Ordered(front, 0) && v.lo <= v.hi
    ensures forall x :: In(front, x) ==> x < v.lo
  {
    if front == [] {
      assert vs[0] == v;
    } else {
      assert vs[1..] == front[1..] + [v];
      OrderedFront(vs[1..], front[1..], v);
      InSnoc(front[1..], v, v.lo);
      TailIsBeyond(vs, 0, v.lo);
    }
  }

  /** What remains of an interval is ordered and exact, whatever is subtracted. */
  lemma {:induction false} SubtractedSound(v: Span, ivs: seq<Span>)
    requires v.lo <= v.hi && Proper(ivs)
    ensures Ordered(Subtracted(v, ivs), 0)
    ensures forall x :: In(Subtracted(v, ivs), x) <==> Has(v, x) && !In(ivs, x)
  {
    if ivs == [] {
      assert [v][1..] == [];
    } else {
      var front, cut := ivs[..|ivs| - 1], ivs[|ivs| - 1];
      SubtractedSound(v, front);
      CutAllSound(Subtracted(v, front), cut);
      assert ivs == front + [cut];
      forall x ensures In(ivs, x) <==> In(front, x) || Has(cut, x) {
        InSnoc(front, cut, x);
      }
    }
  }

  lemma {:induction false} CutNothing(ivs: seq<Span>, i: nat, v: Span)
    requires i <= |ivs| && Subtracted(v, ivs[..i]) == []
    ensures Subtracted(v, ivs) == []
    decreases |ivs| - i
  {
    if i < |ivs| {
      assert ivs[..i + 1][..i] == ivs[..i];
      CutNothing(ivs, i + 1, v);
    } else {
      assert ivs[..i] == ivs;
    }
  }

  method CutEach(vs: seq<Span>, cut: Span) returns (pieces: seq<Span>)
    ensures pieces == CutAll(vs, cut)
  {
    pieces := [];
    for j := 0 to |vs|
      invariant pieces == CutAll(vs[..j], cut)
    {
      assert vs[..j + 1][..j] == vs[..j];
      var v := vs[j];
      if cut.hi < v.lo || cut.lo > v.hi {
        pieces := pieces + [v];
        continue;
      }
      if cut.lo > v.lo {
        pieces := pieces + [Span(v.lo, cut.lo - 1)];
      }
      if cut.hi < v.hi {
        pieces := pieces + [Span(cut.hi + 1, v.hi)];
      }
    }
    assert vs[..|vs|] == vs;
  }

  method Subtract(v: Span, ivs: seq<Span>) returns (out: seq<Span>)
    requires v.lo <= v.hi && Proper(ivs)
    ensures out == Subtracted(v, ivs)
    ensures Ordered(out, 0) && forall x :: In(out, x) <==> Has(v, x) && !In(ivs, x)
  {
    out := CutInTurn(v, ivs);
    SubtractedSound(v, ivs);
  }

  /** The loop over the intervals, left when nothing remains. */
  method CutInTurn(v: Span, ivs: seq<Span>) returns (out: seq<Span>)
    ensures out == Subtracted(v, ivs)
  {
    out := [v];
    for i := 0 to |ivs|
      invariant out == Subtracted(v, ivs[..i])
    {
      assert ivs[..i + 1][..i] == ivs[..i];
      out := CutEach(out, ivs[i]);
      if out == [] {
        CutNothing(ivs, i + 1, v);
        return;
      }
    }
    assert ivs[..|ivs|] == ivs;
  }
}
