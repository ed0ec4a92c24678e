/** Uniform sampling from a stream of unknown length. */
module Reservoir {
  /** The positions in the stream of the items kept, after `size` items filled
      the sample and one index was drawn for each item since. */
  function Slots(size: nat, drawn: seq<nat>): (r: seq<nat>)
    ensures |r| == size && forall k :: 0 <= k < size ==> r[k] < size + |drawn|
  {
    if drawn == [] then seq(size, k => k)
    else
      var last := |drawn| - 1;
      var slots := Slots(size, drawn[..last]);
      if drawn[last] < size then slots[drawn[last] := size + last] else slots
  }

  lemma {:induction false} SlotsDistinct(size: nat, drawn: seq<nat>)
    ensures forall j, k :: 0 <= j < k < size ==> Slots(size, drawn)[j] != Slots(size, drawn)[k]
  {
    if drawn != [] {
      SlotsDistinct(size, drawn[..|drawn| - 1]);
    }
  }

  lemma SlotsSnoc(size: nat, drawn: seq<nat>, c: nat)
    ensures Slots(size, drawn + [c])
         == if c < size then Slots(size, drawn)[c := size + |drawn|] else Slots(size, drawn)
  {
    assert (drawn + [c])[..|drawn|] == drawn;
  }

  /** The items at the given positions. */
  function Picked<T>(stream: seq<T>, slots: seq<nat>): (r: seq<T>)
    requires forall k :: 0 <= k < |slots| ==> slots[k] < |stream|
  {
    seq(|slots|, k requires 0 <= k < |slots| => stream[slots[k]])
  }

  /** Sample after the whole stream, `drawn` holding the indices drawn once the
      sample was full. */
  function Sample<T>(size: int, stream: seq<T>, drawn: seq<nat>): (r: seq<T>)
    requires size <= 0 || |stream| <= size || |drawn| == |stream| - size
    ensures |r| == if size <= 0 then 0 else if |stream| < size then |stream| else size
    ensures forall x :: x in r ==> x in stream
  {
    if size <= 0 then []
    else if |stream| <= size then stream
    else Picked(stream, Slots(size, drawn))
  }

  class ReservoirSample<T> {
    const size: int
    var items: seq<T>
    var seen: nat
    ghost var fed: seq<T>
    ghost var drawn: seq<nat>

    ghost predicate Valid() reads this {
      && seen == (if size <= 0 then 0 else |fed|)
      && (size > 0 ==> |drawn| == if seen <= size then 0 else seen - size)
      && items == Sample(size, fed, drawn)
    }

    constructor (size: int)
      ensures Valid() && this.size == size && fed == [] && drawn == []
    {
      this.size := size;
      items, seen, fed, drawn := [], 0, [], [];
    }

    /** `index` is what the generator draws from the numbers below the count of
        items seen, this one included; it is not drawn before the sample is full. */
    method Add(item: T, index: nat)
      requires Valid() && index <= seen
      modifies this
      ensures Valid() && fed == old(fed) + [item]
      ensures drawn == old(drawn) + (if 0 < size && size <= old(seen) then [index] else [])
      ensures items == Sample(size, old(fed) + [item], drawn)
    {
      fed := fed + [item];
      if size <= 0 {
        return;
      }
      seen := seen + 1;
      if |items| < size {
        items := items + [item];
        return;
      }
      ghost var before := old(fed);
      SlotsSnoc(size, drawn, index);
      if |drawn| == 0 {
        assert items == Picked(before, Slots(size, drawn));
      }
      drawn := drawn + [index];
      if index < size {
        items := items[index := item];
      }
      assert items == Picked(fed, Slots(size, drawn));
    }
  }

  /** Feeding a stream, with one index for each item (those for the first
      `size` items go unused). */
  method SampleReservoir<T>(stream: seq<T>, size: int, indices: seq<nat>) returns (r: seq<T>)
    requires |indices| == |stream| && forall t :: 0 <= t < |indices| ==> indices[t] <= t
    ensures r == Sample(size, stream, if 0 < size <= |stream| then indices[size..] else [])
  {
    var sample := new ReservoirSample<T>(size);
    for t := 0 to |stream|
      invariant sample.Valid() && sample.size == size && fresh(sample) && sample.fed == stream[..t]
      invariant sample.drawn == if 0 < size <= t then indices[size..t] else []
    {
      sample.Add(stream[t], if sample.seen == t then indices[t] else 0);
    }
    assert stream[..|stream|] == stream;
    assert indices[..|stream|] == indices;
    r := sample.items;
  }

  // ---------------------------------------------------------------- fairness

  function SumTo(n: nat, f: nat -> nat): nat {
    if n == 0 then 0 else SumTo(n - 1, f) + f(n - 1)
  }

  /** Among the ways to draw the indices after `drawn` up to `n` of them (the
      one at position t is below size + t + 1), those whose outcome satisfies `p`. */
  function Draws(size: nat, n: nat, drawn: seq<nat>, p: seq<nat> -> bool): nat
    requires |drawn| <= n
    decreases n - |drawn|
  {
    if |drawn| == n then if p(drawn) then 1 else 0
    else SumTo(size + |drawn| + 1, c => Draws(size, n, drawn + [c], p))
  }

  /** The product of `from`, ..., `from + count - 1`. */
  function Rising(from: nat, count: nat): nat
    decreases count
  {
    if count == 0 then 1 else from * Rising(from + 1, count - 1)
  }

  lemma {:induction false} RisingShift(from: nat, count: nat)
    ensures Rising(from, count) * (from + count) == from * Rising(from + 1, count)
    decreases count
  {
    if count > 0 {
      RisingShift(from + 1, count - 1);
      Regroup(from, Rising(from + 1, count - 1), from + count, (from + 1) * Rising(from + 2, count - 1));
    }
  }

  lemma RisingSnoc(size: nat, from: nat, count: nat)
    ensures (from + count) * (size * Rising(from, count)) == size * Rising(from, count + 1)
  {
    RisingShift(from, count);
    Scale(from + count, Rising(from, count), size, 1, Rising(from, count + 1));
  }

  lemma Regroup(a: nat, b: nat, c: nat, d: nat)
    requires b * c == d
    ensures (a * b) * c == a * d
  {
    assert (a * b) * c == a * (b * c);
  }

  lemma {:induction false} SumConstant(n: nat, f: nat -> nat, v: nat)
    requires forall c :: 0 <= c < n ==> f(c) == v
    ensures SumTo(n, f) == n * v
  {
    if n > 0 {
      SumConstant(n - 1, f, v);
      assert (n - 1) * v + v == n * v;
    }
  }

  /** All terms equal but for one that is 0. */
  lemma {:induction false} SumButOne(n: nat, f: nat -> nat, v: nat, out: nat)
    requires out < n && f(out) == 0
    requires forall c :: 0 <= c < n && c != out ==> f(c) == v
    ensures SumTo(n, f) == (n - 1) * v
  {
    if out == n - 1 {
      SumConstant(n - 1, f, v);
    } else {
      SumButOne(n - 1, f, v, out);
      assert (n - 2) * v + v == (n - 1) * v;
    }
  }

  /** The first `m` terms equal, the others 0. */
  lemma {:induction false} SumFirst(n: nat, f: nat -> nat, v: nat, m: nat)
    requires m <= n
    requires forall c :: 0 <= c < n ==> f(c) == if c < m then v else 0
    ensures SumTo(n, f) == m * v
  {
    if m == n {
      SumConstant(n, f, v);
    } else {
      SumFirst(n - 1, f, v, m);
    }
  }

  lemma {:induction false} AllDraws(size: nat, n: nat, drawn: seq<nat>)
    requires |drawn| <= n
    ensures Draws(size, n, drawn, _ => true) == Rising(size + |drawn| + 1, n - |drawn|)
    decreases n - |drawn|
  {
    if |drawn| < n {
      var f := c => Draws(size, n, drawn + [c], _ => true);
      forall c: nat ensures f(c) == Rising(size + |drawn| + 2, n - |drawn| - 1) {
        AllDraws(size, n, drawn + [c]);
      }
      SumConstant(size + |drawn| + 1, f, Rising(size + |drawn| + 2, n - |drawn| - 1));
    }
  }

  /** The outcome keeps the item at position `i`. */
  function Keeping(size: nat, i: nat): seq<nat> -> bool {
    drawn => i in Slots(size, drawn)
  }

  /** An item that has been dropped does not come back. */
  lemma {:induction false} DroppedStaysOut(size: nat, n: nat, drawn: seq<nat>, i: nat)
    requires |drawn| <= n && i < size + |drawn| && i !in Slots(size, drawn)
    ensures Draws(size, n, drawn, Keeping(size, i)) == 0
    decreases n - |drawn|
  {
    if |drawn| < n {
      var f := c => Draws(size, n, drawn + [c], Keeping(size, i));
      forall c: nat ensures f(c) == 0 {
        SlotsSnoc(size, drawn, c);
        DroppedStaysOut(size, n, drawn + [c], i);
      }
      SumConstant(size + |drawn| + 1, f, 0);
    }
  }

  lemma StaysUnlessDrawn(size: nat, drawn: seq<nat>, out: nat, c: nat)
    requires out < size && c != out
    ensures Slots(size, drawn)[out] in Slots(size, drawn + [c])
  {
    SlotsSnoc(size, drawn, c);
    assert Slots(size, drawn + [c])[out] == Slots(size, drawn)[out];
  }

  lemma GoesWhenDrawn(size: nat, drawn: seq<nat>, out: nat)
    requires out < size
    ensures Slots(size, drawn)[out] !in Slots(size, drawn + [out]) && Slots(size, drawn)[out] < size + |drawn|
  {
    SlotsSnoc(size, drawn, out);
    SlotsDistinct(size, drawn);
  }

  /** Of the next indices exactly one drops a kept item. */
  lemma {:induction false} KeptSurvives(size: nat, n: nat, drawn: seq<nat>, i: nat)
    requires |drawn| <= n && i in Slots(size, drawn)
    ensures Draws(size, n, drawn, Keeping(size, i)) == Rising(size + |drawn|, n - |drawn|)
    decreases n - |drawn|
  {
    if |drawn| < n {
      var f := c => Draws(size, n, drawn + [c], Keeping(size, i));
      var out :| 0 <= out < size && Slots(size, drawn)[out] == i;
      var v := Rising(size + |drawn| + 1, n - |drawn| - 1);
      forall c: nat | c != out ensures f(c) == v {
        StaysUnlessDrawn(size, drawn, out, c);
        KeptSurvives(size, n, drawn + [c], i);
      }
      GoesWhenDrawn(size, drawn, out);
      DroppedStaysOut(size, n, drawn + [out], i);
      SumButOne(size + |drawn| + 1, f, v, out);
    }
  }

  lemma Less(a: nat, b: nat, c: nat)
    requires a > 0
    ensures b < c ==> a * b < a * c
  {
    if b < c {
      assert a * (c - b) == a * c - a * b;
    }
  }

  lemma Cancel(a: nat, b: nat, c: nat)
    requires a > 0 && a * b == a * c
    ensures b == c
  {
    Less(a, b, c);
    Less(a, c, b);
  }

  lemma Scale(a: nat, b: nat, c: nat, size: nat, r: nat)
    requires a * b == size * r
    ensures a * (c * b) == size * (c * r)
  {
    assert a * (c * b) == c * (a * b) == c * (size * r) == size * (c * r);
  }

  /** The item that comes next is kept by the draws below `size`. */
  lemma NextIsFair(size: nat, n: nat, drawn: seq<nat>)
    requires |drawn| < n
    ensures (size + n) * Draws(size, n, drawn, Keeping(size, size + |drawn|)) == size * Rising(size + |drawn| + 1, n - |drawn|)
  {
    var i := size + |drawn|;
    var f := c => Draws(size, n, drawn + [c], Keeping(size, i));
    var v := Rising(i + 1, n - |drawn| - 1);
    forall c: nat ensures f(c) == if c < size then v else 0 {
      SlotsSnoc(size, drawn, c);
      if c < size {
        assert Slots(size, drawn + [c])[c] == i;
        KeptSurvives(size, n, drawn + [c], i);
      } else {
        DroppedStaysOut(size, n, drawn + [c], i);
      }
    }
    SumFirst(i + 1, f, v, size);
    RisingSnoc(size, i + 1, n - |drawn| - 1);
  }

  /** An item yet to come. */
  lemma {:induction false} ComingIsFair(size: nat, n: nat, drawn: seq<nat>, i: nat)
    requires |drawn| <= n && size + |drawn| <= i < size + n
    ensures (size + n) * Draws(size, n, drawn, Keeping(size, i)) == size * Rising(size + |drawn| + 1, n - |drawn|)
    decreases n - |drawn|
  {
    if i == size + |drawn| {
      NextIsFair(size, n, drawn);
    } else {
      var f := c => Draws(size, n, drawn + [c], Keeping(size, i));
      var v, r := f(0), Rising(size + |drawn| + 2, n - |drawn| - 1);
      forall c: nat ensures (size + n) * f(c) == size * r {
        ComingIsFair(size, n, drawn + [c], i);
      }
      forall c: nat ensures f(c) == v {
        Cancel(size + n, f(c), v);
      }
      SumConstant(size + |drawn| + 1, f, v);
      Scale(size + n, v, size + |drawn| + 1, size, r);
    }
  }

  /** After n items every one of them is kept by exactly size / n of all the
      ways to draw the indices. */
  lemma EachItemIsFair(size: nat, n: nat, i: nat)
    requires 1 <= size <= n && i < n
    ensures n * Draws(size, n - size, [], Keeping(size, i)) == size * Draws(size, n - size, [], _ => true)
  {
    AllDraws(size, n - size, []);
    if i < size {
      FirstIsFair(size, n - size, i);
    } else {
      ComingIsFair(size, n - size, [], i);
    }
  }

  lemma FirstIsFair(size: nat, n: nat, i: nat)
    requires i < size
    ensures (size + n) * Draws(size, n, [], Keeping(size, i)) == size * Rising(size + 1, n)
  {
    assert Slots(size, [])[i] == i;
    KeptSurvives(size, n, [], i);
    RisingShift(size, n);
  }
}
