/**
 * The fixed-domain frequency table of `src/lib/histogram.ts`: one bin per
 * integer 1..100, updated immutably one value at a time.
 */
module Histogram {

  /** One bin of the table: the integer it counts (the source's `label`) and how often it was seen. */
  datatype Bin = Bin(number: int, count: int)

  type Histogram = seq<Bin>

  /** Number of bins, and hence the largest label. */
  const Bins: nat := 100

  predicate InRange(n: int) {
    1 <= n <= Bins
  }

  /** The table a run starts from: bins labelled 1..100, all empty. */
  function Initial(): (h: Histogram)
    ensures |h| == Bins
    ensures forall i :: 0 <= i < |h| ==> h[i].number == i + 1 && h[i].count == 0
  {
    seq(Bins, i => Bin(i + 1, 0))
  }

  /** Labels of `h` are 1, 2, ..., |h| in order. */
  predicate Labelled(h: Histogram) {
    forall i :: 0 <= i < |h| ==> h[i].number == i + 1
  }

  predicate SameLabels(h: Histogram, h': Histogram) {
    |h| == |h'| && forall i :: 0 <= i < |h| ==> h[i].number == h'[i].number
  }

  /**
   * Count one occurrence of `n`. Out-of-range values return the input itself;
   * in range, a new table in which only the bin at index n-1 has gained one.
   * An index past the end of a short table matches no bin, as with `Array.map`.
   */
  function Increment(h: Histogram, n: int): (r: Histogram)
    ensures !InRange(n) ==> r == h
    ensures SameLabels(h, r)
    ensures forall i :: 0 <= i < |h| ==>
      r[i].count == h[i].count + (if InRange(n) && i == n - 1 then 1 else 0)
  {
    if !InRange(n) then h
    else seq(|h|, i requires 0 <= i < |h| => if i == n - 1 then h[i].(count := h[i].count + 1) else h[i])
  }

  /** Every count set back to zero, labels and length kept. */
  function Reset(h: Histogram): (r: Histogram)
    ensures SameLabels(h, r)
    ensures forall i :: 0 <= i < |r| ==> r[i].count == 0
  {
    seq(|h|, i requires 0 <= i < |h| => h[i].(count := 0))
  }

  /** Sum of all counts. */
  function Total(h: Histogram): int {
    if |h| == 0 then 0 else Total(h[..|h| - 1]) + h[|h| - 1].count
  }

  /** Left fold of `Increment` over `vs`, in order. */
  function IncrementAll(h: Histogram, vs: seq<int>): Histogram
    decreases |vs|
  {
    if |vs| == 0 then h else IncrementAll(Increment(h, vs[0]), vs[1..])
  }

  /** The table after counting `vs` from a fresh start. */
  function Tally(vs: seq<int>): Histogram {
    IncrementAll(Initial(), vs)
  }

  /** How many of `vs` the table accepts. */
  function CountInRange(vs: seq<int>): nat {
    if |vs| == 0 then 0 else (if InRange(vs[0]) then 1 else 0) + CountInRange(vs[1..])
  }

  // ---------------------------------------------------------------------
  // Sums

  /** A table of empty bins totals zero. */
  lemma {:induction false} TotalOfZeros(h: Histogram)
    requires forall i :: 0 <= i < |h| ==> h[i].count == 0
    ensures Total(h) == 0
  {
    if |h| > 0 {
      TotalOfZeros(h[..|h| - 1]);
    }
  }

  /** Raising one bin by one raises the total by one. */
  lemma {:induction false} TotalBump(h: Histogram, r: Histogram, k: int)
    requires |h| == |r| && 0 <= k < |h|
    requires forall i :: 0 <= i < |h| ==> r[i].count == h[i].count + (if i == k then 1 else 0)
    ensures Total(r) == Total(h) + 1
    decreases |h|
  {
    var n := |h| - 1;
    if k == n {
      TotalSameCounts(h[..n], r[..n]);
    } else {
      TotalBump(h[..n], r[..n], k);
    }
  }

  /** Tables with the same counts have the same total. */
  lemma {:induction false} TotalSameCounts(h: Histogram, r: Histogram)
    requires |h| == |r|
    requires forall i :: 0 <= i < |h| ==> r[i].count == h[i].count
    ensures Total(r) == Total(h)
    decreases |h|
  {
    if |h| > 0 {
      TotalSameCounts(h[..|h| - 1], r[..|r| - 1]);
    }
  }

  // ---------------------------------------------------------------------
  // Properties of the operations

  /** An in-range value adds exactly one to the total (when its bin exists); any other adds nothing. */
  lemma IncrementTotal(h: Histogram, n: int)
    ensures Total(Increment(h, n)) == Total(h) + (if InRange(n) && n - 1 < |h| then 1 else 0)
  {
    var r := Increment(h, n);
    if InRange(n) && n - 1 < |h| {
      TotalBump(h, r, n - 1);
    } else {
      TotalSameCounts(h, r);
    }
  }

  /** Resetting twice is resetting once. */
  lemma ResetIdempotent(h: Histogram)
    ensures Reset(Reset(h)) == Reset(h)
  {
  }

  /** Resetting a table with the standard labels gives the initial table. */
  lemma ResetIsInitial(h: Histogram)
    requires |h| == Bins && Labelled(h)
    ensures Reset(h) == Initial()
    ensures Total(Reset(h)) == 0
  {
    TotalOfZeros(Reset(h));
  }

  /** The fold of `Increment` over a concatenation is the fold over each part in turn. */
  lemma {:induction false} IncrementAllAppend(h: Histogram, vs: seq<int>, v: int)
    ensures IncrementAll(h, vs + [v]) == Increment(IncrementAll(h, vs), v)
    decreases |vs|
  {
    if |vs| > 0 {
      assert (vs + [v])[1..] == vs[1..] + [v];
      IncrementAllAppend(Increment(h, vs[0]), vs[1..], v);
    }
  }

  lemma {:induction false} CountInRangeAppend(vs: seq<int>, v: int)
    ensures CountInRange(vs + [v]) == CountInRange(vs) + (if InRange(v) then 1 else 0)
    decreases |vs|
  {
    if |vs| > 0 {
      assert (vs + [v])[1..] == vs[1..] + [v];
      CountInRangeAppend(vs[1..], v);
    }
  }

  /**
   * Counting `vs` from the initial table: the labels stay 1..100, bin v-1
   * holds the number of occurrences of v in `vs`, and the total is the
   * number of in-range values.
   */
  lemma {:induction false} TallyCounts(vs: seq<int>)
    ensures |Tally(vs)| == Bins && Labelled(Tally(vs))
    ensures forall v :: InRange(v) ==> Tally(vs)[v - 1].count == multiset(vs)[v]
    ensures Total(Tally(vs)) == CountInRange(vs)
    decreases |vs|
  {
    if |vs| == 0 {
      TotalOfZeros(Initial());
    } else {
      var p, x := vs[..|vs| - 1], vs[|vs| - 1];
      assert vs == p + [x];
      TallyCounts(p);
      IncrementAllAppend(Initial(), p, x);
      IncrementTotal(Tally(p), x);
      CountInRangeAppend(p, x);
      assert multiset(vs) == multiset(p) + multiset{x};
    }
  }
}
