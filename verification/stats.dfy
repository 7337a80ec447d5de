/**
 * The integer statistics of `src/components/StatsPanel.tsx`: how many
 * numbers there are, how many distinct ones, the highest count, and the
 * bins that reach it (at most five shown, the rest summarised as "+k more").
 * The average is a floating-point value rounded for display and is not
 * part of this model.
 */
module Stats {
  import opened Wrappers
  import opened Histogram

  /** What the panel shows for a non-empty run. */
  datatype Summary = Summary(
    total: nat,
    uniqueNumbers: nat,
    maxCount: Option<int>,     // `None` stands for `Math.max()` of nothing, which is -Infinity
    mostFrequent: seq<Bin>,
    shown: seq<Bin>,
    more: Option<nat>)         // the "+k more" badge, when there is one

  /** The most-frequent entries shown at most. */
  const ShownMax: nat := 5

  /** The bins with a positive count, in table order. */
  function NonZero(h: Histogram): (r: Histogram)
    ensures |r| <= |h|
    ensures forall i :: 0 <= i < |r| ==> r[i].count > 0
    ensures forall b :: b in r <==> b in h && b.count > 0
  {
    if |h| == 0 then []
    else if h[0].count > 0 then [h[0]] + NonZero(h[1..])
    else NonZero(h[1..])
  }

  /** The bins whose count is `c`, in table order. */
  function WithCount(h: Histogram, c: int): (r: Histogram)
    ensures |r| <= |h|
    ensures forall b :: b in r <==> b in h && b.count == c
  {
    if |h| == 0 then []
    else if h[0].count == c then [h[0]] + WithCount(h[1..], c)
    else WithCount(h[1..], c)
  }

  /** Filtering by count keeps every kept bin as often as the table holds it. */
  lemma {:induction false} WithCountMultiplicity(h: Histogram, c: int)
    ensures forall b :: multiset(WithCount(h, c))[b] == if b.count == c then multiset(h)[b] else 0
  {
    if |h| > 0 {
      WithCountMultiplicity(h[1..], c);
      assert h == [h[0]] + h[1..];
    }
  }

  /** `Math.max` of the counts: `None` for no bins, else the largest count. */
  function MaxCount(h: Histogram): (m: Option<int>)
    ensures m.None? <==> |h| == 0
    ensures m.Some? ==> (exists b :: b in h && b.count == m.value)
    ensures m.Some? ==> forall b :: b in h ==> b.count <= m.value
  {
    if |h| == 0 then None
    else
      var rest := MaxCount(h[1..]);
      assert forall b :: b in h[1..] ==> b in h;
      if rest.None? || h[0].count >= rest.value then Some(h[0].count) else rest
  }

  /** How many of `n` most-frequent bins are shown. */
  function ShownCount(n: nat): (k: nat)
    ensures k <= n && k <= ShownMax
    ensures k == n || k == ShownMax
  {
    if n < ShownMax then n else ShownMax
  }

  /**
   * The panel for a non-empty run of `total` numbers whose table has the
   * positive bins `nonZero`.
   */
  function Panel(total: nat, nonZero: Histogram): (p: Summary)
    ensures p.total == total && p.uniqueNumbers == |nonZero|
    ensures p.maxCount == MaxCount(nonZero)
    ensures forall b :: b in p.mostFrequent <==> b in nonZero && p.maxCount.Some? && b.count == p.maxCount.value
    ensures p.shown == p.mostFrequent[..ShownCount(|p.mostFrequent|)]
    ensures p.more == if |p.mostFrequent| > ShownMax then Some(|p.mostFrequent| - ShownMax) else None
  {
    var maxCount := MaxCount(nonZero);
    var mostFrequent := if maxCount.None? then [] else WithCount(nonZero, maxCount.value);
    Summary(total, |nonZero|, maxCount, mostFrequent, mostFrequent[..ShownCount(|mostFrequent|)],
            if |mostFrequent| > ShownMax then Some(|mostFrequent| - ShownMax) else None)
  }

  /** The most-frequent bins of a panel are the positive bins with the highest count. */
  lemma PanelMostFrequent(total: nat, nonZero: Histogram)
    requires MaxCount(nonZero).Some?
    ensures Panel(total, nonZero).mostFrequent == WithCount(nonZero, MaxCount(nonZero).value)
  {
  }

  /**
   * The panel for `rawNumbers` and its table: nothing for an empty run;
   * otherwise the counts, the most frequent bins, the first five of them
   * shown and the number of the others.
   */
  function Summarize(rawNumbers: seq<int>, h: Histogram): (s: Option<Summary>)
    ensures s.None? <==> |rawNumbers| == 0
    ensures s.Some? ==> s.value.total == |rawNumbers|
    ensures s.Some? ==> s.value.uniqueNumbers == |NonZero(h)| <= |h|
    ensures s.Some? ==> s.value.maxCount == MaxCount(NonZero(h))
    ensures s.Some? ==> forall b :: b in s.value.mostFrequent <==>
      b in h && b.count > 0 && s.value.maxCount.Some? && b.count == s.value.maxCount.value
    ensures s.Some? ==> s.value.shown == s.value.mostFrequent[..ShownCount(|s.value.mostFrequent|)]
    ensures s.Some? ==>
      s.value.more == if |s.value.mostFrequent| > ShownMax then Some(|s.value.mostFrequent| - ShownMax) else None
  {
    if |rawNumbers| == 0 then None else Some(Panel(|rawNumbers|, NonZero(h)))
  }

  // ---------------------------------------------------------------------
  // The statistics of a run's table

  /** The labels of some bins, in order. */
  function Labels(h: Histogram): (ls: seq<int>)
    ensures |ls| == |h|
    ensures forall i :: 0 <= i < |h| ==> ls[i] == h[i].number
  {
    if |h| == 0 then [] else [h[0].number] + Labels(h[1..])
  }

  predicate Increasing(s: seq<int>) {
    forall i, j :: 0 <= i < j < |s| ==> s[i] < s[j]
  }

  /** A strictly increasing sequence has as many distinct elements as entries. */
  lemma {:induction false} IncreasingCard(s: seq<int>)
    requires Increasing(s)
    ensures |set x | x in s| == |s|
    decreases |s|
  {
    if |s| > 0 {
      IncreasingCard(s[1..]);
      var rest := set x | x in s[1..];
      assert (set x | x in s) == {s[0]} + rest;
      forall x | x in rest ensures x != s[0] {
        var k :| 0 <= k < |s[1..]| && s[1..][k] == x;
        assert s[k + 1] == x;
      }
    }
  }

  /** Keeping some bins keeps every label above a bound the table's labels are above. */
  lemma NonZeroAbove(h: Histogram, x: int)
    requires forall i :: 0 <= i < |h| ==> h[i].number > x
    ensures forall i :: 0 <= i < |NonZero(h)| ==> NonZero(h)[i].number > x
  {
    var r := NonZero(h);
    forall i | 0 <= i < |r| ensures r[i].number > x {
      assert r[i] in h;
    }
  }

  /** Keeping some bins keeps the labels increasing. */
  lemma {:induction false} NonZeroIncreasing(h: Histogram)
    requires Increasing(Labels(h))
    ensures Increasing(Labels(NonZero(h)))
    decreases |h|
  {
    if |h| > 0 {
      var t := h[1..];
      assert Labels(t) == Labels(h)[1..];
      NonZeroIncreasing(t);
      if h[0].count > 0 {
        var r := NonZero(t);
        assert forall i :: 0 <= i < |t| ==> t[i].number == Labels(h)[i + 1];
        NonZeroAbove(t, h[0].number);
        assert Labels([h[0]] + r) == [h[0].number] + Labels(r);
        IncreasingCons(h[0].number, Labels(r));
      }
    }
  }

  /** Keeping the bins of one count keeps every label above a bound the table's labels are above. */
  lemma WithCountAbove(h: Histogram, c: int, x: int)
    requires forall i :: 0 <= i < |h| ==> h[i].number > x
    ensures forall i :: 0 <= i < |WithCount(h, c)| ==> WithCount(h, c)[i].number > x
  {
    var r := WithCount(h, c);
    forall i | 0 <= i < |r| ensures r[i].number > x {
      assert r[i] in h;
    }
  }

  /** Keeping the bins of one count keeps the labels increasing, so it keeps table order and no bin twice. */
  lemma {:induction false} WithCountIncreasing(h: Histogram, c: int)
    requires Increasing(Labels(h))
    ensures Increasing(Labels(WithCount(h, c)))
    decreases |h|
  {
    if |h| > 0 {
      var t := h[1..];
      assert Labels(t) == Labels(h)[1..];
      WithCountIncreasing(t, c);
      if h[0].count == c {
        var r := WithCount(t, c);
        assert forall i :: 0 <= i < |t| ==> t[i].number == Labels(h)[i + 1];
        WithCountAbove(t, c, h[0].number);
        assert Labels([h[0]] + r) == [h[0].number] + Labels(r);
        IncreasingCons(h[0].number, Labels(r));
      }
    }
  }

  /** A value below every entry of an increasing sequence can go in front of it. */
  lemma IncreasingCons(x: int, s: seq<int>)
    requires Increasing(s) && forall k :: 0 <= k < |s| ==> x < s[k]
    ensures Increasing([x] + s)
  {
    var xs := [x] + s;
    forall i, j | 0 <= i < j < |xs| ensures xs[i] < xs[j] {
      assert xs[j] == s[j - 1];
      if i > 0 {
        assert xs[i] == s[i - 1];
      }
    }
  }

  lemma LabelledIncreasing(h: Histogram)
    requires Labelled(h)
    ensures Increasing(Labels(h))
  {
  }

  /** Every label of a positive bin of a run's table is a value the run received. */
  lemma NonZeroLabelsReceived(vs: seq<int>, x: int)
    requires x in Labels(NonZero(Tally(vs)))
    ensures x in vs && InRange(x)
  {
    var h := Tally(vs);
    TallyCounts(vs);
    var r := NonZero(h);
    var i :| 0 <= i < |r| && Labels(r)[i] == x;
    assert r[i] in h;
    var k :| 0 <= k < |h| && h[k] == r[i];
    assert x == k + 1 && InRange(x);
    assert h[x - 1] == h[k];
    assert multiset(vs)[x] > 0;
  }

  /** Every in-range value a run received labels a positive bin of its table. */
  lemma ReceivedNonZeroLabel(vs: seq<int>, v: int)
    requires v in vs && InRange(v)
    ensures v in Labels(NonZero(Tally(vs)))
  {
    var h := Tally(vs);
    TallyCounts(vs);
    var r := NonZero(h);
    assert h[v - 1].count == multiset(vs)[v] > 0;
    assert h[v - 1] in r;
    var i :| 0 <= i < |r| && r[i] == h[v - 1];
    assert Labels(r)[i] == v;
  }

  /** Labels of a table's bins with positive count are exactly the values `vs` holds in 1..100. */
  lemma NonZeroLabelsOfTally(vs: seq<int>)
    ensures (set x | x in Labels(NonZero(Tally(vs)))) == (set v | v in vs && InRange(v))
  {
    forall x | x in Labels(NonZero(Tally(vs))) ensures x in vs && InRange(x) {
      NonZeroLabelsReceived(vs, x);
    }
    forall v | v in vs && InRange(v) ensures v in Labels(NonZero(Tally(vs))) {
      ReceivedNonZeroLabel(vs, v);
    }
  }

  /**
   * For the table of a run, the number of distinct values shown is the
   * number of distinct in-range values received.
   */
  lemma UniqueIsDistinctValues(vs: seq<int>)
    ensures |NonZero(Tally(vs))| == |set v | v in vs && InRange(v)|
  {
    TallyCounts(vs);
    LabelledIncreasing(Tally(vs));
    NonZeroIncreasing(Tally(vs));
    IncreasingCard(Labels(NonZero(Tally(vs))));
    NonZeroLabelsOfTally(vs);
  }

  /** A run's table has bin v-1 for each value v in 1..100, counting how often v was received. */
  lemma TallyBin(vs: seq<int>, b: Bin)
    requires b in Tally(vs)
    ensures |Tally(vs)| == Bins && InRange(b.number)
    ensures b == Tally(vs)[b.number - 1] && b.count == multiset(vs)[b.number]
  {
    var h := Tally(vs);
    TallyCounts(vs);
    var k :| 0 <= k < |h| && h[k] == b;
    assert InRange(k + 1) && h[(k + 1) - 1] == h[k];
  }

  /**
   * For a non-empty run of in-range values, the highest count is how often
   * the most common value was received: no value was received more often,
   * some value exactly that often, and it is at most the run length.
   */
  lemma MaxCountOfTally(vs: seq<int>)
    requires |vs| > 0 && forall i :: 0 <= i < |vs| ==> InRange(vs[i])
    ensures var m := MaxCount(NonZero(Tally(vs)));
      m.Some? && 0 < m.value <= |vs| &&
      (forall v :: v in vs ==> multiset(vs)[v] <= m.value) &&
      (exists v :: v in vs && multiset(vs)[v] == m.value)
  {
    var h := Tally(vs);
    TallyCounts(vs);
    var nz := NonZero(h);
    assert InRange(vs[0]);
    assert h[vs[0] - 1].count == multiset(vs)[vs[0]] > 0;
    assert h[vs[0] - 1] in nz;
    var m := MaxCount(nz).value;
    var b0 :| b0 in nz && b0.count == m;
    TallyBin(vs, b0);
    assert m == multiset(vs)[b0.number] <= |multiset(vs)|;
    forall v | v in vs ensures multiset(vs)[v] <= m {
      assert h[v - 1] in nz;
    }
  }

  /** The bins of a run's table with count `m > 0` are exactly the values received `m` times. */
  lemma WithCountOfTally(vs: seq<int>, m: int)
    requires m > 0 && forall i :: 0 <= i < |vs| ==> InRange(vs[i])
    ensures forall b: Bin :: b in WithCount(NonZero(Tally(vs)), m) <==>
      b.number in vs && b.count == multiset(vs)[b.number] == m
  {
    var h := Tally(vs);
    TallyCounts(vs);
    forall b: Bin | b in WithCount(NonZero(h), m)
      ensures b.number in vs && b.count == multiset(vs)[b.number]
    {
      TallyBin(vs, b);
    }
    forall b: Bin | b.number in vs && b.count == multiset(vs)[b.number] == m
      ensures b in WithCount(NonZero(h), m)
    {
      assert InRange(b.number) by {
        var i :| 0 <= i < |vs| && vs[i] == b.number;
      }
      assert h[b.number - 1] == b;
    }
  }

  /**
   * For the table of a run of in-range values: the highest count is at
   * most the run length and no value was received more often; the
   * most-frequent list is non-empty and holds exactly the values received
   * that often.
   */
  lemma MostFrequentOfTally(vs: seq<int>)
    requires |vs| > 0 && forall i :: 0 <= i < |vs| ==> InRange(vs[i])
    ensures var s := Summarize(vs, Tally(vs)).value;
      s.maxCount.Some? && s.maxCount.value <= |vs| &&
      (forall v :: v in vs ==> multiset(vs)[v] <= s.maxCount.value) &&
      |s.mostFrequent| > 0 &&
      (forall b: Bin :: b in s.mostFrequent <==>
         b.number in vs && b.count == multiset(vs)[b.number] == s.maxCount.value)
  {
    MaxCountOfTally(vs);
    var m := MaxCount(NonZero(Tally(vs))).value;
    WithCountOfTally(vs, m);
    var v :| v in vs && multiset(vs)[v] == m;
    TallyCounts(vs);
    assert Tally(vs)[v - 1] in WithCount(NonZero(Tally(vs)), m);
  }

  /** The bins of a run's table with one count are in value order. */
  lemma {:induction false} WithCountOfTallyIncreasing(vs: seq<int>, m: int)
    ensures Increasing(Labels(WithCount(NonZero(Tally(vs)), m)))
  {
    TallyCounts(vs);
    LabelledIncreasing(Tally(vs));
    NonZeroIncreasing(Tally(vs));
    WithCountIncreasing(NonZero(Tally(vs)), m);
  }

  /** The labels of the bins of a run's table with count `m > 0` are the values received `m` times. */
  lemma {:induction false} WithCountOfTallyLabels(vs: seq<int>, m: int)
    requires m > 0 && forall i :: 0 <= i < |vs| ==> InRange(vs[i])
    ensures (set x | x in Labels(WithCount(NonZero(Tally(vs)), m))) == (set v | v in vs && multiset(vs)[v] == m)
  {
    var r := WithCount(NonZero(Tally(vs)), m);
    var ls := Labels(r);
    WithCountOfTally(vs, m);
    forall x | x in ls ensures x in vs && multiset(vs)[x] == m {
      var i :| 0 <= i < |ls| && ls[i] == x;
      assert r[i] in r;
    }
    forall v | v in vs && multiset(vs)[v] == m ensures v in ls {
      assert Bin(v, m) in r;
      var i :| 0 <= i < |r| && r[i] == Bin(v, m);
      assert ls[i] == v;
    }
  }

  /** The bins of a run's table with count `m > 0` are in value order, one per value received `m` times. */
  lemma {:induction false} WithCountOfTallyInOrder(vs: seq<int>, m: int)
    requires m > 0 && forall i :: 0 <= i < |vs| ==> InRange(vs[i])
    ensures Increasing(Labels(WithCount(NonZero(Tally(vs)), m)))
    ensures |WithCount(NonZero(Tally(vs)), m)| == |set v | v in vs && multiset(vs)[v] == m|
  {
    var r := WithCount(NonZero(Tally(vs)), m);
    WithCountOfTallyIncreasing(vs, m);
    WithCountOfTallyLabels(vs, m);
    IncreasingCard(Labels(r));
  }

  /** In a list of increasing labels, the first `k` entries are below all the others. */
  lemma {:induction false} PrefixBelow(r: Histogram, k: nat)
    requires Increasing(Labels(r)) && k <= |r|
    ensures forall i, j :: 0 <= i < k <= j < |r| ==> r[i].number < r[j].number
  {
    var ls := Labels(r);
    forall i, j | 0 <= i < k <= j < |r| ensures r[i].number < r[j].number {
      assert ls[i] < ls[j];
    }
  }

  /**
   * The most-frequent list of a run is in increasing order of value, one
   * bin per value received as often as the highest count, so the "+k more"
   * badge counts the values that reach it beyond the first five.
   */
  lemma {:induction false} MostFrequentInOrder(vs: seq<int>)
    requires |vs| > 0 && forall i :: 0 <= i < |vs| ==> InRange(vs[i])
    ensures var s := Summarize(vs, Tally(vs)).value;
      s.maxCount.Some? &&
      Increasing(Labels(s.mostFrequent)) &&
      |s.mostFrequent| == |set v | v in vs && multiset(vs)[v] == s.maxCount.value|
  {
    var nz := NonZero(Tally(vs));
    MaxCountPositive(vs);
    SummarizeIsPanel(vs, Tally(vs));
    PanelMostFrequent(|vs|, nz);
    WithCountOfTallyInOrder(vs, MaxCount(nz).value);
  }

  /** The panel shows the smallest of the most frequent values: each shown value is below every hidden one. */
  lemma {:induction false} ShownAreSmallest(vs: seq<int>)
    requires |vs| > 0 && forall i :: 0 <= i < |vs| ==> InRange(vs[i])
    ensures var s := Summarize(vs, Tally(vs)).value;
      forall i, j :: 0 <= i < |s.shown| <= j < |s.mostFrequent| ==> s.shown[i].number < s.mostFrequent[j].number
  {
    var nz := NonZero(Tally(vs));
    var p := Panel(|vs|, nz);
    SummarizeIsPanel(vs, Tally(vs));
    WithCountOfTallyIncreasing(vs, if MaxCount(nz).Some? then MaxCount(nz).value else 0);
    if MaxCount(nz).Some? {
      PanelMostFrequent(|vs|, nz);
    }
    assert Increasing(Labels(p.mostFrequent));
    PrefixBelow(p.mostFrequent, ShownCount(|p.mostFrequent|));
  }

  /** A non-empty run of in-range values has a positive highest count. */
  lemma MaxCountPositive(vs: seq<int>)
    requires |vs| > 0 && forall i :: 0 <= i < |vs| ==> InRange(vs[i])
    ensures MaxCount(NonZero(Tally(vs))).Some? && MaxCount(NonZero(Tally(vs))).value > 0
  {
    MaxCountOfTally(vs);
  }

  /** The panel of a non-empty run is the one its positive bins give. */
  lemma SummarizeIsPanel(rawNumbers: seq<int>, h: Histogram)
    requires |rawNumbers| > 0
    ensures Summarize(rawNumbers, h) == Some(Panel(|rawNumbers|, NonZero(h)))
  {
  }
}
