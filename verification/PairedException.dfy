/**
 * The one way in which a passing row scores above 1: a paired probe whose medians are equal
 * while most of its pairs are slower, under a built-in policy.
 */
module PairedException {
  import opened Basics
  import opened Statistics
  import opened Gate
  import opened GateLaws
  import opened Policies
  import opened Rollup

  function Deltas(head: seq<real>, base: seq<real>): seq<real>
    requires |head| == |base|
  {
    seq(|head|, i requires 0 <= i < |head| => head[i] - base[i])
  }

  /** The observation that a run writes for its pairs, in seconds. */
  function PairedItem(head: seq<real>, base: seq<real>, policy: Policy): Item
    requires |head| == |base| > 0
  {
    var deltas := Deltas(head, base);
    ShiftLaws(head, 0.0);
    Item(Median(head).value, Some(|head|), Some(|head|), Median(base), Median(deltas), Percentile(deltas, 0.25),
         Percentile(deltas, 0.75), Mad(deltas), deltas, WallClock, policy)
  }

  lemma {:induction false} SortIs(s: seq<real>, t: seq<real>)
    requires Ascending(t) && multiset(s) == multiset(t)
    ensures Sort(s) == t
  {
    SortSorts(s);
    AscendingIsUnique(Sort(s), t);
  }

  lemma {:induction false} MiddleOfFive(s: seq<real>, a: real, b: real, c: real, d: real, e: real)
    requires a <= b <= c <= d <= e && multiset(s) == multiset([a, b, c, d, e])
    ensures Median(s) == Some(c) && Percentile(s, 0.25) == Some(b) && Percentile(s, 0.75) == Some(d)
  {
    hide Sort, Ascending, Median, Percentile, Rank;
    FiveAscend(a, b, c, d, e);
    SortIs(s, [a, b, c, d, e]);
    FiveRanks();
    ReadSorted(s, [a, b, c, d, e]);
  }

  lemma ReadSorted(s: seq<real>, t: seq<real>)
    requires Sort(s) == t && |t| == 5 && Rank(0.25, 5) == 1 && Rank(0.75, 5) == 3
    ensures Median(s) == Some(t[2]) && Percentile(s, 0.25) == Some(t[1]) && Percentile(s, 0.75) == Some(t[3])
  {
    hide Sort, Rank;
  }

  lemma FiveRanks()
    ensures Rank(0.25, 5) == 1 && Rank(0.75, 5) == 3
  {
  }

  lemma FiveAscend(a: real, b: real, c: real, d: real, e: real)
    requires a <= b <= c <= d <= e
    ensures Ascending([a, b, c, d, e])
  {
  }

  const HEAD := [11.0, 11.0, 21.0, 21.0, 1.0]
  const BASE := [1.0, 1.0, 11.0, 11.0, 1000.0]

  /** The medians are equal, and four of the five pairs are slower by ten seconds. */
  lemma {:induction false} EqualMedians()
    ensures Median(HEAD) == Some(11.0) == Median(BASE)
    ensures var d := Deltas(HEAD, BASE); Median(d) == Some(10.0) == Percentile(d, 0.25) && Percentile(d, 0.75) == Some(10.0)
  {
    hide Median, Percentile, Deltas;
    HeadRearranged();
    MiddleOfFive(HEAD, 1.0, 11.0, 11.0, 21.0, 21.0);
    MiddleOfFive(BASE, 1.0, 1.0, 11.0, 11.0, 1000.0);
    DeltasRearranged();
    MiddleOfFive(Deltas(HEAD, BASE), -999.0, 10.0, 10.0, 10.0, 10.0);
  }

  lemma {:induction false} HeadRearranged()
    ensures multiset(HEAD) == multiset([1.0, 11.0, 11.0, 21.0, 21.0])
  {
    LastFirst(11.0, 11.0, 21.0, 21.0, 1.0);
  }

  lemma {:induction false} DeltasRearranged()
    ensures multiset(Deltas(HEAD, BASE)) == multiset([-999.0, 10.0, 10.0, 10.0, 10.0])
  {
    assert Deltas(HEAD, BASE) == [10.0, 10.0, 10.0, 10.0, -999.0];
    LastFirst(10.0, 10.0, 10.0, 10.0, -999.0);
  }

  lemma LastFirst(a: real, b: real, c: real, d: real, e: real)
    ensures multiset([a, b, c, d, e]) == multiset([e, a, b, c, d])
  {
    assert [a, b, c, d, e] == [a, b, c, d] + [e] && [e, a, b, c, d] == [e] + [a, b, c, d];
  }

  /** What the gate reads off a single item. */
  lemma {:induction false} StatsOfOne(it: Item)
    requires it.samples.Some? && it.pairedSamples.Some? && it.pairedBaseline.Some? && it.deltaMedian.Some?
    ensures var s := ObservationStats([it]);
            && s.value == it.value && s.samples == it.samples.value && s.pairedSamples == it.pairedSamples.value
            && s.pairedBaseline == it.pairedBaseline && s.deltaMedian == it.deltaMedian && s.deltaSamples == it.deltaSamples
  {
    var items := [it];
    assert Values(items) == [it.value];
    MedianOfOne(it.value);
    SumOfOne(Map((i: Item) => if i.samples.Some? then i.samples.value else 1, items), it.samples.value);
    SumOfOne(Map((i: Item) => if i.pairedSamples.Some? then i.pairedSamples.value else 0, items), it.pairedSamples.value);
    MedianOfPresent(Map((i: Item) => i.pairedBaseline, items), it.pairedBaseline.value);
    MedianOfPresent(Map((i: Item) => i.deltaMedian, items), it.deltaMedian.value);
    var samples := Map((i: Item) => i.deltaSamples, items);
    assert samples == [it.deltaSamples] && samples[1..] == [];
    assert Concat(samples) == it.deltaSamples;
  }

  lemma SumOfOne(s: seq<nat>, n: nat)
    requires s == [n]
    ensures Sum(s) == n
  {
  }

  lemma MedianOfPresent(s: seq<Option<real>>, x: real)
    requires s == [Some(x)]
    ensures Median(Present(s)) == Some(x)
  {
    assert s[1..] == [];
    assert Present(s) == [x];
    MedianOfOne(x);
  }

  /** Under the built-in policy of a probe this row is gateable and passes, with an impact of more than nine warn budgets. */
  lemma {:induction false} PassWithHighImpact()
    ensures var row := CompareKey([PairedItem(HEAD, BASE, ObservationPolicy(OtherMetric, true, DevenvPreset(OtherProbe)))], []);
            row.gateable && row.status == Pass && row.impact.Some? && row.impact.value > 9.0
  {
    hide Median, Percentile, ObservationStats, Deltas;
    var policy := ObservationPolicy(OtherMetric, true, DevenvPreset(OtherProbe));
    EqualMedians();
    var it := PairedItem(HEAD, BASE, policy);
    StatsOfOne(it);
    var current := ObservationStats([it]);
    HighImpact(policy, current, EffectiveBaseline(policy, current, None).value);
  }

  lemma {:induction false} HighImpact(policy: Policy, current: Stats, baseline: Stats)
    requires policy == ObservationPolicy(OtherMetric, true, DevenvPreset(OtherProbe))
    requires current.value == baseline.value == 11.0 && current.samples == current.pairedSamples == 5
    requires current.deltaMedian == Some(10.0) && current.deltaSamples == Deltas(HEAD, BASE)
    requires Percentile(Deltas(HEAD, BASE), 0.25) == Some(10.0) && Percentile(Deltas(HEAD, BASE), 0.75) == Some(10.0)
    ensures var c := Comparison(WallClock, policy, current, baseline);
            c.Gateable() && c.StatusOf() == Pass && c.Impact().Some? && c.Impact().value > 9.0
  {
    assert |Deltas(HEAD, BASE)| == 5;
    hide Median, Percentile, Deltas;
    var c := Comparison(WallClock, policy, current, baseline);
    assert c.WarnBudget() == 11.0 * (1.1 - 1.0);
    DivideBoth(9.0 * c.WarnBudget(), 10.0, c.WarnBudget());
  }
}
