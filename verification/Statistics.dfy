/**
 * The order statistics of the measurement gate (jq `median` and `percentile`), over the reals.
 */
module Statistics {
  import opened Basics

  ghost predicate Ascending(s: seq<real>) {
    forall i, j :: 0 <= i < j < |s| ==> s[i] <= s[j]
  }

  function Insert(x: real, s: seq<real>): seq<real> {
    if s == [] || x <= s[0] then [x] + s else [s[0]] + Insert(x, s[1..])
  }

  /** jq's `sort`. */
  function Sort(s: seq<real>): seq<real> {
    if s == [] then [] else Insert(s[0], Sort(s[1..]))
  }

  function Median(s: seq<real>): Option<real> {
    var sorted := Sort(s);
    var count := |sorted|;
    if count == 0 then None
    else if count % 2 == 1 then Some(sorted[count / 2])
    else Some((sorted[count / 2 - 1] + sorted[count / 2]) / 2.0)
  }

  /** The index that `percentile(p)` reads in a sorted list of `count` numbers. */
  function Rank(p: real, count: nat): int {
    (p * (count - 1) as real).Floor
  }

  function Percentile(s: seq<real>, p: real): Option<real>
    requires 0.0 <= p <= 1.0
  {
    if |Sort(s)| == 0 then None
    else
      RankInRange(p, |Sort(s)|);
      Some(Sort(s)[Rank(p, |Sort(s)|)])
  }

  function Abs(x: real): real {
    if x < 0.0 then -x else x
  }

  function Shift(s: seq<real>, c: real): seq<real> {
    seq(|s|, i requires 0 <= i < |s| => s[i] + c)
  }

  /** Distances to a centre. */
  function Deviations(s: seq<real>, centre: real): seq<real> {
    seq(|s|, i requires 0 <= i < |s| => Abs(s[i] - centre))
  }

  /** Median absolute deviation. */
  function Mad(s: seq<real>): Option<real> {
    if s == [] then None else MedianOfSome(s); Median(Deviations(s, Median(s).value))
  }

  // ---------------------------------------------------------------- sorting

  lemma {:induction false} InsertSorts(x: real, s: seq<real>)
    requires Ascending(s)
    ensures Ascending(Insert(x, s))
    ensures multiset(Insert(x, s)) == multiset(s) + multiset{x}
    ensures |Insert(x, s)| == |s| + 1
  {
    if s == [] || x <= s[0] {
      assert [x] + s == Insert(x, s);
    } else {
      InsertSorts(x, s[1..]);
      var t := Insert(x, s[1..]);
      assert s == [s[0]] + s[1..];
      forall j | 0 <= j < |t| ensures s[0] <= t[j] {
        assert t[j] in multiset(t);
        assert t[j] == x || t[j] in s[1..];
      }
    }
  }

  lemma {:induction false} SortSorts(s: seq<real>)
    ensures Ascending(Sort(s)) && multiset(Sort(s)) == multiset(s) && |Sort(s)| == |s|
  {
    if s != [] {
      SortSorts(s[1..]);
      InsertSorts(s[0], Sort(s[1..]));
      assert s == [s[0]] + s[1..];
    }
  }

  function Without<T>(t: seq<T>, k: nat): seq<T>
    requires k < |t|
  {
    t[..k] + t[k + 1..]
  }

  lemma {:induction false} MultisetWithout<T>(t: seq<T>, k: nat)
    requires k < |t|
    ensures multiset(t) == multiset(Without(t, k)) + multiset{t[k]}
  {
    assert t == t[..k] + [t[k]] + t[k + 1..];
  }

  lemma {:induction false} Cancel<T>(a: multiset<T>, b: multiset<T>, x: T)
    requires a + multiset{x} == b + multiset{x}
    ensures a == b
  {
    assert a == (a + multiset{x}) - multiset{x};
    assert b == (b + multiset{x}) - multiset{x};
  }

  /** The first sample of `s` occurs in every rearrangement `t`, and what is left of both are rearrangements too. */
  lemma {:induction false} Partner(s: seq<real>, t: seq<real>) returns (k: nat)
    requires multiset(s) == multiset(t) && s != []
    ensures k < |t| && t[k] == s[0] && multiset(s[1..]) == multiset(Without(t, k)) && |s| == |t|
  {
    assert s[0] in multiset(t);
    k :| 0 <= k < |t| && t[k] == s[0];
    MultisetWithout(t, k);
    MultisetWithout(s, 0);
    assert Without(s, 0) == s[1..];
    Cancel(multiset(s[1..]), multiset(Without(t, k)), s[0]);
    assert |multiset(s)| == |multiset(t)|;
  }

  /** An ascending rearrangement is unique. */
  lemma {:induction false} AscendingIsUnique(s: seq<real>, t: seq<real>)
    requires Ascending(s) && Ascending(t) && multiset(s) == multiset(t)
    ensures s == t
  {
    if s == [] {
      assert |multiset(t)| == 0;
    } else {
      var k := Partner(s, t);
      var k' := Partner(t, s);
      assert s[0] <= s[k'] && t[0] <= t[k];
      TailsMatch(s, t);
      AscendingIsUnique(s[1..], t[1..]);
    }
  }

  lemma {:induction false} TailsMatch(s: seq<real>, t: seq<real>)
    requires multiset(s) == multiset(t) && s != [] && t != [] && s[0] == t[0]
    ensures multiset(s[1..]) == multiset(t[1..])
  {
    MultisetWithout(s, 0);
    MultisetWithout(t, 0);
    assert Without(s, 0) == s[1..] && Without(t, 0) == t[1..];
    Cancel(multiset(s[1..]), multiset(t[1..]), s[0]);
  }

  lemma {:induction false} SortOfPermutation(s: seq<real>, t: seq<real>)
    requires multiset(s) == multiset(t)
    ensures Sort(s) == Sort(t)
  {
    SortSorts(s);
    SortSorts(t);
    AscendingIsUnique(Sort(s), Sort(t));
  }

  lemma {:induction false} InsertShift(x: real, s: seq<real>, c: real)
    ensures Insert(x + c, Shift(s, c)) == Shift(Insert(x, s), c)
  {
    if s == [] || x <= s[0] {
      assert ([x] + s)[1..] == s;
    } else {
      assert Shift(s, c)[1..] == Shift(s[1..], c);
      InsertShift(x, s[1..], c);
    }
  }

  lemma {:induction false} SortShift(s: seq<real>, c: real)
    ensures Sort(Shift(s, c)) == Shift(Sort(s), c)
  {
    if s != [] {
      SortShift(s[1..], c);
      InsertShift(s[0], Sort(s[1..]), c);
      assert Shift(s, c)[1..] == Shift(s[1..], c);
    }
  }

  lemma {:induction false} RankInRange(p: real, count: nat)
    requires 0.0 <= p <= 1.0 && 0 < count
    ensures 0 <= Rank(p, count) <= count - 1
  {
    RanksAscend(0.0, p, count);
    RanksAscend(p, 1.0, count);
  }

  lemma {:induction false} RanksAscend(p: real, q: real, count: nat)
    requires p <= q && 0 < count
    ensures Rank(p, count) <= Rank(q, count)
  {
    var n := (count - 1) as real;
    assert (q - p) * n >= 0.0;
    assert p * n <= q * n;
  }

  // ---------------------------------------------------------------- laws

  lemma {:induction false} MedianOfSome(s: seq<real>)
    ensures Median(s).Some? <==> s != []
  {
    SortSorts(s);
  }

  /** Sample order is irrelevant. */
  lemma {:induction false} OrderIrrelevant(s: seq<real>, t: seq<real>, p: real)
    requires multiset(s) == multiset(t) && 0.0 <= p <= 1.0
    ensures Median(s) == Median(t) && Percentile(s, p) == Percentile(t, p) && Mad(s) == Mad(t)
  {
    hide Sort;
    SortOfPermutation(s, t);
    SortSorts(s);
    SortSorts(t);
    MadOfPermutation(s, t);
  }

  lemma {:induction false} MadOfPermutation(s: seq<real>, t: seq<real>)
    requires multiset(s) == multiset(t)
    ensures Mad(s) == Mad(t)
  {
    hide Sort, Deviations;
    SortOfPermutation(s, t);
    MedianOfSome(s);
    MedianOfSome(t);
    if s != [] {
      var m := Median(s).value;
      DeviationsOfPermutation(s, t, m);
      SortOfPermutation(Deviations(s, m), Deviations(t, m));
    }
  }

  lemma {:induction false} DeviationsOfPermutation(s: seq<real>, t: seq<real>, centre: real)
    requires multiset(s) == multiset(t)
    ensures multiset(Deviations(s, centre)) == multiset(Deviations(t, centre))
  {
    if s == [] {
      assert |multiset(t)| == 0;
      assert t == [];
    } else {
      var k := Partner(s, t);
      DeviationsOfPermutation(s[1..], Without(t, k), centre);
      FirstDeviation(s, centre);
      DeviationsSplit(t, k, centre);
    }
  }

  lemma {:induction false} FirstDeviation(s: seq<real>, centre: real)
    requires s != []
    ensures multiset(Deviations(s, centre)) == multiset(Deviations(s[1..], centre)) + multiset{Abs(s[0] - centre)}
  {
    hide Deviations;
    DeviationsSplit(s, 0, centre);
    assert Without(s, 0) == s[1..];
  }

  lemma {:induction false} DeviationsSplit(t: seq<real>, k: nat, centre: real)
    requires k < |t|
    ensures multiset(Deviations(t, centre)) ==
            multiset(Deviations(Without(t, k), centre)) + multiset{Abs(t[k] - centre)}
  {
    MultisetWithout(Deviations(t, centre), k);
    assert Deviations(Without(t, k), centre) == Without(Deviations(t, centre), k);
  }

  /** Adding a constant to every sample moves the median and the percentiles by it and leaves the MAD alone. */
  lemma {:induction false} ShiftLaws(s: seq<real>, c: real)
    requires s != []
    ensures Median(s).Some? && Median(Shift(s, c)) == Some(Median(s).value + c)
    ensures Mad(Shift(s, c)) == Mad(s)
    ensures forall p :: 0.0 <= p <= 1.0 ==> Percentile(s, p).Some? && Percentile(Shift(s, c), p) == Some(Percentile(s, p).value + c)
  {
    MedianShift(s, c);
    forall p | 0.0 <= p <= 1.0
      ensures Percentile(s, p).Some? && Percentile(Shift(s, c), p) == Some(Percentile(s, p).value + c)
    {
      PercentileShift(s, p, c);
    }
    assert Deviations(Shift(s, c), Median(s).value + c) == Deviations(s, Median(s).value);
  }

  lemma {:induction false} MedianShift(s: seq<real>, c: real)
    requires s != []
    ensures Median(s).Some? && Median(Shift(s, c)) == Some(Median(s).value + c)
  {
    hide Sort;
    SortShift(s, c);
    SortSorts(s);
  }

  lemma {:induction false} PercentileShift(s: seq<real>, p: real, c: real)
    requires s != [] && 0.0 <= p <= 1.0
    ensures Percentile(s, p).Some? && Percentile(Shift(s, c), p) == Some(Percentile(s, p).value + c)
  {
    SortShift(s, c);
    SortSorts(s);
    RankInRange(p, |s|);
  }

  /** Milliseconds to seconds. */
  function Seconds(ms: seq<real>): seq<real> {
    seq(|ms|, i requires 0 <= i < |ms| => ms[i] / 1000.0)
  }

  lemma {:induction false} InsertSeconds(x: real, s: seq<real>)
    ensures Insert(x / 1000.0, Seconds(s)) == Seconds(Insert(x, s))
  {
    if s == [] || x <= s[0] {
      assert ([x] + s)[1..] == s;
    } else {
      assert Seconds(s)[1..] == Seconds(s[1..]);
      InsertSeconds(x, s[1..]);
    }
  }

  lemma {:induction false} SortSeconds(s: seq<real>)
    ensures Sort(Seconds(s)) == Seconds(Sort(s))
  {
    if s != [] {
      SortSeconds(s[1..]);
      InsertSeconds(s[0], Sort(s[1..]));
      assert Seconds(s)[1..] == Seconds(s[1..]);
    }
  }

  /** Converting a median and converting its samples agree. */
  lemma {:induction false} MedianOfSeconds(ms: seq<real>)
    ensures Median(Seconds(ms)) == match Median(ms) case None => None case Some(m) => Some(m / 1000.0)
  {
    SortSeconds(ms);
  }

  /** Percentiles ascend with their parameter. */
  lemma {:induction false} PercentilesAscend(s: seq<real>, p: real, q: real)
    requires s != [] && 0.0 <= p <= q <= 1.0
    ensures Percentile(s, p).Some? && Percentile(s, q).Some? && Percentile(s, p).value <= Percentile(s, q).value
  {
    SortSorts(s);
    RankInRange(p, |s|);
    RankInRange(q, |s|);
    RanksAscend(p, q, |s|);
  }

  /** A percentile of at most one half is at most the median. */
  lemma {:induction false} LowPercentileBelowMedian(s: seq<real>, p: real)
    requires s != [] && 0.0 <= p <= 0.5
    ensures Percentile(s, p).Some? && Median(s).Some? && Percentile(s, p).value <= Median(s).value
  {
    SortSorts(s);
    RankInRange(p, |s|);
    RanksAscend(p, 0.5, |s|);
    assert Rank(0.5, |s|) == (|s| - 1) / 2;
  }

  /** The upper quartile is at least the median, except for two different samples. */
  lemma {:induction false} MedianBelowUpperQuartile(s: seq<real>)
    requires s != []
    ensures Percentile(s, 0.75).Some? && Median(s).Some?
    ensures Median(s).value <= Percentile(s, 0.75).value <==> |s| != 2 || s[0] == s[1]
  {
    SortSorts(s);
    RankInRange(0.75, |s|);
    if |s| == 2 {
      assert s[1..] == [s[1]] && s[1..][1..] == [];
      assert Sort(s[1..]) == [s[1]];
      assert Sort(s) == Insert(s[0], [s[1]]);
      assert Insert(s[0], [s[1]]) == if s[0] <= s[1] then [s[0], s[1]] else [s[1], s[0]];
    } else {
      assert Rank(0.75, |s|) >= |s| / 2;
    }
  }

  // ---------------------------------------------------------------- robustness

  function CountIf(s: seq<real>, f: real -> bool): nat {
    if s == [] then 0 else (if f(s[0]) then 1 else 0) + CountIf(s[1..], f)
  }

  /** How many samples lie in `[a, b]`. */
  function CountIn(s: seq<real>, a: real, b: real): nat {
    CountIf(s, (x: real) => a <= x <= b)
  }

  lemma {:induction false} CountOfPermutation(s: seq<real>, t: seq<real>, f: real -> bool)
    requires multiset(s) == multiset(t)
    ensures CountIf(s, f) == CountIf(t, f)
  {
    if s == [] {
      assert |multiset(t)| == 0;
    } else {
      var k := Partner(s, t);
      CountOfPermutation(s[1..], Without(t, k), f);
      CountConcat(t[..k], t[k + 1..], f);
      CountConcat(t[..k], [t[k]] + t[k + 1..], f);
      assert t == t[..k] + ([t[k]] + t[k + 1..]);
    }
  }

  lemma {:induction false} CountConcat(s: seq<real>, t: seq<real>, f: real -> bool)
    ensures CountIf(s + t, f) == CountIf(s, f) + CountIf(t, f)
  {
    if s == [] {
      assert s + t == t;
    } else {
      assert (s + t)[1..] == s[1..] + t;
      CountConcat(s[1..], t, f);
    }
  }

  lemma {:induction false} NoneOf(s: seq<real>, f: real -> bool)
    requires forall i :: 0 <= i < |s| ==> !f(s[i])
    ensures CountIf(s, f) == 0
  {
    if s != [] { NoneOf(s[1..], f); }
  }

  lemma {:induction false} AllOf(s: seq<real>, f: real -> bool)
    requires forall i :: 0 <= i < |s| ==> f(s[i])
    ensures CountIf(s, f) == |s|
  {
    if s != [] { AllOf(s[1..], f); }
  }

  lemma {:induction false} AtMostAll(s: seq<real>, f: real -> bool)
    ensures CountIf(s, f) <= |s|
  {
    if s != [] { AtMostAll(s[1..], f); }
  }

  /** If strictly more than half of the samples lie in `[a, b]`, so does the median, whatever the others are. */
  lemma {:induction false} MajorityHoldsMedian(s: seq<real>, a: real, b: real)
    requires 2 * CountIn(s, a, b) > |s|
    ensures Median(s).Some? && a <= Median(s).value <= b
  {
    var inside := (x: real) => a <= x <= b;
    hide Sort;
    var t := Sort(s);
    SortSorts(s);
    CountOfPermutation(s, t, inside);
    AtMostAll(t, inside);
    MiddleIn(t, a, b, inside, |t| / 2);
    MiddleIn(t, a, b, inside, (|t| - 1) / 2);
  }

  lemma {:induction false} MiddleIn(t: seq<real>, a: real, b: real, inside: real -> bool, k: nat)
    requires Ascending(t) && 2 * CountIf(t, inside) > |t| && forall x :: inside(x) <==> a <= x <= b
    requires k < |t| && |t| - 2 <= 2 * k <= |t|
    ensures a <= t[k] <= b
  {
    hide CountIf;
    assert t == t[..k] + t[k..] && t == t[..k + 1] + t[k + 1..];
    CountConcat(t[..k], t[k..], inside);
    CountConcat(t[..k + 1], t[k + 1..], inside);
    AtMostAll(t[..k], inside);
    AtMostAll(t[k + 1..], inside);
    if b < t[k] { NoneOf(t[k..], inside); }
    if t[k] < a { NoneOf(t[..k + 1], inside); }
  }
}
