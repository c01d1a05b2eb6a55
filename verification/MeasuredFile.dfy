/**
 * What a run of the sampling loop leaves in its file, told by the two repetition counts, the
 * pairing and the outcomes of the commands.
 */
module MeasuredFile {
  import opened Basics
  import opened Measure

  /** The head sample of an index: warmups come first and have no pair index, measured samples count from one. */
  function HeadAt(p: Probe, i: nat): Sample {
    if i <= p.warmups then Sample(i, None, Head, Warmup, p.head(i), None)
    else Sample(i, Some(i - p.warmups), Head, Measured, p.head(i), Some(OrderAt(p, i - p.warmups)))
  }

  function BaseAt(p: Probe, i: nat): Sample {
    Sample(i, Some(i - p.warmups), Base, Measured, p.base(i), Some(OrderAt(p, i - p.warmups)))
  }

  /** With pairing on the sides take turns, starting with the side that the offset says. */
  function OrderAt(p: Probe, pairIndex: int): Order {
    if p.paired && (pairIndex + p.orderOffset) % 2 == 0 then BaseHead else HeadBase
  }

  function OfSubject(samples: seq<Sample>, subject: Subject): seq<Sample> {
    if samples == [] then [] else (if samples[0].subject == subject then [samples[0]] else []) + OfSubject(samples[1..], subject)
  }

  /** The last index that runs: the first one whose head run fails, or the last of all. */
  predicate LastIndex(p: Probe, last: nat) {
    && last <= p.warmups + p.repetitions
    && (forall i :: 1 <= i < last ==> p.head(i).status == 0)
    && (last == p.warmups + p.repetitions || (last >= 1 && p.head(last).status != 0))
  }

  /** A base sample is taken of every measured index that is reached, unless the head went first there and failed. */
  predicate BaseTaken(p: Probe, i: nat) {
    p.paired && i > p.warmups && (p.head(i).status == 0 || OrderAt(p, i - p.warmups) == BaseHead)
  }

  function HeadsBetween(p: Probe, i: nat, last: nat): seq<Sample>
    decreases last + 1 - i
  {
    if i > last then [] else [HeadAt(p, i)] + HeadsBetween(p, i + 1, last)
  }

  function BasesBetween(p: Probe, i: nat, last: nat): seq<Sample>
    decreases last + 1 - i
  {
    if i > last then [] else (if BaseTaken(p, i) then [BaseAt(p, i)] else []) + BasesBetween(p, i + 1, last)
  }

  lemma {:induction false} OfSubjectConcat(a: seq<Sample>, b: seq<Sample>, subject: Subject)
    ensures OfSubject(a + b, subject) == OfSubject(a, subject) + OfSubject(b, subject)
  {
    if a == [] {
      assert a + b == b;
    } else {
      assert (a + b)[0] == a[0] && (a + b)[1..] == a[1..] + b;
      OfSubjectConcat(a[1..], b, subject);
    }
  }

  lemma {:induction false} OneTurn(p: Probe, i: nat)
    ensures OfSubject(p.Turn(i), Head) == [HeadAt(p, i)]
    ensures OfSubject(p.Turn(i), Base) == if BaseTaken(p, i) then [BaseAt(p, i)] else []
  {
    var t := p.Turn(i);
    assert OfSubject([], Head) == [] && OfSubject([], Base) == [];
    assert |t| == 1 ==> t[1..] == [];
    assert |t| == 2 ==> t[1..] == [t[1]] && t[1..][1..] == [];
  }

  lemma {:induction false} FileFrom(p: Probe, i: nat, last: nat)
    requires LastIndex(p, last) && 1 <= i <= last + 1 && (i == last + 1 ==> last == p.warmups + p.repetitions)
    ensures OfSubject(p.TurnsFrom(i), Head) == HeadsBetween(p, i, last)
    ensures OfSubject(p.TurnsFrom(i), Base) == BasesBetween(p, i, last)
    decreases last + 1 - i
  {
    hide Probe.Turn, OfSubject;
    if i <= last {
      OneTurn(p, i);
      var rest := if p.head(i).status == 0 then p.TurnsFrom(i + 1) else [];
      assert p.TurnsFrom(i) == p.Turn(i) + rest;
      OfSubjectConcat(p.Turn(i), rest, Head);
      OfSubjectConcat(p.Turn(i), rest, Base);
      if p.head(i).status == 0 {
        FileFrom(p, i + 1, last);
      } else {
        NothingBehind(p, i, last);
      }
    } else {
      NothingBehind(p, i, last);
    }
  }

  lemma NothingBehind(p: Probe, i: nat, last: nat)
    requires i >= last
    ensures HeadsBetween(p, i + 1, last) == [] && BasesBetween(p, i + 1, last) == []
    ensures OfSubject([], Head) == [] && OfSubject([], Base) == []
    ensures i > p.warmups + p.repetitions ==> p.TurnsFrom(i) == []
    ensures i > last ==> HeadsBetween(p, i, last) == [] && BasesBetween(p, i, last) == []
  {
  }

  lemma {:induction false} BetweenTold(p: Probe, i: nat, last: nat)
    ensures |HeadsBetween(p, i, last)| == if i > last then 0 else last + 1 - i
    ensures forall k :: 0 <= k < |HeadsBetween(p, i, last)| ==> HeadsBetween(p, i, last)[k] == HeadAt(p, i + k)
    decreases last + 1 - i
  {
    if i <= last {
      BetweenTold(p, i + 1, last);
    }
  }

  lemma {:induction false} AllBasesTaken(p: Probe, i: nat, last: nat)
    requires i > p.warmups && forall k :: i <= k <= last ==> BaseTaken(p, k)
    ensures |BasesBetween(p, i, last)| == if i > last then 0 else last + 1 - i
    ensures forall k :: 0 <= k < |BasesBetween(p, i, last)| ==> BasesBetween(p, i, last)[k] == BaseAt(p, i + k)
    decreases last + 1 - i
  {
    if i <= last {
      assert BaseTaken(p, i);
      AllBasesTaken(p, i + 1, last);
    }
  }

  lemma {:induction false} NoBasesInWarmup(p: Probe, i: nat, last: nat)
    requires i <= p.warmups + 1 && p.warmups <= last
    ensures BasesBetween(p, i, last) == BasesBetween(p, p.warmups + 1, last)
    decreases p.warmups + 1 - i
  {
    if i <= p.warmups {
      NoBasesInWarmup(p, i + 1, last);
    }
  }

  lemma {:induction false} NoBases(p: Probe, i: nat, last: nat)
    requires forall k :: i <= k <= last ==> !BaseTaken(p, k)
    ensures BasesBetween(p, i, last) == []
    decreases last + 1 - i
  {
    if i <= last {
      assert !BaseTaken(p, i);
      NoBases(p, i + 1, last);
    }
  }

  /** For every probe: the file ends with the first index whose head run fails, each index before and there has one head sample, in order, and the bases are those that were taken. */
  lemma {:induction false} FileTold(p: Probe, last: nat)
    requires LastIndex(p, last)
    ensures var heads, bases := OfSubject(p.TurnsFrom(1), Head), OfSubject(p.TurnsFrom(1), Base);
            && |heads| == last
            && (forall k :: 0 <= k < last ==> heads[k] == HeadAt(p, k + 1))
            && bases == BasesBetween(p, 1, last)
  {
    FileFrom(p, 1, last);
    BetweenTold(p, 1, last);
  }

  /** When no head run fails: all warmups, then all measured repetitions, and with pairing one base sample for each of these. */
  lemma {:induction false} FullFile(p: Probe)
    requires forall i :: 1 <= i <= p.warmups + p.repetitions ==> p.head(i).status == 0
    ensures var heads, bases := OfSubject(p.TurnsFrom(1), Head), OfSubject(p.TurnsFrom(1), Base);
            && |heads| == p.warmups + p.repetitions
            && (forall k :: 0 <= k < p.warmups ==> heads[k].phase == Warmup && heads[k].index == k + 1 && heads[k].pairIndex == None)
            && (forall k :: p.warmups <= k < |heads| ==>
                  heads[k].phase == Measured && heads[k].pairIndex == Some(k + 1 - p.warmups) && heads[k].run == p.head(k + 1))
            && |bases| == (if p.paired then p.repetitions else 0)
            && (forall m :: 0 <= m < |bases| ==>
                  bases[m].phase == Measured && bases[m].pairIndex == Some(m + 1) && bases[m].run == p.base(p.warmups + m + 1))
  {
    hide Probe.TurnsFrom, OfSubject, BasesBetween;
    FileTold(p, p.warmups + p.repetitions);
    FullBases(p);
  }

  lemma {:induction false} FullBases(p: Probe)
    requires forall i :: 1 <= i <= p.warmups + p.repetitions ==> p.head(i).status == 0
    ensures var bases := BasesBetween(p, 1, p.warmups + p.repetitions);
            && |bases| == (if p.paired then p.repetitions else 0)
            && forall m :: 0 <= m < |bases| ==> bases[m] == BaseAt(p, p.warmups + 1 + m)
  {
    hide BasesBetween;
    var last := p.warmups + p.repetitions;
    NoBasesInWarmup(p, 1, last);
    if p.paired {
      AllBasesTaken(p, p.warmups + 1, last);
    } else {
      NoBases(p, p.warmups + 1, last);
    }
  }

  // ---------------------------------------------------------------- order in the file

  /** Indices never descend, and at one index the side that the order names comes first. */
  ghost predicate InOrder(samples: seq<Sample>) {
    forall a, b :: 0 <= a < b < |samples| ==>
      samples[a].index < samples[b].index
      || (samples[a].index == samples[b].index && samples[a].order == samples[b].order
          && samples[a].subject == (if samples[a].order == Some(BaseHead) then Base else Head)
          && samples[b].subject != samples[a].subject)
  }

  lemma {:induction false} FileInOrder(p: Probe, i: nat)
    ensures InOrder(p.TurnsFrom(i)) && forall k :: 0 <= k < |p.TurnsFrom(i)| ==> p.TurnsFrom(i)[k].index >= i
    decreases p.warmups + p.repetitions + 1 - i
  {
    if i <= p.Total() {
      FileInOrder(p, i + 1);
      var t, rest := p.Turn(i), if p.head(i).status == 0 then p.TurnsFrom(i + 1) else [];
      assert p.TurnsFrom(i) == t + rest;
      TurnInOrder(p, i);
      hide Probe.Turn, Probe.TurnsFrom;
      InOrderTogether(t, rest, i);
    }
  }

  lemma TurnInOrder(p: Probe, i: nat)
    ensures InOrder(p.Turn(i)) && forall k :: 0 <= k < |p.Turn(i)| ==> p.Turn(i)[k].index == i
  {
  }

  lemma InOrderTogether(t: seq<Sample>, rest: seq<Sample>, i: nat)
    requires InOrder(t) && InOrder(rest)
    requires forall k :: 0 <= k < |t| ==> t[k].index == i
    requires forall k :: 0 <= k < |rest| ==> rest[k].index >= i + 1
    ensures InOrder(t + rest) && forall k :: 0 <= k < |t + rest| ==> (t + rest)[k].index >= i
  {
  }

  /** The list in the file: a record at every even place, and single commas between them. */
  lemma {:induction false} RecordsAndCommas(samples: seq<Sample>)
    ensures |Separated(samples)| == if samples == [] then 0 else 2 * |samples| - 1
    ensures forall k :: 0 <= k < |Separated(samples)| ==>
              Separated(samples)[k] == if k % 2 == 0 then Record(samples[k / 2]) else Comma
  {
    if |samples| > 1 {
      var front := samples[..|samples| - 1];
      RecordsAndCommas(front);
      assert Separated(samples) == Separated(front) + [Comma, Record(samples[|samples| - 1])];
    }
  }

  // ---------------------------------------------------------------- pairs

  /** A pair stands for an index that was reached, with both runs successful. */
  predicate PairAt(p: Probe, i: nat, pair: Pair) {
    && p.paired && i > p.warmups && p.head(i).status == 0 && p.base(i).status == 0
    && pair == Pair(i - p.warmups, p.head(i).durationMs, p.base(i).durationMs, p.head(i).durationMs - p.base(i).durationMs)
  }

  lemma {:induction false} PairsFromTold(p: Probe, i: nat, last: nat, pair: Pair)
    requires LastIndex(p, last) && 1 <= i <= last + 1 && (i == last + 1 ==> last == p.warmups + p.repetitions)
    ensures pair in p.PairsFrom(i) <==> exists k: nat :: i <= k <= last && PairAt(p, k, pair)
    ensures forall m, n :: 0 <= m < n < |p.PairsFrom(i)| ==> p.PairsFrom(i)[m].pairIndex < p.PairsFrom(i)[n].pairIndex
    ensures forall m :: 0 <= m < |p.PairsFrom(i)| ==> p.PairsFrom(i)[m].pairIndex >= i - p.warmups
    decreases last + 1 - i
  {
    if i <= last {
      if p.head(i).status == 0 {
        PairsFromTold(p, i + 1, last, pair);
        assert (exists k: nat :: i <= k <= last && PairAt(p, k, pair)) <==>
               PairAt(p, i, pair) || exists k: nat :: i + 1 <= k <= last && PairAt(p, k, pair);
      }
    }
  }

  /** The pairs of the join, in ascending order: one for each measured index up to the last where both runs succeeded, and no other. */
  lemma {:induction false} JoinTold(p: Probe, last: nat, pair: Pair)
    requires LastIndex(p, last)
    ensures From(Heads(p.TurnsFrom(1)), p.MeasuredIndex(1))
    ensures var pairs := PairUp(Heads(p.TurnsFrom(1)), Bases(p.TurnsFrom(1)));
            && (pair in pairs <==> exists k: nat :: 1 <= k <= last && PairAt(p, k, pair))
            && forall m, n :: 0 <= m < n < |pairs| ==> pairs[m].pairIndex < pairs[n].pairIndex
  {
    JoinIsExact(p, 1);
    PairsFromTold(p, 1, last, pair);
  }
}
