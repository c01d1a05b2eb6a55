/**
 * The sampling loop of a devenv probe and the join of its head and base samples.
 *
 * The probe runs the candidate (head) and, when pairing is on, the baseline (base) checkout,
 * alternating which side goes first, and appends JSON records to a samples file.  The commands
 * are functions from the sample index to what the run gave.
 */
module Measure {
  import opened Basics

  datatype Subject = Head | Base

  datatype Phase = Warmup | Measured

  datatype Order = BaseHead | HeadBase

  /** Exit status and duration of one command run. */
  datatype Run = Run(status: nat, durationMs: int)

  datatype Sample = Sample(index: nat, pairIndex: Option<int>, subject: Subject, phase: Phase, run: Run, order: Option<Order>)

  /** What the loop appends to the samples file. */
  datatype Piece = OpenList | Comma | Record(sample: Sample) | CloseList

  datatype Pair = Pair(pairIndex: int, currentMs: int, baselineMs: int, deltaMs: int)

  /** The fixed arguments of one call. */
  datatype Probe = Probe(warmups: nat, repetitions: nat, paired: bool, orderOffset: nat, head: nat -> Run, base: nat -> Run)
  {
    function Total(): nat { warmups + repetitions }

    predicate IsMeasured(i: nat) { i > warmups }

    function MeasuredIndex(i: nat): int { i - warmups }

    predicate BaseFirst(i: nat) {
      paired && IsMeasured(i) && (MeasuredIndex(i) + orderOffset) % 2 == 0
    }

    function HeadSample(i: nat): Sample {
      if IsMeasured(i) then
        Sample(i, Some(MeasuredIndex(i)), Head, Measured, head(i), Some(if BaseFirst(i) then BaseHead else HeadBase))
      else Sample(i, None, Head, Warmup, head(i), None)
    }

    function BaseSample(i: nat): Sample {
      Sample(i, Some(MeasuredIndex(i)), Base, Measured, base(i), Some(if BaseFirst(i) then BaseHead else HeadBase))
    }

    /** The samples of one turn, in file order. */
    function Turn(i: nat): seq<Sample> {
      if BaseFirst(i) then [BaseSample(i), HeadSample(i)]
      else if paired && IsMeasured(i) && head(i).status == 0 then [HeadSample(i), BaseSample(i)]
      else [HeadSample(i)]
    }

    /** The samples from turn `i` on: turns go on until the last one or the first failing head run. */
    function TurnsFrom(i: nat): seq<Sample>
      decreases Total() + 1 - i
    {
      if i > Total() then []
      else Turn(i) + (if head(i).status == 0 then TurnsFrom(i + 1) else [])
    }

    /** The pairs that the comparison is about: the measured indices whose two runs both succeeded. */
    function PairsFrom(i: nat): seq<Pair>
      decreases Total() + 1 - i
    {
      if i > Total() || head(i).status != 0 then []
      else
        (if paired && IsMeasured(i) && base(i).status == 0
         then [Pair(MeasuredIndex(i), head(i).durationMs, base(i).durationMs, head(i).durationMs - base(i).durationMs)]
         else [])
        + PairsFrom(i + 1)
    }
  }

  // ---------------------------------------------------------------- the file

  /** Records separated by single commas. */
  function Separated(samples: seq<Sample>): seq<Piece> {
    if samples == [] then []
    else if |samples| == 1 then [Record(samples[0])]
    else Separated(samples[..|samples| - 1]) + [Comma, Record(samples[|samples| - 1])]
  }

  method Append(file: seq<Piece>, first: bool, sample: Sample, ghost samples: seq<Sample>) returns (file': seq<Piece>)
    requires file == [OpenList] + Separated(samples) && (first <==> samples == [])
    ensures file' == [OpenList] + Separated(samples + [sample])
  {
    file' := file;
    if !first {
      file' := file' + [Comma];
    }
    file' := file' + [Record(sample)];
    assert (samples + [sample])[..|samples|] == samples;
  }

  /** The body of the loop: both runs of one turn. */
  method RunTurn(probe: Probe, sampleIndex: nat, file: seq<Piece>, sampleFirst: bool, ghost samples: seq<Sample>)
    returns (file': seq<Piece>, status: nat)
    requires file == [OpenList] + Separated(samples) && (sampleFirst <==> samples == [])
    ensures file' == [OpenList] + Separated(samples + probe.Turn(sampleIndex))
    ensures status == probe.head(sampleIndex).status
  {
    var measured := sampleIndex > probe.warmups;
    var measuredIndex := sampleIndex - probe.warmups;
    file' := file;
    ghost var written := samples;
    var baseRanBeforeHead := false;
    if measured && probe.paired && (measuredIndex + probe.orderOffset) % 2 == 0 {
      baseRanBeforeHead := true;
      var baseRun := probe.base(sampleIndex);
      var baseSample := Sample(sampleIndex, Some(measuredIndex), Base, Measured, baseRun, Some(BaseHead));
      file' := Append(file', sampleFirst, baseSample, written);
      written := written + [baseSample];
    }

    var run := probe.head(sampleIndex);
    var order := if measured && baseRanBeforeHead then BaseHead else HeadBase;
    var headSample :=
      Sample(sampleIndex, if measured then Some(measuredIndex) else None, Head, if measured then Measured else Warmup,
             run, if measured then Some(order) else None);
    file' := Append(file', sampleFirst && !baseRanBeforeHead, headSample, written);
    written := written + [headSample];

    if measured && run.status == 0 && probe.paired && !baseRanBeforeHead {
      var baseRun := probe.base(sampleIndex);
      var baseSample := Sample(sampleIndex, Some(measuredIndex), Base, Measured, baseRun, Some(HeadBase));
      file' := Append(file', false, baseSample, written);
      written := written + [baseSample];
    }
    assert written == samples + probe.Turn(sampleIndex);
    status := run.status;
  }

  lemma {:induction false} TurnsStep(p: Probe, i: nat, before: seq<Sample>)
    requires i <= p.Total()
    ensures before + p.TurnsFrom(i) ==
            before + p.Turn(i) + (if p.head(i).status == 0 then p.TurnsFrom(i + 1) else [])
    ensures p.head(i).status != 0 ==> before + p.TurnsFrom(i) == before + p.Turn(i)
  {
    AppendAssoc(before, p.Turn(i), if p.head(i).status == 0 then p.TurnsFrom(i + 1) else []);
  }

  lemma TurnsEnd(p: Probe, i: nat, samples: seq<Sample>)
    requires i > p.Total()
    ensures samples + p.TurnsFrom(i) == samples
  {
  }

  /** `measure`: malformed or too small repetition counts fall back to 1 and 0. */
  method MeasureProbe(warmupText: Option<nat>, repetitionText: Option<nat>, paired: bool, orderOffset: nat,
                      head: nat -> Run, base: nat -> Run)
    returns (file: seq<Piece>, probe: Probe)
    ensures probe.repetitions == if repetitionText.Some? && repetitionText.value >= 1 then repetitionText.value else 1
    ensures probe.warmups == if warmupText.Some? then warmupText.value else 0
    ensures probe.paired == paired && probe.orderOffset == orderOffset && probe.head == head && probe.base == base
    ensures file == [OpenList] + Separated(probe.TurnsFrom(1)) + [CloseList]
  {
    var repetitions := if repetitionText.None? || repetitionText.value < 1 then 1 else repetitionText.value;
    var warmups := if warmupText.None? then 0 else warmupText.value;
    probe := Probe(warmups, repetitions, paired, orderOffset, head, base);

    file := [OpenList];
    var sampleFirst := true;
    ghost var samples: seq<Sample> := [];
    var sampleIndex := 1;
    while sampleIndex <= warmups + repetitions
      invariant 1 <= sampleIndex <= warmups + repetitions + 1
      invariant file == [OpenList] + Separated(samples)
      invariant sampleFirst <==> samples == []
      invariant samples + probe.TurnsFrom(sampleIndex) == probe.TurnsFrom(1)
    {
      var status;
      file, status := RunTurn(probe, sampleIndex, file, sampleFirst, samples);
      ghost var before := samples;
      samples := samples + probe.Turn(sampleIndex);
      sampleFirst := false;
      TurnsStep(probe, sampleIndex, before);
      if status != 0 {
        assert samples == probe.TurnsFrom(1);
        break;
      }
      sampleIndex := sampleIndex + 1;
    }
    if sampleIndex > warmups + repetitions {
      TurnsEnd(probe, sampleIndex, samples);
    }
    assert samples == probe.TurnsFrom(1);
    file := file + [CloseList];
  }

  // ---------------------------------------------------------------- the join

  /** The successful measured head samples. */
  function Heads(samples: seq<Sample>): seq<Sample> {
    if samples == [] then []
    else
      var s := samples[0];
      (if s.subject == Head && s.phase == Measured && s.run.status == 0 && s.pairIndex.Some? then [s] else []) + Heads(samples[1..])
  }

  /** The successful measured base samples. */
  function Bases(samples: seq<Sample>): seq<Sample> {
    if samples == [] then []
    else
      var s := samples[0];
      (if s.subject == Base && s.phase == Measured && s.run.status == 0 && s.pairIndex.Some? then [s] else []) + Bases(samples[1..])
  }

  /** The base samples that go with one head sample. */
  function Matches(h: Sample, bases: seq<Sample>): seq<Pair>
    requires h.pairIndex.Some?
  {
    if bases == [] then []
    else
      (if bases[0].pairIndex == h.pairIndex
       then [Pair(h.pairIndex.value, h.run.durationMs, bases[0].run.durationMs, h.run.durationMs - bases[0].run.durationMs)]
       else []) + Matches(h, bases[1..])
  }

  function PairUp(heads: seq<Sample>, bases: seq<Sample>): seq<Pair>
    requires forall h :: h in heads ==> h.pairIndex.Some?
  {
    if heads == [] then [] else Matches(heads[0], bases) + PairUp(heads[1..], bases)
  }

  lemma {:induction false} HeadsConcat(a: seq<Sample>, b: seq<Sample>)
    ensures Heads(a + b) == Heads(a) + Heads(b)
    ensures Bases(a + b) == Bases(a) + Bases(b)
  {
    if a == [] {
      assert a + b == b;
    } else {
      hide Heads, Bases;
      assert (a + b)[0] == a[0] && (a + b)[1..] == a[1..] + b;
      HeadsConcat(a[1..], b);
      assert Heads(a + b) == Heads([a[0]]) + (Heads(a[1..]) + Heads(b)) by { HeadFirst(a + b); }
      assert Heads(a) == Heads([a[0]]) + Heads(a[1..]) by { HeadFirst(a); }
      assert Bases(a + b) == Bases([a[0]]) + (Bases(a[1..]) + Bases(b)) by { HeadFirst(a + b); }
      assert Bases(a) == Bases([a[0]]) + Bases(a[1..]) by { HeadFirst(a); }
    }
  }

  lemma {:induction false} HeadFirst(a: seq<Sample>)
    requires a != []
    ensures Heads(a) == Heads([a[0]]) + Heads(a[1..]) && Bases(a) == Bases([a[0]]) + Bases(a[1..])
  {
    assert [a[0]][1..] == [];
    assert Heads([]) == [] && Bases([]) == [];
  }

  /** Successful measured samples, all with pair indices from `m` on. */
  ghost predicate From(samples: seq<Sample>, m: int) {
    forall s :: s in samples ==> s.pairIndex.Some? && s.pairIndex.value >= m
  }

  lemma {:induction false} HeadsFrom(p: Probe, i: nat)
    ensures From(Heads(p.TurnsFrom(i)), p.MeasuredIndex(i)) && From(Bases(p.TurnsFrom(i)), p.MeasuredIndex(i))
    decreases p.Total() + 1 - i
  {
    if i <= p.Total() {
      HeadsFrom(p, i + 1);
      HeadsConcat(p.Turn(i), p.TurnsFrom(i + 1));
      HeadsConcat(p.Turn(i), []);
      TurnSides(p, i);
    }
  }

  lemma {:induction false} TurnSides(p: Probe, i: nat)
    ensures Heads(p.Turn(i)) == if p.IsMeasured(i) && p.head(i).status == 0 then [p.HeadSample(i)] else []
    ensures Bases(p.Turn(i)) ==
            if p.IsMeasured(i) && p.paired && p.base(i).status == 0 && (p.BaseFirst(i) || p.head(i).status == 0) then [p.BaseSample(i)] else []
  {
    var t := p.Turn(i);
    assert Heads([]) == [] && Bases([]) == [];
    assert |t| == 1 ==> t[1..] == [];
    assert |t| == 2 ==> t[1..] == [t[1]] && t[1..][1..] == [];
  }

  lemma {:induction false} NoMatches(h: Sample, bases: seq<Sample>, m: int)
    requires h.pairIndex.Some? && h.pairIndex.value < m && From(bases, m)
    ensures Matches(h, bases) == []
  {
    if bases != [] {
      NoMatches(h, bases[1..], m);
    }
  }

  lemma {:induction false} JoinIgnoresEarlier(heads: seq<Sample>, b: Sample, bases: seq<Sample>, m: int)
    requires From(heads, m) && b.pairIndex.Some? && b.pairIndex.value < m
    ensures PairUp(heads, [b] + bases) == PairUp(heads, bases)
  {
    if heads != [] {
      assert ([b] + bases)[1..] == bases;
      JoinIgnoresEarlier(heads[1..], b, bases, m);
    }
  }

  /** The join yields exactly one pair for every measured index where both sides succeeded, in order, and nothing else. */
  lemma {:induction false} JoinIsExact(p: Probe, i: nat)
    ensures From(Heads(p.TurnsFrom(i)), p.MeasuredIndex(i))
    ensures PairUp(Heads(p.TurnsFrom(i)), Bases(p.TurnsFrom(i))) == p.PairsFrom(i)
    decreases p.Total() + 1 - i
  {
    hide PairUp;
    HeadsFrom(p, i);
    if i <= p.Total() {
      if p.head(i).status == 0 {
        HeadsFrom(p, i + 1);
        JoinIsExact(p, i + 1);
      }
      JoinStep(p, i);
    } else {
      JoinEnd(p, i);
    }
  }

  lemma JoinEnd(p: Probe, i: nat)
    requires i > p.Total()
    ensures Heads(p.TurnsFrom(i)) == [] && Bases(p.TurnsFrom(i)) == [] && p.PairsFrom(i) == [] && PairUp([], []) == []
  {
  }

  lemma {:induction false} JoinStep(p: Probe, i: nat)
    requires i <= p.Total()
    requires From(Heads(p.TurnsFrom(i)), p.MeasuredIndex(i))
    requires p.head(i).status == 0 ==>
             var hs, bs := Heads(p.TurnsFrom(i + 1)), Bases(p.TurnsFrom(i + 1));
             From(hs, p.MeasuredIndex(i + 1)) && From(bs, p.MeasuredIndex(i + 1)) && PairUp(hs, bs) == p.PairsFrom(i + 1)
    ensures PairUp(Heads(p.TurnsFrom(i)), Bases(p.TurnsFrom(i))) == p.PairsFrom(i)
  {
    TurnSides(p, i);
    if p.head(i).status == 0 {
      var rest := p.TurnsFrom(i + 1);
      assert p.TurnsFrom(i) == p.Turn(i) + rest;
      HeadsConcat(p.Turn(i), rest);
      JoinTurn(p, i, Heads(rest), Bases(rest));
    } else {
      assert p.TurnsFrom(i) == p.Turn(i);
    }
  }

  lemma {:induction false} JoinTurn(p: Probe, i: nat, heads: seq<Sample>, bases: seq<Sample>)
    requires p.head(i).status == 0 && From(heads, p.MeasuredIndex(i + 1)) && From(bases, p.MeasuredIndex(i + 1))
    requires From(Heads(p.Turn(i)) + heads, p.MeasuredIndex(i))
    ensures PairUp(Heads(p.Turn(i)) + heads, Bases(p.Turn(i)) + bases) ==
            (if p.paired && p.IsMeasured(i) && p.base(i).status == 0
             then [Pair(p.MeasuredIndex(i), p.head(i).durationMs, p.base(i).durationMs, p.head(i).durationMs - p.base(i).durationMs)]
             else []) + PairUp(heads, bases)
  {
    TurnSides(p, i);
    var hs, bs := Heads(p.Turn(i)), Bases(p.Turn(i));
    if bs != [] {
      JoinIgnoresEarlier(heads, p.BaseSample(i), bases, p.MeasuredIndex(i + 1));
      assert (bs + bases)[1..] == bases;
    } else {
      assert bs + bases == bases;
    }
    if hs != [] {
      assert (hs + heads)[1..] == heads;
      NoMatches(p.HeadSample(i), bases, p.MeasuredIndex(i + 1));
    } else {
      assert hs + heads == heads;
    }
  }

  // ---------------------------------------------------------------- fairness

  /** How often each side went first among the measured head samples. */
  function Turns(samples: seq<Sample>, order: Order): nat {
    if samples == [] then 0
    else (if samples[0].subject == Head && samples[0].order == Some(order) then 1 else 0) + Turns(samples[1..], order)
  }

  lemma {:induction false} TurnsConcat(a: seq<Sample>, b: seq<Sample>, order: Order)
    ensures Turns(a + b, order) == Turns(a, order) + Turns(b, order)
  {
    if a == [] {
      assert a + b == b;
    } else {
      assert (a + b)[1..] == a[1..] + b;
      TurnsConcat(a[1..], b, order);
    }
  }

  lemma {:induction false} TurnOrder(p: Probe, i: nat, order: Order)
    ensures Turns(p.Turn(i), order) == if p.HeadSample(i).order == Some(order) then 1 else 0
  {
    var t := p.Turn(i);
    assert Turns([], order) == 0;
    assert |t| == 1 ==> t[1..] == [];
    assert |t| == 2 ==> t[1..] == [t[1]] && t[1..][1..] == [];
  }

  /** With pairing on, the two sides go first equally often, give or take one; the side of the next turn is never behind. */
  lemma {:induction false} TurnsAlternate(p: Probe, i: nat)
    requires p.paired
    ensures var d := Turns(p.TurnsFrom(i), BaseHead) - Turns(p.TurnsFrom(i), HeadBase);
            -1 <= d <= 1 && (p.IsMeasured(i) ==> if p.BaseFirst(i) then 0 <= d else d <= 0)
    decreases p.Total() + 1 - i
  {
    if i <= p.Total() {
      TurnsAlternate(p, i + 1);
      TurnOrder(p, i, BaseHead);
      TurnOrder(p, i, HeadBase);
      TurnsConcat(p.Turn(i), p.TurnsFrom(i + 1), BaseHead);
      TurnsConcat(p.Turn(i), p.TurnsFrom(i + 1), HeadBase);
      assert p.Turn(i) + [] == p.Turn(i);
    }
  }

  // ---------------------------------------------------------------- one sample per index and side

  function CountAt(samples: seq<Sample>, subject: Subject, m: int): nat {
    if samples == [] then 0
    else (if samples[0].subject == subject && samples[0].pairIndex == Some(m) then 1 else 0) + CountAt(samples[1..], subject, m)
  }

  lemma {:induction false} CountConcat(a: seq<Sample>, b: seq<Sample>, subject: Subject, m: int)
    ensures CountAt(a + b, subject, m) == CountAt(a, subject, m) + CountAt(b, subject, m)
  {
    if a == [] {
      assert a + b == b;
    } else {
      assert (a + b)[1..] == a[1..] + b;
      CountConcat(a[1..], b, subject, m);
    }
  }

  /** Each measured index has at most one head and at most one base sample. */
  lemma {:induction false} OneSamplePerSide(p: Probe, i: nat, subject: Subject, m: int)
    ensures CountAt(p.TurnsFrom(i), subject, m) <= 1
    ensures m < p.MeasuredIndex(i) ==> CountAt(p.TurnsFrom(i), subject, m) == 0
    decreases p.Total() + 1 - i
  {
    if i <= p.Total() {
      OneSamplePerSide(p, i + 1, subject, m);
      CountConcat(p.Turn(i), p.TurnsFrom(i + 1), subject, m);
      assert p.Turn(i) + [] == p.Turn(i);
      var t := p.Turn(i);
      assert CountAt([], subject, m) == 0;
      assert |t| == 1 ==> t[1..] == [];
      assert |t| == 2 ==> t[1..] == [t[1]] && t[1..][1..] == [];
    }
  }
}
