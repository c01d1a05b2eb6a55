/** Small vocabulary shared by the other modules. */
module Basics {
  datatype Option<+T> = None | Some(value: T)

  function OrElse<T>(a: Option<T>, b: T): T {
    if a.Some? then a.value else b
  }

  lemma DropDrop<T>(s: seq<T>, m: nat, k: nat)
    requires m <= k <= |s|
    ensures s[m..][k - m..] == s[k..]
  {
  }

  lemma AppendAssoc<T>(a: seq<T>, b: seq<T>, c: seq<T>)
    ensures (a + b) + c == a + (b + c)
  {
  }

  lemma PrefixSplit<T>(front: seq<T>, s: seq<T>)
    requires front <= s
    ensures s == front + s[|front|..]
  {
  }

  lemma {:induction false} SubsetSizes<T>(a: set<T>, b: set<T>)
    requires a <= b
    ensures |a| <= |b| && (|a| == |b| ==> a == b)
  {
    assert b == a + (b - a);
    assert |b| == |a| + |b - a|;
  }

  lemma DropPast<T>(front: seq<T>, back: seq<T>, k: nat)
    requires |front| <= k <= |front + back|
    ensures (front + back)[k..] == back[k - |front|..]
  {
  }

  /** The first index at or after `from` that holds `c`, or `|s|` when there is none. */
  function IndexOrEnd(s: string, c: char, from: nat): (k: nat)
    requires from <= |s|
    ensures from <= k <= |s|
    ensures forall i :: from <= i < k ==> s[i] != c
    ensures k < |s| ==> s[k] == c
    decreases |s| - from
  {
    if from == |s| || s[from] == c then from else IndexOrEnd(s, c, from + 1)
  }

  /** What the `.` of a JavaScript pattern does not match. */
  predicate LineTerminator(c: char) { c == '\n' || c == '\r' || c == '\U{2028}' || c == '\U{2029}' }

  /** JavaScript's `join`. */
  function Join(parts: seq<string>, separator: string): string {
    if parts == [] then "" else if |parts| == 1 then parts[0] else parts[0] + separator + Join(parts[1..], separator)
  }

  /** JavaScript's `split('\n')`. */
  function Lines(s: string): (lines: seq<string>)
    ensures lines != []
    decreases |s|
  {
    var k := IndexOrEnd(s, '\n', 0);
    if k == |s| then [s] else [s[..k]] + Lines(s[k + 1..])
  }

  lemma LinesUnfold(s: string)
    ensures var k := IndexOrEnd(s, '\n', 0);
            Lines(s) == if k == |s| then [s] else [s[..k]] + Lines(s[k + 1..])
  {
    hide IndexOrEnd;
  }

  /** Splitting is compositional at every line break. */
  lemma {:induction false} LinesAtBreak(a: string, b: string)
    ensures Lines(a + "\n" + b) == Lines(a) + Lines(b)
    decreases |a|
  {
    hide IndexOrEnd, Lines;
    var s := a + "\n" + b;
    var k := IndexOrEnd(a, '\n', 0);
    if k == |a| {
      FirstBreak(a, s);
      assert s[..k] == a && s[k + 1..] == b;
      LinesUnfold(s);
      LinesUnfold(a);
    } else {
      FirstBreak(a[..k], s);
      assert s[k + 1..] == a[k + 1..] + "\n" + b && s[..k] == a[..k];
      LinesAtBreak(a[k + 1..], b);
      LinesUnfold(s);
      LinesUnfold(a);
    }
  }

  /** The first line break of a text comes right after its longest break-free prefix. */
  lemma FirstBreak(front: string, s: string)
    requires |front| < |s| && s[..|front|] == front && s[|front|] == '\n'
    requires forall i :: 0 <= i < |front| ==> front[i] != '\n'
    ensures IndexOrEnd(s, '\n', 0) == |front|
  {
    assert forall i :: 0 <= i < |front| ==> s[i] == front[i];
  }

  lemma OneLine(s: string)
    requires '\n' !in s
    ensures Lines(s) == [s]
  {
  }

  lemma {:induction false} JoinOfLines(s: string)
    ensures Join(Lines(s), "\n") == s
    decreases |s|
  {
    var k := IndexOrEnd(s, '\n', 0);
    if k < |s| {
      JoinOfLines(s[k + 1..]);
      assert s == s[..k] + "\n" + s[k + 1..];
    }
  }
}
