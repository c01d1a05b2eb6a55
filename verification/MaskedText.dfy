/**
 * What masking keeps: length, line structure and every character it does not blank; and the
 * line/column reports of the checker, which are computed on the source for offsets found in
 * the masked text.
 */
module MaskedText {
  import opened Basics
  import opened Masker

  /** `t` is `s` with some characters blanked; line breaks are never touched. */
  ghost predicate BlankedCopy(s: string, t: string) {
    && |t| == |s|
    && (forall i :: 0 <= i < |s| ==> t[i] == s[i] || (t[i] == ' ' && s[i] != '\n'))
  }

  /** Masking changes characters only to blanks, and keeps length and line breaks. */
  lemma {:induction false} MaskKeeps(s: string, st: State)
    ensures BlankedCopy(s, MaskFrom(s, st))
    decreases |s|
  {
    hide Step;
    if s != "" {
      var m := Step(st, s);
      MaskKeeps(s[m.width..], m.state);
      var front := s[..m.width];
      assert s == front + s[m.width..];
      BlankedConcat(front, if m.visible then front else Blank(front), s[m.width..], MaskFrom(s[m.width..], m.state));
    }
  }

  lemma BlankedConcat(a: string, a': string, b: string, b': string)
    requires BlankedCopy(a, a') && BlankedCopy(b, b')
    ensures BlankedCopy(a + b, a' + b')
  {
  }

  /** The text `${` does not occur. */
  predicate NoInterpolation(s: string) {
    forall i :: 0 <= i < |s| - 1 ==> !(s[i] == '$' && s[i + 1] == '{')
  }

  predicate Quoting(c: char) { c == '\'' || c == '\"' || c == '`' }

  /** A text in which no lexeme and no template starts. */
  ghost predicate CodeOnly(s: string) {
    && (forall i :: 0 <= i < |s| ==> !Quoting(s[i]))
    && (forall i :: 0 <= i < |s| - 1 ==> !(s[i] == '/' && (s[i + 1] == '/' || s[i + 1] == '*')))
  }

  lemma {:induction false} CodeOnlyUnmasked(s: string)
    requires CodeOnly(s)
    ensures MaskFrom(s, START) == s
    decreases |s|
  {
    if s != "" {
      assert CodeOnly(s[1..]) by {
        assert forall i :: 0 <= i < |s[1..]| ==> s[1..][i] == s[i + 1];
      }
      CodeOnlyUnmasked(s[1..]);
    }
  }

  lemma {:induction false} MaskIsCodeOnly(s: string, st: State)
    ensures CodeOnly(MaskFrom(s, st))
    decreases |s|
  {
    if s != "" {
      var m := Step(st, s);
      var rest := MaskFrom(s[m.width..], m.state);
      MaskIsCodeOnly(s[m.width..], m.state);
      MaskKeeps(s[m.width..], m.state);
      var front := if m.visible then s[..m.width] else Blank(s[..m.width]);
      assert MaskFrom(s, st) == front + rest;
      if m.visible && |s| > 1 {
        assert rest[0] == s[1] || rest[0] == ' ';
      }
      forall i | 0 <= i < |front + rest| - 1
        ensures !((front + rest)[i] == '/' && ((front + rest)[i + 1] == '/' || (front + rest)[i + 1] == '*'))
      {
        if i >= m.width {
          assert (front + rest)[i] == rest[i - m.width] && (front + rest)[i + 1] == rest[i + 1 - m.width];
        }
      }
    }
  }

  /** Masking twice is masking once. */
  lemma {:induction false} MaskIdempotent(s: string)
    ensures MaskFrom(MaskFrom(s, START), START) == MaskFrom(s, START)
  {
    MaskIsCodeOnly(s, START);
    CodeOnlyUnmasked(MaskFrom(s, START));
  }

  // ---------------------------------------------------------------- line and column

  datatype Location = Location(line: nat, column: nat)

  function LineAndColumnAt(source: string, offset: nat): Location
    requires offset <= |source|
  {
    var lines := Lines(source[..offset]);
    Location(|lines|, |lines[|lines| - 1]| + 1)
  }

  predicate Before(a: Location, b: Location) {
    a.line < b.line || (a.line == b.line && a.column < b.column)
  }

  lemma {:induction false} LinesSnoc(s: string, c: char)
    ensures c == '\n' ==> Lines(s + [c]) == Lines(s) + [""]
    ensures c != '\n' ==> var n := |Lines(s)| - 1; Lines(s + [c]) == Lines(s)[n := Lines(s)[n] + [c]]
    decreases |s|
  {
    hide Lines, IndexOrEnd;
    if c == '\n' {
      LinesAtBreak(s, "");
      OneLine("");
      assert s + "\n" + "" == s + [c];
    } else if '\n' !in s {
      OneLine(s);
      OneLine(s + [c]);
    } else {
      var k := IndexOrEnd(s, '\n', 0);
      var a, b := s[..k], s[k + 1..];
      assert s == a + "\n" + b;
      SnocAfterBreak(a, b, c);
      LinesSnoc(b, c);
      UpdateLast(Lines(a), Lines(b), Lines(b)[|Lines(b)| - 1] + [c]);
    }
  }

  lemma UpdateLast<T>(front: seq<T>, back: seq<T>, x: T)
    requires back != []
    ensures (front + back)[|front + back| - 1 := x] == front + back[|back| - 1 := x]
    ensures (front + back)[|front + back| - 1] == back[|back| - 1]
  {
  }

  lemma {:induction false} SnocAfterBreak(a: string, b: string, c: char)
    ensures Lines(a + "\n" + b + [c]) == Lines(a) + Lines(b + [c])
    ensures Lines(a + "\n" + b) == Lines(a) + Lines(b)
  {
    hide Lines;
    LinesAtBreak(a, b);
    LinesAtBreak(a, b + [c]);
    assert a + "\n" + b + [c] == a + "\n" + (b + [c]);
  }

  /** The location one character further on. */
  lemma {:induction false} NextLocation(source: string, k: nat)
    requires k < |source|
    ensures var here, next := LineAndColumnAt(source, k), LineAndColumnAt(source, k + 1);
            next == if source[k] == '\n' then Location(here.line + 1, 1) else Location(here.line, here.column + 1)
  {
    assert source[..k + 1] == source[..k] + [source[k]];
    LinesSnoc(source[..k], source[k]);
  }

  /** Lines and columns count from one. */
  lemma {:induction false} FirstLocation(source: string)
    ensures LineAndColumnAt(source, 0) == Location(1, 1)
  {
    OneLine("");
    assert source[..0] == "";
  }

  /** Later offsets have later locations, so no two offsets share one. */
  lemma {:induction false} LocationsIncrease(source: string, i: nat, j: nat)
    requires i < j <= |source|
    ensures Before(LineAndColumnAt(source, i), LineAndColumnAt(source, j))
    decreases j
  {
    NextLocation(source, j - 1);
    if i < j - 1 {
      LocationsIncrease(source, i, j - 1);
    }
  }

  /** A location found in the masked text is the location in the source. */
  lemma {:induction false} LocationsAgree(source: string, k: nat)
    requires k <= |source|
    ensures |MaskFrom(source, START)| == |source|
    ensures LineAndColumnAt(MaskFrom(source, START), k) == LineAndColumnAt(source, k)
  {
    MaskKeeps(source, START);
    SameLocations(source, MaskFrom(source, START), k);
  }

  lemma {:induction false} SameLocations(s: string, t: string, k: nat)
    requires BlankedCopy(s, t) && k <= |s|
    ensures LineAndColumnAt(t, k) == LineAndColumnAt(s, k)
  {
    hide Lines;
    if k == 0 {
      assert s[..0] == t[..0];
    } else {
      NextLocation(s, k - 1);
      NextLocation(t, k - 1);
      SameLocations(s, t, k - 1);
    }
  }
}
