/**
 * The masking loop itself, on its array, and what it does to every source text.
 */
module MaskerLoop {
  import opened Basics
  import opened Masker
  import opened MaskerGrammar
  import opened MaskerParser

  /** The lexical tree of a text. */
  function Tree(source: string): Code {
    Parse(source, None).0
  }

  // ---------------------------------------------------------------- what the loop computes

  /** The tree of a text prints that text. */
  lemma {:induction false} TreeOfText(source: string)
    ensures Lexed(Tree(source), None) && Print(Tree(source)) == source
  {
    ParsePrints(source, None);
    NotClosed(Tree(source));
    assert Print(Tree(source)) + "" == Print(Tree(source));
  }

  /** Nothing at top level closes an interpolation. */
  lemma NotClosed(code: Code)
    requires Lexed(code, None)
    ensures !Closed(code)
  {
  }

  /** Every text is the print of one lexical tree and no other. */
  lemma {:induction false} TreeIsUnique(source: string, code: Code)
    ensures Lexed(code, None) && Print(code) == source <==> code == Tree(source)
  {
    TreeOfText(source);
    if Lexed(code, None) && Print(code) == source {
      NotClosed(code);
      PrintParses(code, None, "");
      assert source + "" == source;
    }
  }

  /** Masking the print of a tree blanks exactly its non-code characters, and leaves the loop in the tree's end state. */
  lemma {:induction false} MaskOfPrint(code: Code)
    requires Lexed(code, None)
    ensures MaskFrom(Print(code), START) == Blanked(code)
    ensures EndState(Print(code), START) == After(code, None, [])
  {
    NotClosed(code);
    CodeRuns(code, None, [], "");
    assert Print(code) + "" == Print(code);
    assert [] + Level(None) == [];
  }

  /** So masking a text blanks exactly the non-code characters of its tree. */
  lemma {:induction false} MaskOfText(source: string)
    ensures Lexed(Tree(source), None)
    ensures MaskFrom(source, START) == Blanked(Tree(source))
    ensures EndState(source, START) == After(Tree(source), None, [])
  {
    TreeOfText(source);
    MaskOfPrint(Tree(source));
  }

  // ---------------------------------------------------------------- the loop

  /** The loop stands at index `k` of `s` in state `now`, having started in state `st`. */
  ghost predicate Reaches(s: string, st: State, k: nat, now: State)
    decreases |s|
  {
    if k == 0 then now == st
    else s != "" && Step(st, s).width <= k && Reaches(s[Step(st, s).width..], Step(st, s).state, k - Step(st, s).width, now)
  }

  lemma {:induction false} ReachesNext(s: string, st: State, k: nat, now: State)
    requires k < |s| && Reaches(s, st, k, now)
    ensures Reaches(s, st, k + Step(now, s[k..]).width, Step(now, s[k..]).state)
    decreases |s|
  {
    hide Step;
    if k == 0 {
      assert s[0..] == s;
    } else {
      var m := Step(st, s);
      ReachesNext(s[m.width..], m.state, k - m.width, now);
      assert s[m.width..][k - m.width..] == s[k..];
    }
  }

  /** The masked text splits at every index where the loop stands. */
  lemma {:induction false} MaskSplits(s: string, st: State, k: nat, now: State)
    requires k <= |s| && Reaches(s, st, k, now)
    ensures |MaskFrom(s, st)| == |s|
    ensures MaskFrom(s, st)[k..] == MaskFrom(s[k..], now)
    decreases |s|
  {
    hide Step;
    MaskLength(s, st);
    if k == 0 {
      assert s[0..] == s;
    } else {
      var m := Step(st, s);
      MaskSplits(s[m.width..], m.state, k - m.width, now);
      assert s[m.width..][k - m.width..] == s[k..];
      MaskLength(s[m.width..], m.state);
      var front := if m.visible then s[..m.width] else Blank(s[..m.width]);
      assert MaskFrom(s, st) == front + MaskFrom(s[m.width..], m.state);
      assert MaskFrom(s, st)[k..] == MaskFrom(s[m.width..], m.state)[k - m.width..];
    }
  }

  /** What the iteration at `k` leaves in the masked text. */
  lemma {:induction false} MaskHead(s: string, st: State, k: nat, now: State)
    requires k < |s| && Reaches(s, st, k, now)
    ensures |MaskFrom(s, st)| == |s|
    ensures var m := Step(now, s[k..]);
            && MaskFrom(s, st)[k] == (if m.visible then s[k] else BlankChar(s[k]))
            && (m.width == 2 ==> MaskFrom(s, st)[k + 1] == BlankChar(s[k + 1]))
  {
    hide Reaches;
    MaskSplits(s, st, k, now);
    var m := Step(now, s[k..]);
    var t := MaskFrom(s, st)[k..];
    assert t == (if m.visible then s[k..][..m.width] else Blank(s[k..][..m.width])) + MaskFrom(s[k..][m.width..], m.state);
    assert t[0] == MaskFrom(s, st)[k];
    if m.width == 2 {
      assert t[1] == MaskFrom(s, st)[k + 1];
    }
  }

  /** Where the loop stands depends only on the text before it: its state is the end state of that prefix. */
  lemma {:induction false} ReachesIsEndState(s: string, st: State, k: nat, now: State)
    requires k <= |s| && Reaches(s, st, k, now)
    ensures now == EndState(s[..k], st)
    decreases |s|
  {
    if k != 0 {
      var m := Step(st, s);
      assert Step(st, s[..k]) == m;
      assert s[..k][m.width..] == s[m.width..][..k - m.width];
      ReachesIsEndState(s[m.width..], m.state, k - m.width, now);
    }
  }

  lemma MaskLength(s: string, st: State)
    ensures |MaskFrom(s, st)| == |s|
    decreases |s|
  {
  }

  /** The body of the loop: one iteration at `index`. */
  method MaskStep(source: string, masked: array<char>, start: nat, st: State) returns (index: nat, now: State)
    requires start < |source| == masked.Length
    modifies masked
    ensures var m := Step(st, source[start..]);
            && now == m.state && index == start + m.width
            && masked[start] == (if m.visible then old(masked[start]) else BlankChar(old(masked[start])))
            && (m.width == 2 ==> masked[start + 1] == BlankChar(old(masked[start + 1])))
    ensures forall i :: 0 <= i < masked.Length && !(start <= i < index) ==> masked[i] == old(masked[i])
  {
    var State(mode, escaped, depths) := st;
    index := start;
    var character := source[index];
    var hasNext := index + 1 < |source|;
    var next := if hasNext then source[index + 1] else ' ';
    assert forall c :: HasNext(source[start..], c) <==> hasNext && next == c;

    if mode == LineComment {
      MaskAt(masked, index);
      if character == '\n' { mode := CodeText; }
    } else if mode == BlockComment {
      MaskAt(masked, index);
      if character == '*' && hasNext && next == '/' {
        MaskAt(masked, index + 1);
        mode := CodeText;
        index := index + 1;
      }
    } else if mode == SingleQuote || mode == DoubleQuote {
      MaskAt(masked, index);
      if escaped {
        escaped := false;
      } else if character == '\\' {
        escaped := true;
      } else if (mode == SingleQuote && character == '\'') || (mode == DoubleQuote && character == '\"') {
        mode := CodeText;
      }
    } else if mode == TemplateText {
      MaskAt(masked, index);
      if escaped {
        escaped := false;
      } else if character == '\\' {
        escaped := true;
      } else if character == '`' {
        mode := CodeText;
      } else if character == '$' && hasNext && next == '{' {
        MaskAt(masked, index + 1);
        depths := depths + [0];
        mode := CodeText;
        index := index + 1;
      }
    } else if character == '/' && hasNext && next == '/' {
      MaskAt(masked, index);
      MaskAt(masked, index + 1);
      mode := LineComment;
      index := index + 1;
    } else if character == '/' && hasNext && next == '*' {
      MaskAt(masked, index);
      MaskAt(masked, index + 1);
      mode := BlockComment;
      index := index + 1;
    } else if character == '\'' || character == '\"' {
      MaskAt(masked, index);
      escaped := false;
      mode := if character == '\'' then SingleQuote else DoubleQuote;
    } else if character == '`' {
      MaskAt(masked, index);
      escaped := false;
      mode := TemplateText;
    } else if |depths| > 0 && character == '{' {
      var depthIndex := |depths| - 1;
      depths := depths[depthIndex := depths[depthIndex] + 1];
    } else if |depths| > 0 && character == '}' {
      var depthIndex := |depths| - 1;
      if depths[depthIndex] == 0 {
        MaskAt(masked, index);
        depths := depths[..depthIndex];
        mode := TemplateText;
      } else {
        depths := depths[depthIndex := depths[depthIndex] - 1];
      }
    }
    index := index + 1;
    now := State(mode, escaped, depths);
  }

  /** The masker: the result is the text of the source's one lexical tree with all but its code characters blanked. */
  method MaskCommentsAndStrings(source: string) returns (result: string)
    ensures Lexed(Tree(source), None) && Print(Tree(source)) == source
    ensures result == Blanked(Tree(source))
  {
    hide Step, MaskFrom, Parse;
    var masked := new char[|source|](i requires 0 <= i < |source| => source[i]);
    var st := START;
    var index := 0;
    ghost var goal := MaskFrom(source, START);
    MaskLength(source, START);
    while index < |source|
      invariant 0 <= index <= |source|
      invariant Reaches(source, START, index, st)
      invariant forall i :: 0 <= i < index ==> masked[i] == goal[i]
      invariant forall i :: index <= i < |source| ==> masked[i] == source[i]
    {
      MaskHead(source, START, index, st);
      ReachesNext(source, START, index, st);
      index, st := MaskStep(source, masked, index, st);
    }
    result := masked[..];
    assert result == goal;
    MaskOfText(source);
    TreeOfText(source);
  }

  predicate EscapeOk(st: State) {
    st.escaped ==> QuoteMode(st.mode) || st.mode == TemplateText
  }

  lemma {:induction false} EscapeOnlyInText(s: string, st: State)
    requires EscapeOk(st)
    ensures EscapeOk(EndState(s, st))
    decreases |s|
  {
    if s != "" {
      EscapeOnlyInText(s[Step(st, s).width..], Step(st, s).state);
    }
  }

  /**
   * At the head of every iteration, for every source: the stack holds the open-brace count of
   * each interpolation that is open there, and the escape flag is set only inside quoted or template text.
   */
  lemma {:induction false} LoopInvariant(source: string, k: nat, now: State)
    requires k <= |source| && Reaches(source, START, k, now)
    ensures now.depths == BraceCounts(OpenIn(Tree(source[..k])))
    ensures EscapeOk(now)
  {
    ReachesIsEndState(source, START, k, now);
    MaskOfText(source[..k]);
    NotClosed(Tree(source[..k]));
    DepthsCountBraces(Tree(source[..k]), None, []);
    EscapeOnlyInText(source[..k], START);
  }
}
