/**
 * When the masker and the bracket scanner agree on sources with template interpolations: where
 * the scanner ends every template with itself, and the brackets that masking leaves visible
 * in each template are balanced.
 */
module Interpolations {
  import opened Basics
  import opened Masker
  import opened MaskerGrammar
  import opened MaskerParser
  import opened MaskerLoop
  import opened MaskedText
  import opened Delimiters
  import opened StaticStrings
  import opened TemplateScan

  // ---------------------------------------------------------------- brackets across a template

  /** As many closing as opening brackets, and never more of them in any prefix. */
  ghost predicate Balanced(w: string, opening: char, closing: char) {
    Net(w, opening, closing) == 0 && NeverNegative(w, opening, closing)
  }

  ghost predicate NeverNegative(w: string, opening: char, closing: char) {
    forall k :: 0 <= k <= |w| ==> Net(w[..k], opening, closing) >= 0
  }

  /** The text can stand anywhere inside a call without moving its end. */
  ghost predicate Transparent(w: string, opening: char, closing: char) {
    forall t, depth: int :: 1 <= depth ==> NaiveEnd(w + t, depth, opening, closing) == Later(NaiveEnd(t, depth, opening, closing), |w|)
  }

  lemma {:induction false} CountPiece(w: string, t: string, depth: int, opening: char, closing: char)
    ensures NaiveEnd(w + t, depth, opening, closing) ==
            if NaiveEnd(w, depth, opening, closing).Some? then NaiveEnd(w, depth, opening, closing)
            else Later(NaiveEnd(t, depth + Net(w, opening, closing), opening, closing), |w|)
  {
    if w == "" {
      assert w + t == t;
    } else {
      assert (w + t)[1..] == w[1..] + t;
      CountPiece(w[1..], t, DepthAfter(w[0], depth, opening, closing), opening, closing);
    }
  }

  /** A count finds no end exactly when the depth stays positive throughout. */
  lemma {:induction false} NoEndStaysPositive(w: string, depth: int, opening: char, closing: char)
    requires Brackets(opening, closing) && 1 <= depth
    ensures NaiveEnd(w, depth, opening, closing).None? <==> forall k :: 0 <= k <= |w| ==> depth + Net(w[..k], opening, closing) >= 1
  {
    if w != "" {
      var depth' := DepthAfter(w[0], depth, opening, closing);
      assert w[..0] == "" && w[..1][1..] == "" && w[1..][..0] == "";
      NetStep(w, 1, opening, closing);
      if depth' >= 1 {
        NoEndStaysPositive(w[1..], depth', opening, closing);
        forall k | 0 <= k < |w|
          ensures depth' + Net(w[1..][..k], opening, closing) == depth + Net(w[..k + 1], opening, closing)
        {
          NetStep(w, k + 1, opening, closing);
        }
        forall k | 1 <= k <= |w|
          ensures depth + Net(w[..k], opening, closing) == depth' + Net(w[1..][..k - 1], opening, closing)
        {
          NetStep(w, k, opening, closing);
        }
      }
    }
  }

  /** A piece of text moves the end of no call around it if and only if its brackets are balanced. */
  lemma {:induction false} TransparentIsBalanced(w: string, opening: char, closing: char)
    requires Brackets(opening, closing)
    ensures Transparent(w, opening, closing) <==> Balanced(w, opening, closing)
  {
    hide NaiveEnd, Balanced;
    if Transparent(w, opening, closing) {
      TransparentMeansBalanced(w, opening, closing);
    }
    if Balanced(w, opening, closing) {
      forall t, depth: int | 1 <= depth
        ensures NaiveEnd(w + t, depth, opening, closing) == Later(NaiveEnd(t, depth, opening, closing), |w|)
      {
        BalancedSkipped(w, t, depth, opening, closing);
      }
    }
  }

  lemma {:induction false} BalancedSkipped(w: string, t: string, depth: int, opening: char, closing: char)
    requires Brackets(opening, closing) && 1 <= depth && Balanced(w, opening, closing)
    ensures NaiveEnd(w + t, depth, opening, closing) == Later(NaiveEnd(t, depth, opening, closing), |w|)
  {
    hide NaiveEnd;
    NoEndStaysPositive(w, depth, opening, closing);
    CountPiece(w, t, depth, opening, closing);
  }

  /** A transparent text ends no call, and closes as many brackets as it opens. */
  lemma {:induction false} TransparentMeansBalanced(w: string, opening: char, closing: char)
    requires Brackets(opening, closing)
    requires NaiveEnd(w + "", 1, opening, closing) == Later(NaiveEnd("", 1, opening, closing), |w|)
    requires NaiveEnd(w + [closing], 1, opening, closing) == Later(NaiveEnd([closing], 1, opening, closing), |w|)
    ensures Balanced(w, opening, closing)
  {
    hide NaiveEnd;
    NothingCounted(opening, closing);
    NoEndStaysPositive(w, 1, opening, closing);
    assert w + "" == w && w[..|w|] == w;
    assert 1 + Net(w[..|w|], opening, closing) >= 1;
    CountPiece(w, [closing], 1, opening, closing);
    OneClosing(1, opening, closing);
    OneClosing(1 + Net(w, opening, closing), opening, closing);
  }

  lemma NothingCounted(opening: char, closing: char)
    ensures NaiveEnd("", 1, opening, closing) == None
  {
  }

  lemma OneClosing(depth: int, opening: char, closing: char)
    requires Brackets(opening, closing)
    ensures NaiveEnd([closing], depth, opening, closing) == if depth == 1 then Some(1) else None
  {
    assert [closing][1..] == "";
  }

  /** The brackets that masking leaves visible in each template of this level that starts before offset `n` are balanced. */
  ghost predicate TemplatesBalanced(code: Code, n: int, opening: char, closing: char) {
    n <= 0 ||
    match code
    case Char(_, rest) => TemplatesBalanced(rest, n - 1, opening, closing)
    case Opaque(lexeme, rest) => TemplatesBalanced(rest, n - |PrintLexeme(lexeme)|, opening, closing)
    case Template(parts, rest) =>
      Balanced(BlankedParts(parts), opening, closing) && TemplatesBalanced(rest, n - 1 - |PrintParts(parts)|, opening, closing)
    case UnfinishedTemplate(parts) => NeverNegative(BlankedParts(parts), opening, closing)
    case _ => true
  }

  /** The count ends before offset `n`, or finds no end in code that goes on to the end of the file and is known to `n`. */
  predicate Decided(r: Option<nat>, code: Code, n: int) {
    if r.Some? then r.value <= n else !Closed(code) && |Print(code)| <= n
  }

  /** Then counting on the text without interpolations finds the end that counting on the masked text finds. */
  lemma {:induction false} CountsAgree(code: Code, depth: int, n: int, opening: char, closing: char)
    requires Brackets(opening, closing) && 1 <= depth && TemplatesBalanced(code, n, opening, closing)
    requires Decided(NaiveEnd(Blanked(code), depth, opening, closing), code, n)
    ensures NaiveEnd(Outer(code), depth, opening, closing) == NaiveEnd(Blanked(code), depth, opening, closing)
    decreases code
  {
    hide Balanced, NeverNegative, PrintParts, BlankedParts, PrintLexeme, NaiveEnd, Blank;
    EndIsPositive(Blanked(code), depth, opening, closing);
    match code
    case Eof =>
    case CloseInterp => BlankHasNoEnd(depth, opening, closing);
    case Char(c, rest) =>
      CountChar(c, Outer(rest), depth, opening, closing);
      CountChar(c, Blanked(rest), depth, opening, closing);
      if !(c == closing && DepthAfter(c, depth, opening, closing) == 0) {
        CountsAgree(rest, DepthAfter(c, depth, opening, closing), n - 1, opening, closing);
      }
    case Opaque(l, rest) =>
      BlanksDoNotCount(PrintLexeme(l), Outer(rest), depth, opening, closing);
      BlanksDoNotCount(PrintLexeme(l), Blanked(rest), depth, opening, closing);
      CountsAgree(rest, depth, n - |PrintLexeme(l)|, opening, closing);
    case Template(parts, rest) =>
      TemplateSkipped(parts, Outer(rest), Blanked(rest), depth, opening, closing);
      CountsAgree(rest, depth, n - 1 - |PrintParts(parts)|, opening, closing);
    case Unfinished(_, _) =>
    case UnfinishedTemplate(parts) => UnfinishedSkipped(parts, depth, opening, closing);
  }

  lemma BlankHasNoEnd(depth: int, opening: char, closing: char)
    requires Brackets(opening, closing)
    ensures NaiveEnd(" ", depth, opening, closing) == None
  {
    assert " "[1..] == "";
  }

  lemma CountChar(c: char, t: string, depth: int, opening: char, closing: char)
    ensures NaiveEnd([c] + t, depth, opening, closing) ==
            var depth' := DepthAfter(c, depth, opening, closing);
            if c == closing && depth' == 0 then Some(1) else Later(NaiveEnd(t, depth', opening, closing), 1)
  {
    assert ([c] + t)[1..] == t;
  }

  lemma {:induction false} EndIsPositive(t: string, depth: int, opening: char, closing: char)
    ensures var r := NaiveEnd(t, depth, opening, closing); r.Some? ==> 0 < r.value <= |t|
  {
    if t != "" {
      EndIsPositive(t[1..], DepthAfter(t[0], depth, opening, closing), opening, closing);
    }
  }

  /** A count depends on the text up to its end only. */
  lemma {:induction false} CountOfSame(a: string, b: string, n: int, depth: int, opening: char, closing: char)
    requires SameUpTo(a, b, n)
    requires var r := NaiveEnd(a, depth, opening, closing); if r.Some? then r.value <= n else |a| <= n
    ensures NaiveEnd(b, depth, opening, closing) == NaiveEnd(a, depth, opening, closing)
  {
    EndIsPositive(a, depth, opening, closing);
    if a != "" && !(a[0] == closing && DepthAfter(a[0], depth, opening, closing) == 0) {
      assert a[0] == b[0];
      CountOfSame(a[1..], b[1..], n - 1, DepthAfter(a[0], depth, opening, closing), opening, closing);
    }
  }

  lemma {:induction false} TemplateSkipped(parts: Parts, t: string, t': string, depth: int, opening: char, closing: char)
    requires Brackets(opening, closing) && 1 <= depth && Balanced(BlankedParts(parts), opening, closing)
    ensures NaiveEnd(Blank("`" + PrintParts(parts)) + t, depth, opening, closing) ==
            Later(NaiveEnd(t, depth, opening, closing), 1 + |PrintParts(parts)|)
    ensures NaiveEnd(" " + BlankedParts(parts) + t', depth, opening, closing) ==
            Later(NaiveEnd(t', depth, opening, closing), 1 + |PrintParts(parts)|)
  {
    hide Balanced, NaiveEnd, Blank;
    var w := BlankedParts(parts);
    BlanksDoNotCount("`" + PrintParts(parts), t, depth, opening, closing);
    BalancedSkipped(w, t', depth, opening, closing);
    TemplateLength(parts);
    AppendAssoc(" ", w, t');
    OneBlank(w + t', depth, opening, closing);
  }

  lemma OneBlank(t: string, depth: int, opening: char, closing: char)
    requires Brackets(opening, closing)
    ensures NaiveEnd(" " + t, depth, opening, closing) == Later(NaiveEnd(t, depth, opening, closing), 1)
  {
    assert (" " + t)[1..] == t;
  }

  lemma {:induction false} UnfinishedSkipped(parts: Parts, depth: int, opening: char, closing: char)
    requires Brackets(opening, closing) && 1 <= depth && NeverNegative(BlankedParts(parts), opening, closing)
    ensures NaiveEnd(Blank("`" + PrintParts(parts)), depth, opening, closing) == None
    ensures NaiveEnd(" " + BlankedParts(parts), depth, opening, closing) == None
  {
    var text := "`" + PrintParts(parts);
    BlanksDoNotCount(text, "", depth, opening, closing);
    assert Blank(text) + "" == Blank(text);
    NoEndStaysPositive(BlankedParts(parts), depth, opening, closing);
    OneBlank(BlankedParts(parts), depth, opening, closing);
  }

  // ---------------------------------------------------------------- the ends agree

  /** Where a character is visible, the masker stands in code. */
  lemma {:induction false} VisibleMeansCode(s: string, st: State, k: nat) returns (now: State)
    requires |MaskFrom(s, st)| == |s| && k < |s| && !BlankLike(MaskFrom(s, st)[k])
    ensures Reaches(s, st, k, now) && now.mode == CodeText
    decreases |s|
  {
    hide Step;
    var m := Step(st, s);
    MaskLength(s[m.width..], m.state);
    if k == 0 {
      now := st;
      FirstVisible(s, st);
    } else {
      VisibleLater(s, st, k);
      now := VisibleMeansCode(s[m.width..], m.state, k - m.width);
    }
  }

  lemma {:induction false} FirstVisible(s: string, st: State)
    requires s != "" && |MaskFrom(s, st)| == |s| && !BlankLike(MaskFrom(s, st)[0])
    ensures st.mode == CodeText
  {
    var m := Step(st, s);
    var front := if m.visible then s[..m.width] else Blank(s[..m.width]);
    assert MaskFrom(s, st)[0] == front[0];
  }

  lemma {:induction false} VisibleLater(s: string, st: State, k: nat)
    requires 0 < k < |s| && |MaskFrom(s, st)| == |s| && !BlankLike(MaskFrom(s, st)[k])
    ensures var m := Step(st, s);
            m.width <= k && |MaskFrom(s[m.width..], m.state)| == |s| - m.width && !BlankLike(MaskFrom(s[m.width..], m.state)[k - m.width])
  {
    var m := Step(st, s);
    MaskLength(s[m.width..], m.state);
    var front := if m.visible then s[..m.width] else Blank(s[..m.width]);
    assert MaskFrom(s, st) == front + MaskFrom(s[m.width..], m.state);
    assert forall i :: 0 <= i < |front| ==> MaskFrom(s, st)[i] == front[i];
  }

  /** The open braces of the interpolation that the loop stands in. */
  function OpenBraces(depths: seq<nat>): Option<nat> {
    if depths == [] then None else Some(depths[|depths| - 1])
  }

  /** The code that follows offset `k`, up to the end of the interpolation it stands in or of the file. */
  function CodeFrom(source: string, k: nat): Code
    requires k <= |source|
  {
    Parse(source[k..], OpenBraces(EndState(source[..k], START).depths)).0
  }

  /** From a visible character on, the scanner sees the code without its templates, and the masker leaves it with their interpolations. */
  lemma {:induction false} BothFrom(source: string, k: nat, n: int) returns (seen: string, masked: string)
    requires |MaskFrom(source, START)| == |source| && k < |source| && !BlankLike(MaskFrom(source, START)[k])
    requires Whole(CodeFrom(source, k), n)
    ensures var code := CodeFrom(source, k);
            && code != Eof
            && SameUpTo(Seen(source, k), Outer(code) + seen, n) && MaskFrom(source, START)[k..] == Blanked(code) + masked
            && (!Closed(code) ==> seen == "" && masked == "")
  {
    hide Parse, MaskFrom, EndState, SeenFrom, Step, Reaches, Outer, Blanked, Whole, SameUpTo;
    var now := VisibleMeansCode(source, START, k);
    ReachesIsEndState(source, START, k, now);
    EscapeOnlyInText(source[..k], START);
    MaskSplits(source, START, k, now);
    var open := OpenBraces(now.depths);
    var outer := if now.depths == [] then [] else now.depths[..|now.depths| - 1];
    assert now == State(CodeText, false, outer + Level(open));
    var (code, r) := Parse(source[k..], open);
    ParsePrints(source[k..], open);
    OuterSeen(code, open, r, n);
    CodeRuns(code, open, outer, r);
    seen, masked := SeenFrom(r, NEUTRAL), MaskFrom(r, After(code, open, outer));
    NothingLeft();
    assert code == Eof ==> Print(code) + r == "";
  }

  lemma NothingLeft()
    ensures SeenFrom("", NEUTRAL) == "" && forall st :: MaskFrom("", st) == ""
  {
  }

  /** The end that a naive counter finds on the masked text for the bracket at `k`, counted from `k`. */
  function MaskedEnd(source: string, k: nat, opening: char, closing: char): Option<nat> {
    if k <= |MaskFrom(source, START)| then NaiveEnd(MaskFrom(source, START)[k..], 0, opening, closing) else None
  }

  /** How much of the text decides it: up to the end, or everything. */
  function SpanOf(source: string, k: nat, opening: char, closing: char): int {
    var r := MaskedEnd(source, k, opening, closing);
    if r.Some? then r.value else |source| - k
  }

  /**
   * From any bracket that survives masking, at any depth of interpolations, the scanner finds the end that a naive
   * counter finds on the masked text, provided that the templates of its level that start before that end hold no
   * unescaped backquote in their interpolations and only balanced brackets, and that a call inside an interpolation
   * ends in it.
   */
  lemma {:induction false} EndsAgree(source: string, k: nat, opening: char, closing: char)
    requires Brackets(opening, closing)
    requires |MaskFrom(source, START)| == |source| && k < |source| && MaskFrom(source, START)[k] == opening
    requires var span := SpanOf(source, k, opening, closing);
             Whole(CodeFrom(source, k), span) && TemplatesBalanced(CodeFrom(source, k), span, opening, closing)
    requires Closed(CodeFrom(source, k)) ==>
               var r := MaskedEnd(source, k, opening, closing); r.Some? && r.value <= |Print(CodeFrom(source, k))|
    ensures EndOf(source, k, opening, closing) == Later(MaskedEnd(source, k, opening, closing), k)
  {
    hide Whole, CodeFrom, SeenFrom, MaskFrom, TemplatesBalanced, SameUpTo;
    var code, span := CodeFrom(source, k), SpanOf(source, k, opening, closing);
    var seen, masked := BothFrom(source, k, span);
    CodeLength(code);
    SeenLength(source[k..], NEUTRAL);
    EndInside(Blanked(code), masked, opening, closing);
    assert (Blanked(code) + masked)[0] == opening;
    assert Blanked(code) + "" == Blanked(code) && Outer(code) + "" == Outer(code);
    FirstBracket(code, span, opening, closing);
    CountPiece(Outer(code), seen, 0, opening, closing);
    SameLength(Seen(source, k), Outer(code) + seen, span);
    CountOfSame(Outer(code) + seen, Seen(source, k), span, 0, opening, closing);
  }

  lemma EndInside(w: string, t: string, opening: char, closing: char)
    ensures var r := NaiveEnd(w + t, 0, opening, closing);
            r.Some? && r.value <= |w| ==> NaiveEnd(w, 0, opening, closing) == r
  {
    CountPiece(w, t, 0, opening, closing);
    EndIsPositive(t, 0 + Net(w, opening, closing), opening, closing);
  }

  lemma SameLength(a: string, b: string, n: int)
    requires SameUpTo(a, b, n)
    ensures |a| == |b| && SameUpTo(b, a, n)
  {
  }

  lemma {:induction false} FirstBracket(code: Code, n: int, opening: char, closing: char)
    requires Brackets(opening, closing) && TemplatesBalanced(code, n, opening, closing) && 0 < n
    requires Blanked(code) != "" && Blanked(code)[0] == opening
    requires Decided(NaiveEnd(Blanked(code), 0, opening, closing), code, n)
    ensures NaiveEnd(Outer(code), 0, opening, closing) == NaiveEnd(Blanked(code), 0, opening, closing)
  {
    match code
    case Char(c, rest) =>
      assert ([c] + Outer(rest))[1..] == Outer(rest) && ([c] + Blanked(rest))[1..] == Blanked(rest);
      CountsAgree(rest, 1, n - 1, opening, closing);
    case _ =>
  }

  /** The whole text: what the scanner sees is the masked text with the interpolations blanked too. */
  lemma {:induction false} SeenFromStart(source: string)
    requires Whole(Tree(source), |source|)
    ensures Seen(source, 0) == Outer(Tree(source)) && BlankedCopy(MaskFrom(source, START), Outer(Tree(source)))
  {
    hide Whole, SeenFrom, MaskFrom;
    var code := Tree(source);
    MaskOfText(source);
    TreeOfText(source);
    NotClosed(code);
    CodeLength(code);
    OuterSeen(code, None, "", |source|);
    NothingLeft();
    assert Print(code) + "" == source && source[0..] == source && Outer(code) + "" == Outer(code);
    OuterBlanksMore(code);
  }

  lemma BlankTwice(s: string)
    ensures Blank(Blank(s)) == Blank(s)
  {
  }

  lemma {:induction false} SameBlanks(parts: Parts)
    ensures Blank(BlankedParts(parts)) == Blank(PrintParts(parts))
    decreases parts
  {
    match parts
    case CloseTemplate =>
    case Text(g, rest) =>
      SameBlanks(rest);
      BlankTwice(PrintGlyph(g));
      BlankConcat(Blank(PrintGlyph(g)), BlankedParts(rest));
      BlankConcat(PrintGlyph(g), PrintParts(rest));
    case Interp(code, rest) =>
      SameBlanks(rest);
      SameCodeBlanks(code);
      BlankConcat("  " + Blanked(code), BlankedParts(rest));
      BlankConcat("${" + Print(code), PrintParts(rest));
      BlankConcat("  ", Blanked(code));
      BlankConcat("${", Print(code));
      assert Blank("${") == Blank("  ");
    case OpenInterp(code) =>
      SameCodeBlanks(code);
      BlankConcat("  ", Blanked(code));
      BlankConcat("${", Print(code));
      assert Blank("${") == Blank("  ");
    case OpenText(dangling) => BlankTwice(Slash(dangling));
  }

  lemma {:induction false} SameCodeBlanks(code: Code)
    ensures Blank(Blanked(code)) == Blank(Print(code))
    decreases code
  {
    match code
    case Char(c, rest) =>
      SameCodeBlanks(rest);
      BlankConcat([c], Blanked(rest));
      BlankConcat([c], Print(rest));
    case Opaque(l, rest) =>
      SameCodeBlanks(rest);
      BlankTwice(PrintLexeme(l));
      BlankConcat(Blank(PrintLexeme(l)), Blanked(rest));
      BlankConcat(PrintLexeme(l), Print(rest));
    case Template(parts, rest) =>
      SameBlanks(parts);
      SameCodeBlanks(rest);
      BlankConcat(" " + BlankedParts(parts), Blanked(rest));
      BlankConcat("`" + PrintParts(parts), Print(rest));
      BlankConcat(" ", BlankedParts(parts));
      BlankConcat("`", PrintParts(parts));
    case Unfinished(l, dangling) => BlankTwice(Head(l) + Slash(dangling));
    case UnfinishedTemplate(parts) =>
      SameBlanks(parts);
      BlankConcat(" ", BlankedParts(parts));
      BlankConcat("`", PrintParts(parts));
    case _ =>
  }

  lemma {:induction false} TemplateBlanksMore(parts: Parts)
    ensures BlankedCopy(" " + BlankedParts(parts), Blank("`" + PrintParts(parts)))
  {
    var w := " " + BlankedParts(parts);
    SameBlanks(parts);
    BlankConcat(" ", BlankedParts(parts));
    BlankConcat("`", PrintParts(parts));
    assert Blank("`" + PrintParts(parts)) == Blank(w);
  }

  lemma {:induction false} OuterBlanksMore(code: Code)
    requires !Closed(code)
    ensures BlankedCopy(Blanked(code), Outer(code))
    decreases code
  {
    hide BlankedCopy;
    match code
    case Char(c, rest) =>
      OuterBlanksMore(rest);
      SameText([c], 0);
      BlankedConcat([c], [c], Blanked(rest), Outer(rest));
    case Opaque(l, rest) =>
      OuterBlanksMore(rest);
      SameText(Blank(PrintLexeme(l)), 0);
      BlankedConcat(Blank(PrintLexeme(l)), Blank(PrintLexeme(l)), Blanked(rest), Outer(rest));
    case Template(parts, rest) =>
      OuterBlanksMore(rest);
      TemplateBlanksMore(parts);
      BlankedConcat(" " + BlankedParts(parts), Blank("`" + PrintParts(parts)), Blanked(rest), Outer(rest));
    case UnfinishedTemplate(parts) => TemplateBlanksMore(parts);
    case _ => SameText(Blanked(code), 0);
  }

  // ---------------------------------------------------------------- unbalanced interpolations

  /** A call whose argument is a template with a closing bracket as its interpolation. */
  function UnbalancedCall(): Code {
    Char('(', Template(Interp(Char(')', CloseInterp), CloseTemplate), Char(')', Eof)))
  }

  /** Balance is needed: here the scanner sees no stray backquote, and still the ends differ. */
  lemma {:induction false} UnbalancedDisagrees()
    ensures var source := Print(UnbalancedCall());
            && Tree(source) == UnbalancedCall() && Whole(UnbalancedCall(), |source|)
            && MaskedEnd(source, 0, '(', ')') == Some(5)
            && EndOf(source, 0, '(', ')') == Some(8)
  {
    hide MaskFrom, SeenFrom, Print, Parse;
    var source := Print(UnbalancedCall());
    UnbalancedIsWhole(|source|);
    TreeIsUnique(source, UnbalancedCall());
    MaskOfPrint(UnbalancedCall());
    SeenFromStart(source);
    assert source[0..] == source && Blanked(UnbalancedCall())[0..] == Blanked(UnbalancedCall());
    UnbalancedEnds();
  }

  lemma {:induction false} UnbalancedIsWhole(n: int)
    ensures Whole(UnbalancedCall(), n) && Lexed(UnbalancedCall(), None)
  {
    assert Print(Char(')', CloseInterp)) == [')', '}'];
    assert [')', '}'][1..] == ['}'] && ['}'][1..] == "";
    assert CloseAt(['}'], false, '`') == None;
    assert CloseAt([')', '}'], false, '`') == None;
    var parts := Interp(Char(')', CloseInterp), CloseTemplate);
    assert Quiet(parts);
    var m := n - 2 - |PrintParts(parts)|;
    assert Whole(Eof, m - 1) && Whole(Char(')', Eof), m);
    assert Whole(Template(parts, Char(')', Eof)), n - 1);
  }

  lemma {:induction false} UnbalancedEnds()
    ensures NaiveEnd(Blanked(UnbalancedCall()), 0, '(', ')') == Some(5)
    ensures NaiveEnd(Outer(UnbalancedCall()), 0, '(', ')') == Some(8)
  {
    hide NaiveEnd, Blank, Net;
    UnbalancedMasked();
    UnbalancedOuter();
    OneClosing(1, '(', ')');
    BlanksDoNotCount("      ", ")", 1, '(', ')');
    OneOpening(Blank("      ") + ")");
    BlanksDoNotCount("   ", ")  )", 1, '(', ')');
    CountPiece(")", "  )", 1, '(', ')');
    assert ")" + "  )" == ")  )";
    OneOpening(Blank("   ") + ")  )");
  }

  lemma OneOpening(t: string)
    ensures NaiveEnd("(" + t, 0, '(', ')') == Later(NaiveEnd(t, 1, '(', ')'), 1)
  {
    assert ("(" + t)[1..] == t;
  }

  lemma {:induction false} UnbalancedMasked()
    ensures Blanked(UnbalancedCall()) == "(" + (Blank("   ") + ")  )")
  {
    var parts := Interp(Char(')', CloseInterp), CloseTemplate);
    assert Blanked(Char(')', CloseInterp)) == ") ";
    assert BlankedParts(parts) == "  )  ";
    assert Blanked(Char(')', Eof)) == ")";
    assert Blank("   ") == "   ";
  }

  lemma {:induction false} UnbalancedOuter()
    ensures Outer(UnbalancedCall()) == "(" + (Blank("      ") + ")")
  {
    var parts := Interp(Char(')', CloseInterp), CloseTemplate);
    assert Print(Char(')', CloseInterp)) == ")}";
    assert PrintParts(parts) == "${)}`";
    SixBlanks();
    hide Blank, PrintParts;
    assert Outer(Char(')', Eof)) == ")";
  }

  lemma SixBlanks()
    ensures Blank("`" + "${)}`") == Blank("      ")
  {
  }

  // ---------------------------------------------------------------- errors that cancel

  /** A call whose argument is a template with an empty template as its interpolation. */
  function NestedEmptyCall(): Code {
    Char('(', Template(Interp(Template(CloseTemplate, CloseInterp), CloseTemplate), Char(')', Eof)))
  }

  /** The condition on backquotes is not necessary for a call: here the scanner takes one template for two strings and still finds the end. */
  lemma {:induction false} ErrorsCancel()
    ensures var source := Print(NestedEmptyCall());
            && Tree(source) == NestedEmptyCall() && !Whole(NestedEmptyCall(), |source|)
            && MaskedEnd(source, 0, '(', ')') == EndOf(source, 0, '(', ')') == Some(9)
  {
    hide MaskFrom, SeenFrom, Print, Blanked, Parse, NaiveEnd, Blank, NestedEmptyCall, Whole, Lexed;
    var source, t := Print(NestedEmptyCall()), "(" + (Blank("       ") + ")");
    NestedEmptyPrinted();
    NestedEmptyBlanked();
    NestedEmptyIsNotWhole();
    TreeIsUnique(source, NestedEmptyCall());
    MaskOfPrint(NestedEmptyCall());
    TwoStringsInCall();
    SevenInCall();
    assert source[0..] == source && t[0..] == t;
  }

  lemma {:induction false} NestedEmptyPrinted()
    ensures Print(NestedEmptyCall()) == "(" + ("`${`" + ("`}`" + ")"))
    ensures |Print(NestedEmptyCall())| == 9
  {
    var code := Template(CloseTemplate, CloseInterp);
    assert PrintParts(CloseTemplate) == "`" && Print(CloseInterp) == "}" && Print(code) == "``}";
    assert PrintParts(Interp(code, CloseTemplate)) == "${``}`";
    assert Print(Char(')', Eof)) == ")";
  }

  lemma {:induction false} NestedEmptyBlanked()
    ensures Blanked(NestedEmptyCall()) == "(" + (Blank("       ") + ")")
  {
    var code := Template(CloseTemplate, CloseInterp);
    assert Blanked(code) == "   ";
    assert BlankedParts(Interp(code, CloseTemplate)) == "      ";
    assert Blanked(Char(')', Eof)) == ")";
    assert Blank("       ") == "       ";
  }

  /** Seven blanks between two brackets. */
  lemma {:induction false} SevenInCall()
    ensures NaiveEnd("(" + (Blank("       ") + ")"), 0, '(', ')') == Some(9)
  {
    hide NaiveEnd, Blank;
    OneClosing(1, '(', ')');
    BlanksDoNotCount("       ", ")", 1, '(', ')');
    OneOpening(Blank("       ") + ")");
  }

  lemma {:induction false} TwoStringsInCall()
    ensures SeenFrom("(" + ("`${`" + ("`}`" + ")")), NEUTRAL) == "(" + (Blank("       ") + ")")
  {
    hide SeenFrom, Blank;
    SeenStep("(", "`${`" + ("`}`" + ")"), NEUTRAL);
    TwoStringsSeen();
  }

  lemma {:induction false} NestedEmptyIsNotWhole()
    ensures Lexed(NestedEmptyCall(), None) && !Whole(NestedEmptyCall(), 9)
  {
    var code := Template(CloseTemplate, CloseInterp);
    assert Print(code) == "``}";
    assert CloseAt(Print(code), false, '`') == Some(0);
    assert !Quiet(Interp(code, CloseTemplate));
  }

  /** A string between backquotes that the scanner closes. */
  lemma {:induction false} StringSeen(text: string, r: string)
    requires CloseAt(text + ("`" + r), false, '`') == Some(|text|)
    ensures SeenFrom("`" + text + "`" + r, NEUTRAL) == Blank("`" + text + "`") + SeenFrom(r, NEUTRAL)
  {
    hide SeenFrom, CloseAt, Blank;
    var t := text + ("`" + r);
    SeenStep("`", t, NEUTRAL);
    QuoteSeen(t, false, '`');
    assert t[..|text| + 1] == text + "`" && t[|text| + 1..] == r;
    BlankConcat("`", text + "`");
    assert "`" + (text + "`") == "`" + text + "`" && "`" + t == "`" + text + "`" + r;
    AppendAssoc(Blank("`"), Blank(text + "`"), SeenFrom(r, NEUTRAL));
  }

  lemma {:induction false} TwoStringsSeen()
    ensures SeenFrom("`${`" + ("`}`" + ")"), NEUTRAL) == Blank("       ") + ")"
  {
    hide SeenFrom, CloseAt;
    var rest := "`}`" + ")";
    ClosingBackquote(rest);
    OpeningDoesNotClose("`" + rest);
    StringSeen("${", rest);
    ClosingBackquote(")");
    CloseStep('}', "`" + ")", false, '`');
    StringSeen("}", ")");
    SeenStep(")", "", NEUTRAL);
    NothingLeft();
    BlankConcat("`${`", "`}`");
    SevenBlanks();
    assert "`" + "${" + "`" == "`${`" && "`" + "}" + "`" == "`}`";
    assert ")" + "" == ")";
    AppendAssoc(Blank("`${`"), Blank("`}`"), ")");
  }

  lemma SevenBlanks()
    ensures Blank("`${`" + "`}`") == Blank("       ")
  {
  }
}
