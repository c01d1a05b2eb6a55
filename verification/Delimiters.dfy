/**
 * The checker's second scanner: finding the end of a call from its opening bracket.  It keeps
 * its own quote, escape and comment flags, and knows nothing of template interpolations.
 */
module Delimiters {
  import opened Basics
  import opened Masker
  import opened MaskerGrammar
  import opened MaskerParser
  import opened MaskerLoop
  import opened MaskedText

  /** The scanner's flags at the head of an iteration. */
  datatype Flags = Flags(quote: Option<char>, escaped: bool, lineComment: bool, blockComment: bool)

  datatype Scan = Scan(flags: Flags, width: nat, code: bool)

  const NEUTRAL := Flags(None, false, false, false)

  function ScanStep(f: Flags, s: string): (m: Scan)
    requires s != ""
    ensures 1 <= m.width <= 2 && m.width <= |s|
    ensures m.code ==> m.width == 1
  {
    var c := s[0];
    if f.lineComment then Scan(if c == '\n' then f.(lineComment := false) else f, 1, false)
    else if f.blockComment then
      if c == '*' && HasNext(s, '/') then Scan(f.(blockComment := false), 2, false) else Scan(f, 1, false)
    else if f.quote.Some? then
      if f.escaped then Scan(f.(escaped := false), 1, false)
      else if c == '\\' then Scan(f.(escaped := true), 1, false)
      else if c == f.quote.value then Scan(f.(quote := None), 1, false)
      else Scan(f, 1, false)
    else if c == '/' && HasNext(s, '/') then Scan(f.(lineComment := true), 2, false)
    else if c == '/' && HasNext(s, '*') then Scan(f.(blockComment := true), 2, false)
    else if Quoting(c) then Scan(f.(quote := Some(c)), 1, false)
    else Scan(f, 1, true)
  }

  /** The text as this scanner sees it: everything it does not take for code is blanked. */
  function SeenFrom(s: string, f: Flags): string
    decreases |s|
  {
    if s == "" then "" else
      var m := ScanStep(f, s);
      (if m.code then s[..m.width] else Blank(s[..m.width])) + SeenFrom(s[m.width..], m.flags)
  }

  function DepthAfter(c: char, depth: int, opening: char, closing: char): int {
    depth + (if c == opening then 1 else 0) - (if c == closing then 1 else 0)
  }

  function Later(r: Option<nat>, k: nat): Option<nat> {
    if r.None? then None else Some(r.value + k)
  }

  /** A naive bracket counter: the end of the shortest prefix whose last character closes the bracket opened first. */
  function NaiveEnd(t: string, depth: int, opening: char, closing: char): Option<nat> {
    if t == "" then None
    else if t[0] == closing && DepthAfter(t[0], depth, opening, closing) == 0 then Some(1)
    else Later(NaiveEnd(t[1..], DepthAfter(t[0], depth, opening, closing), opening, closing), 1)
  }

  /** The rest of the source as a scan from `i` sees it. */
  function Seen(source: string, i: nat): string
    requires i <= |source|
  {
    SeenFrom(source[i..], NEUTRAL)
  }

  /** The end offset of the call opened at `i`: where the naive counter on the seen text stops. */
  function EndOf(source: string, i: nat, opening: char, closing: char): Option<nat>
    requires i <= |source|
  {
    Later(NaiveEnd(Seen(source, i), 0, opening, closing), i)
  }

  /** The scanner's own search, as a function of the text that is left. */
  function FindFrom(s: string, f: Flags, depth: int, opening: char, closing: char): Option<nat>
    decreases |s|
  {
    if s == "" then None else
      var m := ScanStep(f, s);
      if !m.code then Later(FindFrom(s[m.width..], m.flags, depth, opening, closing), m.width)
      else if s[0] == closing && DepthAfter(s[0], depth, opening, closing) == 0 then Some(1)
      else Later(FindFrom(s[1..], m.flags, DepthAfter(s[0], depth, opening, closing), opening, closing), 1)
  }

  predicate Brackets(opening: char, closing: char) {
    (opening == '(' && closing == ')') || (opening == '[' && closing == ']') || (opening == '{' && closing == '}')
  }

  lemma {:induction false} BlanksDoNotCount(w: string, t: string, depth: int, opening: char, closing: char)
    requires Brackets(opening, closing)
    ensures NaiveEnd(Blank(w) + t, depth, opening, closing) == Later(NaiveEnd(t, depth, opening, closing), |w|)
  {
    if w == "" {
      assert Blank(w) + t == t;
    } else {
      assert (Blank(w) + t)[1..] == Blank(w[1..]) + t;
      BlanksDoNotCount(w[1..], t, depth, opening, closing);
    }
  }

  /** The scanner is the naive counter on the text it sees. */
  lemma {:induction false} FindIsNaive(s: string, f: Flags, depth: int, opening: char, closing: char)
    requires Brackets(opening, closing)
    ensures FindFrom(s, f, depth, opening, closing) == NaiveEnd(SeenFrom(s, f), depth, opening, closing)
    decreases |s|
  {
    if s != "" {
      var m := ScanStep(f, s);
      var rest := SeenFrom(s[m.width..], m.flags);
      if m.code {
        assert SeenFrom(s, f) == [s[0]] + rest;
        FindIsNaive(s[1..], m.flags, DepthAfter(s[0], depth, opening, closing), opening, closing);
      } else {
        FindIsNaive(s[m.width..], m.flags, depth, opening, closing);
        BlanksDoNotCount(s[..m.width], rest, depth, opening, closing);
      }
    }
  }

  /** The part of an iteration that tracks quotes and comments; `code` is false where the source continues the loop. */
  method SkipNonCode(source: string, start: nat, f: Flags) returns (index: nat, now: Flags, code: bool)
    requires start < |source|
    ensures start < index && Scan(now, index - start, code) == ScanStep(f, source[start..])
  {
    var Flags(quote, escaped, lineComment, blockComment) := f;
    index := start;
    code := false;
    var character := source[index];
    var hasNext := index + 1 < |source|;
    var next := if hasNext then source[index + 1] else ' ';
    assert forall c :: HasNext(source[start..], c) <==> hasNext && next == c;
    if lineComment {
      if character == '\n' { lineComment := false; }
    } else if blockComment {
      if character == '*' && hasNext && next == '/' {
        blockComment := false;
        index := index + 1;
      }
    } else if quote != None {
      if escaped {
        escaped := false;
      } else if character == '\\' {
        escaped := true;
      } else if character == quote.value {
        quote := None;
      }
    } else if character == '/' && hasNext && next == '/' {
      lineComment := true;
      index := index + 1;
    } else if character == '/' && hasNext && next == '*' {
      blockComment := true;
      index := index + 1;
    } else if character == '\"' || character == '\'' || character == '`' {
      quote := Some(character);
    } else {
      code := true;
    }
    index := index + 1;
    now := Flags(quote, escaped, lineComment, blockComment);
  }

  /** The search seen from offset `index` of the source. */
  function FindAt(source: string, index: nat, f: Flags, depth: int, opening: char, closing: char): Option<nat>
    requires index <= |source|
  {
    Later(FindFrom(source[index..], f, depth, opening, closing), index)
  }

  lemma {:induction false} FindAtStep(source: string, index: nat, f: Flags, depth: int, opening: char, closing: char)
    requires index < |source| && opening != closing
    ensures var m, depth' := ScanStep(f, source[index..]), DepthAfter(source[index], depth, opening, closing);
            FindAt(source, index, f, depth, opening, closing) ==
            if m.code && source[index] == closing && depth' == 0 then Some(index + m.width)
            else FindAt(source, index + m.width, m.flags, if m.code then depth' else depth, opening, closing)
  {
    var m := ScanStep(f, source[index..]);
    assert source[index..][m.width..] == source[index + m.width..];
  }

  /** The scanner's end offset is the naive counter's, on the text without quotes and comments. */
  method FindMatchingDelimiter(source: string, openingOffset: nat, opening: char, closing: char) returns (r: Option<nat>)
    requires openingOffset <= |source|
    requires Brackets(opening, closing)
    ensures r == EndOf(source, openingOffset, opening, closing)
  {
    hide FindAt, ScanStep, EndOf;
    FindAtIsEnd(source, openingOffset, opening, closing);
    ghost var goal := FindAt(source, openingOffset, NEUTRAL, 0, opening, closing);
    var depth := 0;
    var flags := NEUTRAL;
    var index := openingOffset;
    while index < |source|
      invariant openingOffset <= index <= |source|
      invariant goal == FindAt(source, index, flags, depth, opening, closing)
    {
      FindAtStep(source, index, flags, depth, opening, closing);
      var character := source[index];
      var next, now, code := SkipNonCode(source, index, flags);
      if code {
        if character == opening { depth := depth + 1; }
        if character == closing {
          depth := depth - 1;
          if depth == 0 { return Some(next); }
        }
      }
      index, flags := next, now;
    }
    NothingFound(source, flags, depth, opening, closing);
    return None;
  }

  lemma {:induction false} FindAtIsEnd(source: string, i: nat, opening: char, closing: char)
    requires i <= |source| && Brackets(opening, closing)
    ensures FindAt(source, i, NEUTRAL, 0, opening, closing) == EndOf(source, i, opening, closing)
  {
    FindIsNaive(source[i..], NEUTRAL, 0, opening, closing);
  }

  lemma NothingFound(source: string, f: Flags, depth: int, opening: char, closing: char)
    ensures FindAt(source, |source|, f, depth, opening, closing) == None
  {
  }

  // ---------------------------------------------------------------- what the result means

  /** Opening brackets minus closing brackets. */
  function Net(t: string, opening: char, closing: char): int {
    if t == "" then 0 else DepthAfter(t[0], Net(t[1..], opening, closing), opening, closing)
  }

  lemma {:induction false} NetStep(t: string, k: nat, opening: char, closing: char)
    requires 0 < k <= |t|
    ensures Net(t[..k], opening, closing) == DepthAfter(t[0], Net(t[1..][..k - 1], opening, closing), opening, closing)
  {
    assert t[..k][1..] == t[1..][..k - 1];
  }

  /** The counter stops at `e`: the character before closes, and the depth is zero there. */
  ghost predicate Balances(t: string, depth: int, e: nat, opening: char, closing: char) {
    0 < e <= |t| && t[e - 1] == closing && depth + Net(t[..e], opening, closing) == 0
  }

  /** The returned end is the least position where the depth comes back to zero; no result means there is none. */
  lemma {:induction false} NaiveIsLeast(t: string, depth: int, opening: char, closing: char)
    requires Brackets(opening, closing)
    ensures var r := NaiveEnd(t, depth, opening, closing);
            && (r.Some? ==> Balances(t, depth, r.value, opening, closing))
            && (forall e :: Balances(t, depth, e, opening, closing) ==> r.Some? && r.value <= e)
  {
    if t != "" {
      var depth' := DepthAfter(t[0], depth, opening, closing);
      NaiveIsLeast(t[1..], depth', opening, closing);
      var r := NaiveEnd(t, depth, opening, closing);
      forall e: nat | Balances(t, depth, e, opening, closing) && r != Some(1)
        ensures e > 1 && Balances(t[1..], depth', e - 1, opening, closing)
      {
        NetStep(t, e, opening, closing);
      }
      if r.Some? {
        NetStep(t, r.value, opening, closing);
      }
    }
  }

  // ---------------------------------------------------------------- spans are laminar

  predicate BlankLike(c: char) { c == ' ' || c == '\n' }

  lemma SeenLength(s: string, f: Flags)
    ensures |SeenFrom(s, f)| == |s|
    decreases |s|
  {
  }

  /** Code is only met with all flags down, and the escape flag only accompanies a quote. */
  lemma {:induction false} CodeMeansNeutral(s: string, f: Flags)
    requires s != "" && (f.escaped ==> f.quote.Some?)
    ensures ScanStep(f, s).code ==> f == NEUTRAL
    ensures ScanStep(f, s).flags.escaped ==> ScanStep(f, s).flags.quote.Some?
  {
  }

  /** A character the scanner sees was met with all flags down, so a fresh scan from it sees the same text. */
  lemma {:induction false} SeenFromHere(s: string, f: Flags, k: nat)
    requires f.escaped ==> f.quote.Some?
    requires |SeenFrom(s, f)| == |s| && k < |s|
    requires !BlankLike(SeenFrom(s, f)[k])
    ensures SeenFrom(s, f)[k..] == SeenFrom(s[k..], NEUTRAL)
    decreases |s|
  {
    hide ScanStep;
    CodeMeansNeutral(s, f);
    var m := ScanStep(f, s);
    var rest := SeenFrom(s[m.width..], m.flags);
    SeenLength(s[m.width..], m.flags);
    var front := if m.code then s[..m.width] else Blank(s[..m.width]);
    assert SeenFrom(s, f) == front + rest;
    if k < m.width {
      assert m.code && f == NEUTRAL;
      assert s[0..] == s;
    } else {
      hide SeenFrom;
      DropPast(front, rest, k);
      DropDrop(s, m.width, k);
      assert (front + rest)[k] == rest[k - m.width];
      SeenFromHere(s[m.width..], m.flags, k - m.width);
    }
  }

  /** Before the end is reached the depth stays positive, and the count can be resumed at any point. */
  lemma {:induction false} CountResumes(t: string, depth: int, k: nat, opening: char, closing: char)
    requires Brackets(opening, closing) && 1 <= depth
    requires var r := NaiveEnd(t, depth, opening, closing); r.Some? && k < r.value
    ensures k <= |t|
    ensures var d := depth + Net(t[..k], opening, closing);
            1 <= d && NaiveEnd(t, depth, opening, closing) == Later(NaiveEnd(t[k..], d, opening, closing), k)
  {
    if k == 0 {
      assert t[0..] == t;
    } else {
      CountResumes(t[1..], DepthAfter(t[0], depth, opening, closing), k - 1, opening, closing);
      NetStep(t, k, opening, closing);
      assert t[1..][k - 1..] == t[k..];
    }
  }

  /** A count that is `extra` levels deeper ends strictly later. */
  lemma {:induction false} DeeperEndsLater(t: string, depth: int, extra: int, opening: char, closing: char)
    requires Brackets(opening, closing) && 1 <= depth && 1 <= extra
    requires NaiveEnd(t, depth + extra, opening, closing).Some?
    ensures var r := NaiveEnd(t, depth, opening, closing);
            r.Some? && r.value < NaiveEnd(t, depth + extra, opening, closing).value
  {
    var depth' := DepthAfter(t[0], depth, opening, closing);
    if !(t[0] == closing && depth' == 0) {
      DeeperEndsLater(t[1..], depth', extra, opening, closing);
    } else {
      assert NaiveEnd(t[1..], depth' + extra, opening, closing).Some?;
    }
  }

  /** The same on the seen text: a bracket opened at `k`, before the end, closes before the end. */
  lemma {:induction false} NestedCount(t: string, k: nat, opening: char, closing: char)
    requires Brackets(opening, closing)
    requires 0 < k < |t| && t[0] == opening && t[k] == opening
    requires var r := NaiveEnd(t, 0, opening, closing); r.Some? && k < r.value
    ensures var r := NaiveEnd(t[k..], 0, opening, closing);
            r.Some? && 0 < r.value && k + r.value < NaiveEnd(t, 0, opening, closing).value
  {
    CountResumes(t[1..], 1, k - 1, opening, closing);
    assert t[1..][k - 1..] == t[k..];
    var d := 1 + Net(t[1..][..k - 1], opening, closing);
    DeeperEndsLater(t[k..][1..], 1, d, opening, closing);
  }

  lemma {:induction false} SeenHere(source: string, i: nat, j: nat)
    requires i <= j < |source|
    requires |Seen(source, i)| == |source| - i && !BlankLike(Seen(source, i)[j - i])
    ensures Seen(source, i)[j - i..] == Seen(source, j)
  {
    SeenFromHere(source[i..], NEUTRAL, j - i);
    assert source[i..][j - i..] == source[j..];
  }

  /** An opening that the outer scan sees inside its span has a span of its own, strictly inside. */
  lemma {:induction false} SpansAreLaminar(source: string, i: nat, j: nat, opening: char, closing: char)
    requires Brackets(opening, closing)
    requires i < j < |source|
    requires |Seen(source, i)| == |source| - i
    requires Seen(source, i)[0] == opening && Seen(source, i)[j - i] == opening
    requires var r := EndOf(source, i, opening, closing); r.Some? && j < r.value
    ensures var r := EndOf(source, j, opening, closing);
            r.Some? && j < r.value < EndOf(source, i, opening, closing).value
  {
    SeenHere(source, i, j);
    NestedCount(Seen(source, i), j - i, opening, closing);
  }

  // ---------------------------------------------------------------- the two scanners agree

  function FlagsOf(st: State): Flags {
    match st.mode
    case CodeText => Flags(None, st.escaped, false, false)
    case LineComment => Flags(None, st.escaped, true, false)
    case BlockComment => Flags(None, st.escaped, false, true)
    case _ => Flags(Some(Quote(st.mode)), st.escaped, false, false)
  }

  /** Without interpolations the masker's mode is the scanner's flags, and both see the same text. */
  lemma {:induction false} ScannersAgree(s: string, st: State)
    requires NoInterpolation(s) && st.depths == [] && EscapeOk(st)
    ensures SeenFrom(s, FlagsOf(st)) == MaskFrom(s, st)
    decreases |s|
  {
    if s != "" {
      var m := Step(st, s);
      var m' := ScanStep(FlagsOf(st), s);
      assert m'.flags == FlagsOf(m.state) && m'.width == m.width && m'.code == m.visible && m.state.depths == [];
      assert forall i :: 0 <= i < |s| - m.width ==> s[m.width..][i] == s[i + m.width];
      ScannersAgree(s[m.width..], m.state);
    }
  }

  /** For sources without `${`: from any bracket that survives masking, the scanner finds the end that a naive counter finds on the masked text. */
  lemma {:induction false} EndOnMaskedText(source: string, i: nat, opening: char, closing: char)
    requires Brackets(opening, closing)
    requires NoInterpolation(source) && i < |source|
    requires |MaskFrom(source, START)| == |source| && MaskFrom(source, START)[i] == opening
    ensures EndOf(source, i, opening, closing) == Later(NaiveEnd(MaskFrom(source, START)[i..], 0, opening, closing), i)
  {
    ScannersAgree(source, START);
    SeenFromHere(source, NEUTRAL, i);
  }

  /** A call whose one argument is the template literal with the interpolation `'`'`. */
  function TemplateCall(): Code {
    Char('(', Template(Interp(Opaque(Quoted(SingleQuote, [Plain('`')]), CloseInterp), CloseTemplate), Char(')', Eof)))
  }

  /** A backquote in an interpolation is where the agreement stops: here the masked text has an end, the scanner finds none. */
  lemma {:induction false} InterpolationsDisagree()
    ensures var source := Print(TemplateCall());
            && NaiveEnd(MaskFrom(source, START), 0, '(', ')') == Some(10)
            && EndOf(source, 0, '(', ')') == None
  {
    hide Print, PrintParts, MaskFrom, Step, ScanStep;
    TemplateCallMasked();
    TemplateCallText();
    TemplateCallUnended();
    OpeningSeen(TemplateArgument());
  }

  /** The text after the opening bracket. */
  function TemplateArgument(): string {
    ['`'] + (['$'] + (['{'] + (['\''] + (['`'] + (['\''] + (['}'] + (['`'] + [')'])))))))
  }

  lemma {:induction false} OpeningSeen(tail: string)
    ensures var source := ['('] + tail;
            Seen(source, 0) == ['('] + SeenFrom(tail, NEUTRAL) && Seen(source, 0)[1..] == SeenFrom(tail, NEUTRAL)
  {
    var source := ['('] + tail;
    assert source[0..] == source && source[1..] == tail;
  }

  lemma {:induction false} TemplateCallText()
    ensures Print(TemplateCall()) == ['('] + TemplateArgument()
  {
    var quoted := Quoted(SingleQuote, [Plain('`')]);
    assert PrintGlyphs([Plain('`')]) == ['`'];
    assert PrintLexeme(quoted) == ['\'', '`', '\''];
    assert Print(Opaque(quoted, CloseInterp)) == ['\'', '`', '\'', '}'];
    assert PrintParts(Interp(Opaque(quoted, CloseInterp), CloseTemplate)) == ['$', '{', '\'', '`', '\'', '}', '`'];
    assert Print(Char(')', Eof)) == [')'];
  }

  lemma {:induction false} TemplateCallMasked()
    ensures NaiveEnd(MaskFrom(Print(TemplateCall()), START), 0, '(', ')') == Some(10)
  {
    hide MaskFrom, Print, PrintParts, Blanked, Blank;
    MaskOfPrint(TemplateCall());
    TemplateCallBlanked();
    hide TemplateCall;
    BlanksDoNotCount("        ", ")", 1, '(', ')');
    assert (['('] + (Blank("        ") + ")"))[1..] == Blank("        ") + ")";
    assert NaiveEnd(")", 1, '(', ')') == Some(1);
  }

  lemma {:induction false} TemplateCallBlanked()
    ensures Blanked(TemplateCall()) == ['('] + (Blank("        ") + ")")
  {
    hide MaskFrom, Print, PrintParts, Step, SeenFrom, NaiveEnd, FindFrom;
    var parts := Interp(Opaque(Quoted(SingleQuote, [Plain('`')]), CloseInterp), CloseTemplate);
    QuotedPartBlanked();
    hide PrintLexeme;
    assert BlankedParts(parts) == Blank("       ");
    assert Blanked(Char(')', Eof)) == ")";
  }

  lemma {:induction false} QuotedPartBlanked()
    ensures Blanked(Opaque(Quoted(SingleQuote, [Plain('`')]), CloseInterp)) == Blank("    ")
  {
    hide BlankedParts;
    assert PrintGlyphs([Plain('`')]) == "`";
    assert Blank(PrintLexeme(Quoted(SingleQuote, [Plain('`')]))) == Blank("   ");
  }

  lemma {:induction false} TemplateCallUnended()
    ensures NaiveEnd(SeenFrom(TemplateArgument(), NEUTRAL), 1, '(', ')') == None
  {
    hide SeenFrom, NaiveEnd;
    var backtick, single := Flags(Some('`'), false, false, false), Flags(Some('\''), false, false, false);
    var t8 := [')'];
    var t7 := ['`'] + t8;
    var t6 := ['}'] + t7;
    var t5 := ['\''] + t6;
    var t4 := ['`'] + t5;
    var t3 := ['\''] + t4;
    var t2 := ['{'] + t3;
    var t1 := ['$'] + t2;
    LastNoEnd(')', single);
    NoEnd('`', t8, single);
    NoEnd('}', t7, single);
    NoEnd('\'', t6, NEUTRAL);
    NoEnd('`', t5, backtick);
    NoEnd('\'', t4, backtick);
    NoEnd('{', t3, backtick);
    NoEnd('$', t2, backtick);
    NoEnd('`', t1, NEUTRAL);
  }

  lemma {:induction false} LastNoEnd(c: char, f: Flags)
    requires !ScanStep(f, [c]).code
    ensures NaiveEnd(SeenFrom([c], f), 1, '(', ')') == None
  {
    assert [c][1..] == "";
    BlanksDoNotCount([c], "", 1, '(', ')');
    assert Blank([c]) + "" == Blank([c]);
  }

  lemma {:induction false} NoEnd(c: char, s: string, f: Flags)
    requires var m := ScanStep(f, [c] + s); m.width == 1 && !m.code
    requires NaiveEnd(SeenFrom(s, ScanStep(f, [c] + s).flags), 1, '(', ')') == None
    ensures NaiveEnd(SeenFrom([c] + s, f), 1, '(', ')') == None
  {
    hide ScanStep;
    var m := ScanStep(f, [c] + s);
    assert ([c] + s)[1..] == s;
    assert SeenFrom([c] + s, f) == Blank(([c] + s)[..1]) + SeenFrom(s, m.flags);
    BlanksDoNotCount(([c] + s)[..1], SeenFrom(s, m.flags), 1, '(', ')');
  }
}
