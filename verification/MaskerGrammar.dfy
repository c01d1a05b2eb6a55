/**
 * The lexical grammar that the masker is about: code with comments, quoted strings and
 * templates whose interpolations hold code again, finished or cut off by the end of the file.
 *
 * `Print` gives the text of a tree and `Blanked` the text in which exactly its code characters
 * stay visible; neither mentions modes or stacks.  `CodeRuns` proves that the loop turns one
 * into the other, at any nesting depth.
 */
module MaskerGrammar {
  import opened Basics
  import opened Masker

  /** One unit of string or template text. */
  datatype Glyph = Plain(c: char) | Escaped(c: char)

  /** Comments and quoted strings, without their terminators. */
  datatype Lexeme = Line(body: string) | Block(body: string) | Quoted(mode: Mode, glyphs: seq<Glyph>)

  /** Code up to the end of the file or up to the brace that closes the interpolation it stands in. */
  datatype Code =
    | Eof
    | CloseInterp
    | Char(c: char, rest: Code)
    | Opaque(lexeme: Lexeme, rest: Code)
    | Template(parts: Parts, rest: Code)
    | Unfinished(lexeme: Lexeme, dangling: bool)
    | UnfinishedTemplate(parts: Parts)

  /** What follows an opening backquote. */
  datatype Parts =
    | CloseTemplate
    | Text(glyph: Glyph, rest: Parts)
    | Interp(code: Code, rest: Parts)
    | OpenInterp(code: Code)
    | OpenText(dangling: bool)

  function PrintGlyph(g: Glyph): string {
    match g
    case Plain(c) => [c]
    case Escaped(c) => ['\\', c]
  }

  function PrintGlyphs(gs: seq<Glyph>): string {
    if gs == [] then "" else PrintGlyph(gs[0]) + PrintGlyphs(gs[1..])
  }

  function Slash(dangling: bool): string { if dangling then ['\\'] else [] }

  function Head(l: Lexeme): string {
    match l
    case Line(body) => "//" + body
    case Block(body) => "/*" + body
    case Quoted(mode, glyphs) => [Quote(mode)] + PrintGlyphs(glyphs)
  }

  function Terminator(l: Lexeme): string {
    match l
    case Line(_) => "\n"
    case Block(_) => "*/"
    case Quoted(mode, _) => [Quote(mode)]
  }

  function PrintLexeme(l: Lexeme): string {
    Head(l) + Terminator(l)
  }

  /** The source text of a tree. */
  function Print(code: Code): string {
    match code
    case Eof => ""
    case CloseInterp => "}"
    case Char(c, rest) => [c] + Print(rest)
    case Opaque(lexeme, rest) => PrintLexeme(lexeme) + Print(rest)
    case Template(parts, rest) => "`" + PrintParts(parts) + Print(rest)
    case Unfinished(lexeme, dangling) => Head(lexeme) + Slash(dangling)
    case UnfinishedTemplate(parts) => "`" + PrintParts(parts)
  }

  function PrintParts(parts: Parts): string {
    match parts
    case CloseTemplate => "`"
    case Text(glyph, rest) => PrintGlyph(glyph) + PrintParts(rest)
    case Interp(code, rest) => "${" + Print(code) + PrintParts(rest)
    case OpenInterp(code) => "${" + Print(code)
    case OpenText(dangling) => Slash(dangling)
  }

  /** The source text with everything but the code characters blanked. */
  function Blanked(code: Code): string {
    match code
    case Eof => ""
    case CloseInterp => " "
    case Char(c, rest) => [c] + Blanked(rest)
    case Opaque(lexeme, rest) => Blank(PrintLexeme(lexeme)) + Blanked(rest)
    case Template(parts, rest) => " " + BlankedParts(parts) + Blanked(rest)
    case Unfinished(lexeme, dangling) => Blank(Head(lexeme) + Slash(dangling))
    case UnfinishedTemplate(parts) => " " + BlankedParts(parts)
  }

  function BlankedParts(parts: Parts): string {
    match parts
    case CloseTemplate => " "
    case Text(glyph, rest) => Blank(PrintGlyph(glyph)) + BlankedParts(rest)
    case Interp(code, rest) => "  " + Blanked(code) + BlankedParts(rest)
    case OpenInterp(code) => "  " + Blanked(code)
    case OpenText(dangling) => Blank(Slash(dangling))
  }

  /** The code ends at the brace of its interpolation. */
  predicate Closed(code: Code) {
    match code
    case CloseInterp => true
    case Char(_, rest) => Closed(rest)
    case Opaque(_, rest) => Closed(rest)
    case Template(_, rest) => Closed(rest)
    case _ => false
  }

  /** The template ends at its closing backquote. */
  predicate ClosedParts(parts: Parts) {
    match parts
    case CloseTemplate => true
    case Text(_, rest) => ClosedParts(rest)
    case Interp(_, rest) => ClosedParts(rest)
    case _ => false
  }

  /** The open braces of the enclosing interpolation after a code character; `None` outside of interpolations. */
  function AfterChar(open: Option<nat>, c: char): Option<nat>
    requires !(open == Some(0) && c == '}')
  {
    if open.None? then None
    else if c == '{' then Some(open.value + 1)
    else if c == '}' then Some(open.value - 1)
    else open
  }

  predicate StartsWith(s: string, c: char) { s != "" && s[0] == c }

  predicate QuoteMode(mode: Mode) { mode == SingleQuote || mode == DoubleQuote }

  predicate GlyphOk(g: Glyph, mode: Mode) {
    g.Plain? ==> g.c != '\\' && g.c != Quote(mode)
  }

  predicate GlyphsOk(gs: seq<Glyph>, mode: Mode) {
    forall i :: 0 <= i < |gs| ==> GlyphOk(gs[i], mode)
  }

  /** No terminator inside. */
  predicate BlockBody(body: string) {
    forall i :: 0 <= i < |body| - 1 ==> !(body[i] == '*' && body[i + 1] == '/')
  }

  predicate LexemeOk(l: Lexeme) {
    match l
    case Line(body) => '\n' !in body
    case Block(body) => BlockBody(body)
    case Quoted(mode, glyphs) => QuoteMode(mode) && GlyphsOk(glyphs, mode)
  }

  /**
   * A tree that is the reading of its own print: characters are plain code, texts hold nothing that would end them, and
   * a brace closes the interpolation exactly when no other brace is open.
   */
  predicate Lexed(code: Code, open: Option<nat>) {
    match code
    case Eof => true
    case CloseInterp => open == Some(0)
    case Char(c, rest) =>
      && c != '\'' && c != '\"' && c != '`'
      && !(c == '/' && (StartsWith(Print(rest), '/') || StartsWith(Print(rest), '*')))
      && !(open == Some(0) && c == '}')
      && Lexed(rest, AfterChar(open, c))
    case Opaque(lexeme, rest) => LexemeOk(lexeme) && Lexed(rest, open)
    case Template(parts, rest) => LexedParts(parts) && ClosedParts(parts) && Lexed(rest, open)
    case Unfinished(lexeme, dangling) => LexemeOk(lexeme) && (dangling ==> lexeme.Quoted?)
    case UnfinishedTemplate(parts) => LexedParts(parts) && !ClosedParts(parts)
  }

  predicate LexedParts(parts: Parts) {
    match parts
    case CloseTemplate => true
    case Text(glyph, rest) =>
      && GlyphOk(glyph, TemplateText)
      && !(glyph == Plain('$') && StartsWith(PrintParts(rest), '{'))
      && LexedParts(rest)
    case Interp(code, rest) => Lexed(code, Some(0)) && Closed(code) && LexedParts(rest)
    case OpenInterp(code) => Lexed(code, Some(0)) && !Closed(code)
    case OpenText(_) => true
  }

  function Level(open: Option<nat>): seq<nat> {
    if open.None? then [] else [open.value]
  }

  function ModeOf(l: Lexeme): Mode {
    match l
    case Line(_) => LineComment
    case Block(_) => BlockComment
    case Quoted(mode, _) => mode
  }

  /** The loop's variables at the end of the text of a tree. */
  function After(code: Code, open: Option<nat>, outer: seq<nat>): State
    requires Lexed(code, open)
  {
    match code
    case Eof => State(CodeText, false, outer + Level(open))
    case CloseInterp => State(TemplateText, false, outer)
    case Char(c, rest) => After(rest, AfterChar(open, c), outer)
    case Opaque(_, rest) => After(rest, open, outer)
    case Template(_, rest) => After(rest, open, outer)
    case Unfinished(lexeme, dangling) => State(ModeOf(lexeme), dangling, outer + Level(open))
    case UnfinishedTemplate(parts) => AfterParts(parts, outer + Level(open))
  }

  function AfterParts(parts: Parts, outer: seq<nat>): State
    requires LexedParts(parts)
  {
    match parts
    case CloseTemplate => State(CodeText, false, outer)
    case Text(_, rest) => AfterParts(rest, outer)
    case Interp(_, rest) => AfterParts(rest, outer)
    case OpenInterp(code) => After(code, Some(0), outer)
    case OpenText(dangling) => State(TemplateText, dangling, outer)
  }

  // ---------------------------------------------------------------- the masker on printed text

  /** From state `st` the loop turns the text `p`, before `r`, into `out` and reaches `r` in state `st'`. */
  ghost predicate Runs(p: string, r: string, st: State, out: string, st': State) {
    MaskFrom(p + r, st) == out + MaskFrom(r, st') && EndState(p + r, st) == EndState(r, st')
  }

  lemma {:induction false} Chain(p: string, q: string, r: string, st: State, o: string, st1: State, o': string, st2: State)
    requires Runs(p, q + r, st, o, st1) && Runs(q, r, st1, o', st2)
    ensures Runs(p + q, r, st, o + o', st2)
  {
    assert (p + q) + r == p + (q + r);
    assert (o + o') + MaskFrom(r, st2) == o + (o' + MaskFrom(r, st2));
  }

  lemma {:induction false} OneStep(p: string, r: string, st: State)
    requires p != "" && Step(st, p + r).width == |p|
    ensures Runs(p, r, st, if Step(st, p + r).visible then p else Blank(p), Step(st, p + r).state)
  {
    assert (p + r)[..|p|] == p && (p + r)[|p|..] == r;
  }

  /** One blanking step, then a run. */
  lemma {:induction false} StepThen(p: string, q: string, r: string, st: State, mid: State, o: string, st': State)
    requires p != "" && Step(st, p + (q + r)) == Move(mid, |p|, false)
    requires Runs(q, r, mid, o, st')
    ensures Runs(p + q, r, st, Blank(p) + o, st')
  {
    OneStep(p, q + r, st);
    Chain(p, q, r, st, Blank(p), mid, o, st');
  }

  lemma BlankConcat(a: string, b: string)
    ensures Blank(a + b) == Blank(a) + Blank(b)
  {
  }

  lemma {:induction false} LineRuns(body: string, r: string, depths: seq<nat>)
    requires '\n' !in body
    ensures Runs(body, r, State(LineComment, false, depths), Blank(body), State(LineComment, false, depths))
  {
    hide EndState, MaskFrom;
    var st := State(LineComment, false, depths);
    if body == "" {
      assert body + r == r;
    } else {
      assert body == body[..1] + body[1..];
      OneStep(body[..1], body[1..] + r, st);
      LineRuns(body[1..], r, depths);
      Chain(body[..1], body[1..], r, st, Blank(body[..1]), st, Blank(body[1..]), st);
    }
  }

  lemma {:induction false} BlockRuns(body: string, r: string, depths: seq<nat>)
    requires BlockBody(body)
    requires body != "" && body[|body| - 1] == '*' ==> !StartsWith(r, '/')
    ensures Runs(body, r, State(BlockComment, false, depths), Blank(body), State(BlockComment, false, depths))
  {
    hide EndState, MaskFrom;
    var st := State(BlockComment, false, depths);
    if body == "" {
      assert body + r == r;
    } else {
      assert body == body[..1] + body[1..];
      OneStep(body[..1], body[1..] + r, st);
      BlockRuns(body[1..], r, depths);
      Chain(body[..1], body[1..], r, st, Blank(body[..1]), st, Blank(body[1..]), st);
    }
  }

  lemma {:induction false} GlyphRuns(g: Glyph, mode: Mode, r: string, depths: seq<nat>)
    requires GlyphOk(g, mode) && (QuoteMode(mode) || mode == TemplateText)
    requires mode == TemplateText && g == Plain('$') ==> !StartsWith(r, '{')
    ensures Runs(PrintGlyph(g), r, State(mode, false, depths), Blank(PrintGlyph(g)), State(mode, false, depths))
  {
    hide EndState, MaskFrom;
    var st := State(mode, false, depths);
    match g
    case Plain(c) => OneStep([c], r, st);
    case Escaped(c) =>
      var mid := State(mode, true, depths);
      OneStep(['\\'], [c] + r, st);
      OneStep([c], r, mid);
      Chain(['\\'], [c], r, st, Blank(['\\']), mid, Blank([c]), st);
      BlankConcat(['\\'], [c]);
      assert ['\\'] + [c] == ['\\', c];
  }

  lemma {:induction false} GlyphsRun(gs: seq<Glyph>, mode: Mode, r: string, depths: seq<nat>)
    requires GlyphsOk(gs, mode) && QuoteMode(mode)
    ensures Runs(PrintGlyphs(gs), r, State(mode, false, depths), Blank(PrintGlyphs(gs)), State(mode, false, depths))
  {
    hide EndState, MaskFrom;
    var st := State(mode, false, depths);
    if gs == [] {
      assert "" + r == r;
    } else {
      GlyphRuns(gs[0], mode, PrintGlyphs(gs[1..]) + r, depths);
      GlyphsRun(gs[1..], mode, r, depths);
      Chain(PrintGlyph(gs[0]), PrintGlyphs(gs[1..]), r, st, Blank(PrintGlyph(gs[0])), st, Blank(PrintGlyphs(gs[1..])), st);
      BlankConcat(PrintGlyph(gs[0]), PrintGlyphs(gs[1..]));
    }
  }

  /** A run of two adjacent blanked pieces. */
  lemma {:induction false} BlankChain(p: string, q: string, r: string, st: State, mid: State, st': State)
    requires Runs(p, q + r, st, Blank(p), mid) && Runs(q, r, mid, Blank(q), st')
    ensures Runs(p + q, r, st, Blank(p + q), st')
  {
    Chain(p, q, r, st, Blank(p), mid, Blank(q), st');
    BlankConcat(p, q);
  }

  lemma {:induction false} HeadRuns(l: Lexeme, r: string, depths: seq<nat>)
    requires LexemeOk(l)
    requires l.Block? && l.body != "" && l.body[|l.body| - 1] == '*' ==> !StartsWith(r, '/')
    ensures Runs(Head(l), r, State(CodeText, false, depths), Blank(Head(l)), State(ModeOf(l), false, depths))
  {
    hide EndState, MaskFrom;
    var st, st' := State(CodeText, false, depths), State(ModeOf(l), false, depths);
    match l
    case Line(body) =>
      OneStep("//", body + r, st);
      LineRuns(body, r, depths);
      BlankChain("//", body, r, st, st', st');
    case Block(body) =>
      OneStep("/*", body + r, st);
      BlockRuns(body, r, depths);
      BlankChain("/*", body, r, st, st', st');
    case Quoted(mode, gs) =>
      OneStep([Quote(mode)], PrintGlyphs(gs) + r, st);
      GlyphsRun(gs, mode, r, depths);
      BlankChain([Quote(mode)], PrintGlyphs(gs), r, st, st', st');
  }

  lemma {:induction false} LexemeRuns(l: Lexeme, r: string, depths: seq<nat>)
    requires LexemeOk(l)
    ensures Runs(PrintLexeme(l), r, State(CodeText, false, depths), Blank(PrintLexeme(l)), State(CodeText, false, depths))
  {
    hide EndState, MaskFrom;
    var st, mid := State(CodeText, false, depths), State(ModeOf(l), false, depths);
    HeadRuns(l, Terminator(l) + r, depths);
    OneStep(Terminator(l), r, mid);
    BlankChain(Head(l), Terminator(l), r, st, mid, st);
  }

  lemma {:induction false} DanglingRuns(p: string, st: State, mode: Mode, dangling: bool, depths: seq<nat>)
    requires dangling ==> QuoteMode(mode) || mode == TemplateText
    requires Runs(p, Slash(dangling), st, Blank(p), State(mode, false, depths))
    ensures Runs(p + Slash(dangling), "", st, Blank(p + Slash(dangling)), State(mode, dangling, depths))
  {
    hide EndState, MaskFrom;
    var mid := State(mode, false, depths);
    assert Slash(dangling) + "" == Slash(dangling);
    if dangling {
      OneStep(Slash(dangling), "", mid);
    }
    BlankChain(p, Slash(dangling), "", st, mid, State(mode, dangling, depths));
  }

  /** The loop blanks exactly the non-code characters of any tree, in any enclosing nesting. */
  lemma {:induction false} CodeRuns(code: Code, open: Option<nat>, outer: seq<nat>, r: string)
    requires Lexed(code, open)
    requires open.None? ==> outer == []
    requires !Closed(code) ==> r == ""
    ensures Runs(Print(code), r, State(CodeText, false, outer + Level(open)), Blanked(code), After(code, open, outer))
    decreases code
  {
    hide Runs, Step;
    var st := State(CodeText, false, outer + Level(open));
    var depths := outer + Level(open);
    match code
    case Eof => NothingRuns(st);
    case CloseInterp => CloseRuns(outer, r);
    case Char(c, rest) =>
      CharRuns(c, rest, open, outer, r);
      CodeRuns(rest, AfterChar(open, c), outer, r);
      Chain([c], Print(rest), r, st, [c], State(CodeText, false, outer + Level(AfterChar(open, c))), Blanked(rest), After(code, open, outer));
    case Opaque(lexeme, rest) =>
      LexemeRuns(lexeme, Print(rest) + r, depths);
      CodeRuns(rest, open, outer, r);
      Chain(PrintLexeme(lexeme), Print(rest), r, st, Blank(PrintLexeme(lexeme)), st, Blanked(rest), After(code, open, outer));
    case Template(parts, rest) =>
      PartsRuns(parts, depths, Print(rest) + r);
      CodeRuns(rest, open, outer, r);
      TemplateRuns(parts, Print(rest) + r, depths);
      ClosedPartsAfter(parts, depths);
      Chain("`" + PrintParts(parts), Print(rest), r, st, " " + BlankedParts(parts), st, Blanked(rest), After(code, open, outer));
    case Unfinished(lexeme, dangling) =>
      HeadRuns(lexeme, Slash(dangling), depths);
      DanglingRuns(Head(lexeme), st, ModeOf(lexeme), dangling, depths);
    case UnfinishedTemplate(parts) =>
      PartsRuns(parts, depths, "");
      TemplateRuns(parts, "", depths);
  }

  lemma {:induction false} NothingRuns(st: State)
    ensures Runs("", "", st, "", st)
  {
    assert "" + "" == "";
  }

  lemma {:induction false} CloseRuns(outer: seq<nat>, r: string)
    ensures Runs("}", r, State(CodeText, false, outer + [0]), " ", State(TemplateText, false, outer))
  {
    hide MaskFrom, EndState;
    var depths := outer + [0];
    assert depths[..|depths| - 1] == outer;
    OneStep("}", r, State(CodeText, false, depths));
  }

  lemma {:induction false} TemplateRuns(parts: Parts, r: string, depths: seq<nat>)
    requires LexedParts(parts)
    requires Runs(PrintParts(parts), r, State(TemplateText, false, depths), BlankedParts(parts), AfterParts(parts, depths))
    ensures Runs("`" + PrintParts(parts), r, State(CodeText, false, depths), " " + BlankedParts(parts), AfterParts(parts, depths))
  {
    hide PrintParts, BlankedParts, AfterParts, LexedParts, MaskFrom, EndState;
    StepThen("`", PrintParts(parts), r, State(CodeText, false, depths), State(TemplateText, false, depths), BlankedParts(parts), AfterParts(parts, depths));
  }

  lemma EmptyPrint(code: Code, parts: Parts)
    ensures Print(code) == "" ==> code.Eof?
    ensures PrintParts(parts) == "" ==> parts == OpenText(false)
  {
  }

  lemma {:induction false} CharRuns(c: char, rest: Code, open: Option<nat>, outer: seq<nat>, r: string)
    requires Lexed(Char(c, rest), open)
    requires open.None? ==> outer == []
    requires !Closed(rest) ==> r == ""
    ensures Runs([c], Print(rest) + r, State(CodeText, false, outer + Level(open)), [c],
                 State(CodeText, false, outer + Level(AfterChar(open, c))))
  {
    hide MaskFrom, EndState;
    var st := State(CodeText, false, outer + Level(open));
    EmptyPrint(rest, CloseTemplate);
    assert Step(st, [c] + (Print(rest) + r)) == Move(State(CodeText, false, outer + Level(AfterChar(open, c))), 1, true);
    OneStep([c], Print(rest) + r, st);
  }

  lemma {:induction false} PartsRuns(parts: Parts, outer: seq<nat>, r: string)
    requires LexedParts(parts)
    requires !ClosedParts(parts) ==> r == ""
    ensures Runs(PrintParts(parts), r, State(TemplateText, false, outer), BlankedParts(parts), AfterParts(parts, outer))
    decreases parts
  {
    hide Runs;
    var st := State(TemplateText, false, outer);
    match parts
    case CloseTemplate => CloseTemplateRuns(outer, r);
    case Text(g, rest) =>
      EmptyPrint(Eof, rest);
      GlyphRuns(g, TemplateText, PrintParts(rest) + r, outer);
      PartsRuns(rest, outer, r);
      Chain(PrintGlyph(g), PrintParts(rest), r, st, Blank(PrintGlyph(g)), st, BlankedParts(rest), AfterParts(parts, outer));
    case Interp(code, rest) =>
      CodeRuns(code, Some(0), outer, PrintParts(rest) + r);
      ClosedAfter(code, Some(0), outer);
      InterpRuns(code, outer, PrintParts(rest) + r);
      PartsRuns(rest, outer, r);
      Chain("${" + Print(code), PrintParts(rest), r, st, "  " + Blanked(code), st, BlankedParts(rest), AfterParts(parts, outer));
    case OpenInterp(code) =>
      CodeRuns(code, Some(0), outer, "");
      InterpRuns(code, outer, "");
    case OpenText(dangling) =>
      DanglingTextRuns(dangling, outer);
  }

  lemma {:induction false} CloseTemplateRuns(outer: seq<nat>, r: string)
    ensures Runs("`", r, State(TemplateText, false, outer), " ", State(CodeText, false, outer))
  {
    hide MaskFrom, EndState;
    assert Blank("`") == " ";
    OneStep("`", r, State(TemplateText, false, outer));
  }

  lemma {:induction false} DanglingTextRuns(dangling: bool, outer: seq<nat>)
    ensures Runs(Slash(dangling), "", State(TemplateText, false, outer), Blank(Slash(dangling)), State(TemplateText, dangling, outer))
  {
    if dangling {
      OneStep(Slash(dangling), "", State(TemplateText, false, outer));
    } else {
      NothingRuns(State(TemplateText, false, outer));
    }
  }

  lemma {:induction false} InterpRuns(code: Code, outer: seq<nat>, r: string)
    requires Lexed(code, Some(0))
    requires Runs(Print(code), r, State(CodeText, false, outer + [0]), Blanked(code), After(code, Some(0), outer))
    ensures Runs("${" + Print(code), r, State(TemplateText, false, outer), "  " + Blanked(code), After(code, Some(0), outer))
  {
    hide PrintParts, BlankedParts, AfterParts, LexedParts, MaskFrom, EndState;
    var st, mid := State(TemplateText, false, outer), State(CodeText, false, outer + [0]);
    OneStep("${", Print(code) + r, st);
    Chain("${", Print(code), r, st, "  ", mid, Blanked(code), After(code, Some(0), outer));
  }

  lemma ClosedPartsAfter(parts: Parts, outer: seq<nat>)
    requires LexedParts(parts) && ClosedParts(parts)
    ensures AfterParts(parts, outer) == State(CodeText, false, outer)
  {
  }

  lemma ClosedAfter(code: Code, open: Option<nat>, outer: seq<nat>)
    requires Lexed(code, open) && Closed(code)
    ensures After(code, open, outer) == State(TemplateText, false, outer)
  {
  }

  // ---------------------------------------------------------------- what the end state says

  /** `{` minus `}` among the code characters of this level. */
  function Braces(code: Code): int {
    match code
    case Char(c, rest) => (if c == '{' then 1 else if c == '}' then -1 else 0) + Braces(rest)
    case Opaque(_, rest) => Braces(rest)
    case Template(_, rest) => Braces(rest)
    case _ => 0
  }

  /** The interpolations still open at the end of a text, outermost first. */
  function OpenIn(code: Code): seq<Code> {
    match code
    case Char(_, rest) => OpenIn(rest)
    case Opaque(_, rest) => OpenIn(rest)
    case Template(_, rest) => OpenIn(rest)
    case UnfinishedTemplate(parts) => OpenInParts(parts)
    case _ => []
  }

  function OpenInParts(parts: Parts): seq<Code> {
    match parts
    case Text(_, rest) => OpenInParts(rest)
    case Interp(_, rest) => OpenInParts(rest)
    case OpenInterp(code) => [code] + OpenIn(code)
    case _ => []
  }

  function BraceCounts(codes: seq<Code>): seq<int> {
    if codes == [] then [] else [Braces(codes[0])] + BraceCounts(codes[1..])
  }

  /** The stack holds one count for each open interpolation: its opening braces minus its closing ones. */
  lemma {:induction false} DepthsCountBraces(code: Code, open: Option<nat>, outer: seq<nat>)
    requires Lexed(code, open) && !Closed(code)
    ensures After(code, open, outer).depths ==
            outer + (if open.None? then [] else [open.value + Braces(code)]) + BraceCounts(OpenIn(code))
    decreases code
  {
    match code
    case Char(c, rest) => DepthsCountBraces(rest, AfterChar(open, c), outer);
    case Opaque(_, rest) => DepthsCountBraces(rest, open, outer);
    case Template(_, rest) => DepthsCountBraces(rest, open, outer);
    case UnfinishedTemplate(parts) => PartsDepths(parts, outer + Level(open));
    case _ =>
  }

  lemma {:induction false} PartsDepths(parts: Parts, outer: seq<nat>)
    requires LexedParts(parts) && !ClosedParts(parts)
    ensures AfterParts(parts, outer).depths == outer + BraceCounts(OpenInParts(parts))
    decreases parts
  {
    match parts
    case Text(_, rest) => PartsDepths(rest, outer);
    case Interp(_, rest) => PartsDepths(rest, outer);
    case OpenInterp(code) =>
      DepthsCountBraces(code, Some(0), outer);
      assert (outer + [Braces(code)]) + BraceCounts(OpenIn(code)) == outer + BraceCounts([code] + OpenIn(code));
    case OpenText(_) =>
  }
}
