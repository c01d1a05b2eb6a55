/**
 * What the bracket scanner makes of templates.
 *
 * The scanner reads a template as one string.  It ends that string with the template exactly
 * when no interpolation holds a backquote that the scanner takes for the end; then it sees
 * the masked text with the interpolations blanked too.
 */
module TemplateScan {
  import opened Basics
  import opened Masker
  import opened MaskerGrammar
  import opened MaskerParser
  import opened MaskedText
  import opened Delimiters
  import opened StaticStrings

  // ---------------------------------------------------------------- where the scanner ends a template

  /** No interpolation of the template holds an unescaped backquote. */
  predicate Quiet(parts: Parts) {
    match parts
    case Text(_, rest) => Quiet(rest)
    case Interp(code, rest) => CloseAt(Print(code), false, '`').None? && Quiet(rest)
    case OpenInterp(code) => CloseAt(Print(code), false, '`').None?
    case _ => true
  }

  /** The scanner's escape flag behind a text without a closing quote. */
  function EscapedAfter(s: string, escaped: bool): bool {
    if s == "" then escaped else EscapedAfter(s[1..], !escaped && s[0] == '\\')
  }

  lemma EscapedStep(s: string, escaped: bool)
    requires s != ""
    ensures EscapedAfter(s, escaped) == EscapedAfter(s[1..], !escaped && s[0] == '\\')
  {
  }

  lemma {:induction false} CloseConcat(a: string, b: string, escaped: bool, quote: char)
    ensures CloseAt(a + b, escaped, quote) ==
            if CloseAt(a, escaped, quote).Some? then CloseAt(a, escaped, quote)
            else Later(CloseAt(b, EscapedAfter(a, escaped), quote), |a|)
  {
    if a == "" {
      assert a + b == b;
    } else {
      hide CloseAt, EscapedAfter;
      EscapedStep(a, escaped);
      var c, rest := a[0], a[1..];
      assert a == [c] + rest;
      AppendAssoc([c], rest, b);
      CloseConcat(rest, b, !escaped && c == '\\', quote);
      CloseStep(c, rest + b, escaped, quote);
      CloseStep(c, rest, escaped, quote);
    }
  }

  lemma {:induction false} NotEscapedAfter(s: string, escaped: bool)
    requires s != "" && s[|s| - 1] != '\\'
    ensures !EscapedAfter(s, escaped)
  {
    if |s| > 1 {
      NotEscapedAfter(s[1..], !escaped && s[0] == '\\');
    }
  }

  lemma {:induction false} ClosedEndsInBrace(code: Code)
    requires Closed(code)
    ensures Print(code) != "" && Print(code)[|Print(code)| - 1] == '}'
    decreases code
  {
    match code
    case CloseInterp =>
    case Char(_, rest) => ClosedEndsInBrace(rest);
    case Opaque(_, rest) => ClosedEndsInBrace(rest);
    case Template(_, rest) => ClosedEndsInBrace(rest);
  }

  lemma GlyphDoesNotClose(g: Glyph)
    requires GlyphOk(g, TemplateText)
    ensures CloseAt(PrintGlyph(g), false, '`') == None && !EscapedAfter(PrintGlyph(g), false)
  {
    match g
    case Plain(c) => assert [c][1..] == "";
    case Escaped(c) =>
      assert ['\\', c][1..] == [c] && [c][1..] == "";
      assert !EscapedAfter([c], true) && CloseAt([c], true, '`') == None;
  }

  lemma {:induction false} OpeningDoesNotClose(s: string)
    ensures CloseAt("${" + s, false, '`') == Later(CloseAt(s, false, '`'), 2)
  {
    assert ("${" + s)[1..] == "{" + s && ("{" + s)[1..] == s;
  }

  /** Where the scanner should stop: behind the closing backquote, or nowhere. */
  function TemplateEnd(parts: Parts): Option<nat> {
    if ClosedParts(parts) && PrintParts(parts) != "" then Some(|PrintParts(parts)| - 1) else None
  }

  lemma {:induction false} ClosedPartsPrint(parts: Parts)
    ensures ClosedParts(parts) ==> PrintParts(parts) != ""
  {
  }

  /** The scanner ends a template with the template if and only if its interpolations hold no unescaped backquote. */
  lemma {:induction false} TemplateEndsWithItself(parts: Parts, r: string)
    requires LexedParts(parts) && (!ClosedParts(parts) ==> r == "")
    ensures CloseAt(PrintParts(parts) + r, false, '`') == TemplateEnd(parts) <==> Quiet(parts)
    decreases parts
  {
    hide CloseAt, EscapedAfter;
    match parts
    case CloseTemplate => ClosingBackquote(r);
    case Text(g, rest) =>
      TemplateEndsWithItself(rest, r);
      TextEnd(g, rest, r);
    case Interp(code, rest) =>
      TemplateEndsWithItself(rest, r);
      InterpolationEnd(code, rest, r);
    case OpenInterp(code) =>
      assert PrintParts(parts) + r == "${" + Print(code);
      OpeningDoesNotClose(Print(code));
    case OpenText(dangling) => DanglingDoesNotClose(dangling, r);
  }

  lemma {:induction false} TextEnd(g: Glyph, rest: Parts, r: string)
    requires GlyphOk(g, TemplateText)
    ensures CloseAt(PrintParts(Text(g, rest)) + r, false, '`') == TemplateEnd(Text(g, rest)) <==>
            CloseAt(PrintParts(rest) + r, false, '`') == TemplateEnd(rest)
  {
    hide CloseAt, EscapedAfter, PrintGlyph;
    AppendAssoc(PrintGlyph(g), PrintParts(rest), r);
    GlyphDoesNotClose(g);
    CloseConcat(PrintGlyph(g), PrintParts(rest) + r, false, '`');
    ClosedPartsPrint(rest);
  }

  lemma {:induction false} InterpolationEnd(code: Code, rest: Parts, r: string)
    requires Closed(code)
    ensures CloseAt(PrintParts(Interp(code, rest)) + r, false, '`') == TemplateEnd(Interp(code, rest)) <==>
            CloseAt(Print(code), false, '`').None? && CloseAt(PrintParts(rest) + r, false, '`') == TemplateEnd(rest)
  {
    hide CloseAt, EscapedAfter, Print;
    InterpolationScan(code, PrintParts(rest) + r);
    AppendAssoc("${" + Print(code), PrintParts(rest), r);
    ClosedPartsPrint(rest);
  }

  lemma {:induction false} InterpolationScan(code: Code, t: string)
    requires Closed(code)
    ensures var text := "${" + Print(code);
            CloseAt(text + t, false, '`') ==
            if CloseAt(Print(code), false, '`').Some? then Later(CloseAt(Print(code), false, '`'), 2)
            else Later(CloseAt(t, false, '`'), |text|)
  {
    var text := "${" + Print(code);
    OpeningDoesNotClose(Print(code));
    CloseConcat(text, t, false, '`');
    ClosedEndsInBrace(code);
    NotEscapedAfter(text, false);
  }

  lemma ClosingBackquote(r: string)
    ensures CloseAt("`" + r, false, '`') == Some(0)
  {
  }

  lemma DanglingDoesNotClose(dangling: bool, r: string)
    requires r == ""
    ensures CloseAt(Slash(dangling) + r, false, '`') == None
  {
    if dangling {
      assert Slash(dangling) + r == ['\\'] && ['\\'][1..] == "";
    } else {
      assert Slash(dangling) + r == "";
    }
  }

  // ---------------------------------------------------------------- what the scanner sees

  const LINE := Flags(None, false, true, false)
  const BLOCK := Flags(None, false, false, true)

  lemma {:induction false} SeenStep(p: string, r: string, f: Flags)
    requires p != "" && ScanStep(f, p + r).width == |p|
    ensures SeenFrom(p + r, f) == (if ScanStep(f, p + r).code then p else Blank(p)) + SeenFrom(r, ScanStep(f, p + r).flags)
  {
    assert (p + r)[..|p|] == p && (p + r)[|p|..] == r;
  }

  /** A blanked piece in front of a blanked piece. */
  lemma {:induction false} SeenChain(p: string, q: string, r: string, f: Flags, g: Flags, h: Flags)
    requires SeenFrom(p + (q + r), f) == Blank(p) + SeenFrom(q + r, g)
    requires SeenFrom(q + r, g) == Blank(q) + SeenFrom(r, h)
    ensures SeenFrom(p + q + r, f) == Blank(p + q) + SeenFrom(r, h)
  {
    hide SeenFrom, Blank;
    AppendAssoc(p, q, r);
    BlankConcat(p, q);
    AppendAssoc(Blank(p), Blank(q), SeenFrom(r, h));
  }

  /** The text `s` with everything up to a quote at `k` blanked, or everything. */
  function Unquoted(s: string, k: Option<nat>): string
    requires k.Some? ==> k.value < |s|
  {
    match k
    case None => Blank(s)
    case Some(k) => Blank(s[..k + 1]) + SeenFrom(s[k + 1..], NEUTRAL)
  }

  lemma UnquotedStep(c: char, rest: string, k: Option<nat>)
    requires k.Some? ==> k.value < |rest|
    ensures Unquoted([c] + rest, Later(k, 1)) == Blank([c]) + Unquoted(rest, k)
  {
    hide Blank, SeenFrom;
    if k.Some? {
      var front, back := rest[..k.value + 1], rest[k.value + 1..];
      BlankConcat([c], front);
      AppendAssoc(Blank([c]), Blank(front), SeenFrom(back, NEUTRAL));
      assert ([c] + rest)[..k.value + 2] == [c] + front && ([c] + rest)[k.value + 2..] == back;
    } else {
      BlankConcat([c], rest);
    }
  }

  lemma CloseStep(c: char, rest: string, escaped: bool, quote: char)
    ensures CloseAt([c] + rest, escaped, quote) ==
            if !escaped && c != '\\' && c == quote then Some(0) else Later(CloseAt(rest, !escaped && c == '\\', quote), 1)
  {
    assert ([c] + rest)[1..] == rest;
  }

  /** A string in quotes is not seen, up to the quote that closes it. */
  lemma {:induction false} QuoteSeen(s: string, escaped: bool, quote: char)
    requires Quoting(quote)
    ensures SeenFrom(s, Flags(Some(quote), escaped, false, false)) == Unquoted(s, CloseAt(s, escaped, quote))
  {
    hide Blank, Unquoted, SeenFrom, CloseAt;
    if s == "" {
      NothingQuoted(escaped, quote);
    } else {
      var c, rest := s[0], s[1..];
      assert s == [c] + rest;
      SeenStep([c], rest, Flags(Some(quote), escaped, false, false));
      CloseStep(c, rest, escaped, quote);
      if !escaped && c != '\\' && c == quote {
        FirstQuote(c, rest);
      } else {
        QuoteSeen(rest, !escaped && c == '\\', quote);
        UnquotedStep(c, rest, CloseAt(rest, !escaped && c == '\\', quote));
      }
    }
  }

  lemma NothingQuoted(escaped: bool, quote: char)
    ensures CloseAt("", escaped, quote) == None && Unquoted("", None) == SeenFrom("", Flags(Some(quote), escaped, false, false))
  {
  }

  lemma FirstQuote(c: char, rest: string)
    ensures Unquoted([c] + rest, Some(0)) == Blank([c]) + SeenFrom(rest, NEUTRAL)
  {
    hide Blank;
    assert ([c] + rest)[..1] == [c] && ([c] + rest)[1..] == rest;
  }

  lemma {:induction false} LineSeen(body: string, t: string)
    requires '\n' !in body
    ensures SeenFrom(body + t, LINE) == Blank(body) + SeenFrom(t, LINE)
  {
    hide SeenFrom;
    if body == "" {
      assert body + t == t;
    } else {
      var p, q := body[..1], body[1..];
      assert body == p + q;
      LineSeen(q, t);
      SeenStep(p, q + t, LINE);
      SeenChain(p, q, t, LINE, LINE, LINE);
    }
  }

  lemma {:induction false} BlockSeen(body: string, t: string)
    requires BlockBody(body) && (body != "" && body[|body| - 1] == '*' ==> !StartsWith(t, '/'))
    ensures SeenFrom(body + t, BLOCK) == Blank(body) + SeenFrom(t, BLOCK)
  {
    hide SeenFrom;
    if body == "" {
      assert body + t == t;
    } else {
      var p, q := body[..1], body[1..];
      assert body == p + q;
      BlockSeen(q, t);
      SeenStep(p, q + t, BLOCK);
      SeenChain(p, q, t, BLOCK, BLOCK, BLOCK);
    }
  }

  /** A comment or string is not seen, whether it is finished or cut off. */
  lemma {:induction false} LexemeSeen(l: Lexeme, r: string)
    requires LexemeOk(l)
    ensures SeenFrom(PrintLexeme(l) + r, NEUTRAL) == Blank(PrintLexeme(l)) + SeenFrom(r, NEUTRAL)
  {
    match l
    case Line(body) =>
      CommentSeen("//", body, "\n" + r, LINE);
      SeenStep("\n", r, LINE);
      SeenChain("//" + body, "\n", r, NEUTRAL, LINE, NEUTRAL);
    case Block(body) =>
      CommentSeen("/*", body, "*/" + r, BLOCK);
      SeenStep("*/", r, BLOCK);
      SeenChain("/*" + body, "*/", r, NEUTRAL, BLOCK, NEUTRAL);
    case Quoted(mode, gs) => QuotedSeen(mode, gs, r);
  }

  lemma {:induction false} CommentSeen(opener: string, body: string, t: string, f: Flags)
    requires (opener == "//" && f == LINE && '\n' !in body) || (opener == "/*" && f == BLOCK && BlockBody(body))
    requires f == BLOCK && body != "" && body[|body| - 1] == '*' ==> !StartsWith(t, '/')
    ensures SeenFrom(opener + body + t, NEUTRAL) == Blank(opener + body) + SeenFrom(t, f)
    ensures SeenFrom((opener + body) + t, NEUTRAL) == Blank(opener + body) + SeenFrom(t, f)
  {
    hide SeenFrom;
    SeenStep(opener, body + t, NEUTRAL);
    if f == LINE {
      LineSeen(body, t);
    } else {
      BlockSeen(body, t);
    }
    SeenChain(opener, body, t, NEUTRAL, f, f);
  }

  lemma {:induction false} QuotedSeen(mode: Mode, gs: seq<Glyph>, r: string)
    requires QuoteMode(mode) && GlyphsOk(gs, mode)
    ensures var text := PrintLexeme(Quoted(mode, gs));
            SeenFrom(text + r, NEUTRAL) == Blank(text) + SeenFrom(r, NEUTRAL)
  {
    hide SeenFrom, CloseAt, PrintGlyphs;
    var q, inner := [Quote(mode)], PrintGlyphs(gs) + [Quote(mode)];
    var t := PrintGlyphs(gs) + ([Quote(mode)] + r);
    AppendAssoc(PrintGlyphs(gs), q, r);
    GlyphsAt(t, gs, mode, r);
    QuoteSeen(t, false, Quote(mode));
    assert t[..|PrintGlyphs(gs)| + 1] == inner && t[|PrintGlyphs(gs)| + 1..] == r;
    SeenStep(q, t, NEUTRAL);
    SeenChain(q, inner, r, NEUTRAL, Flags(Some(Quote(mode)), false, false, false), NEUTRAL);
    AppendAssoc(q, PrintGlyphs(gs), q);
  }

  lemma {:induction false} UnfinishedSeen(l: Lexeme, dangling: bool)
    requires LexemeOk(l) && (dangling ==> l.Quoted?)
    ensures SeenFrom(Head(l) + Slash(dangling), NEUTRAL) == Blank(Head(l) + Slash(dangling))
  {
    match l
    case Line(body) =>
      CommentSeen("//", body, "", LINE);
      assert SeenFrom("", LINE) == "";
      assert ("//" + body) + "" == Head(l) + Slash(dangling) == "//" + body;
    case Block(body) =>
      CommentSeen("/*", body, "", BLOCK);
      assert SeenFrom("", BLOCK) == "";
      assert ("/*" + body) + "" == Head(l) + Slash(dangling) == "/*" + body;
    case Quoted(mode, gs) => UnfinishedQuoteSeen(mode, gs, dangling);
  }

  lemma {:induction false} UnfinishedQuoteSeen(mode: Mode, gs: seq<Glyph>, dangling: bool)
    requires QuoteMode(mode) && GlyphsOk(gs, mode)
    ensures var text := Head(Quoted(mode, gs)) + Slash(dangling);
            SeenFrom(text, NEUTRAL) == Blank(text)
  {
    hide SeenFrom, CloseAt, PrintGlyphs, ReadGlyphs;
    var q, t := [Quote(mode)], PrintGlyphs(gs) + Slash(dangling);
    GlyphsReadBack(gs, mode, Slash(dangling));
    CloseIsReader(t, mode);
    QuoteSeen(t, false, Quote(mode));
    SeenStep(q, t, NEUTRAL);
    BlankConcat(q, t);
    AppendAssoc(q, PrintGlyphs(gs), Slash(dangling));
  }

  lemma {:induction false} TemplateSeen(parts: Parts, r: string)
    requires LexedParts(parts) && Quiet(parts) && (!ClosedParts(parts) ==> r == "")
    ensures var text := "`" + PrintParts(parts);
            SeenFrom(text + r, NEUTRAL) == Blank(text) + SeenFrom(r, NEUTRAL)
  {
    hide SeenFrom, CloseAt, PrintParts, LexedParts, Quiet;
    var t := PrintParts(parts) + r;
    TemplateEndsWithItself(parts, r);
    ClosedPartsPrint(parts);
    QuoteSeen(t, false, '`');
    SeenStep("`", t, NEUTRAL);
    var inside := Flags(Some('`'), false, false, false);
    if ClosedParts(parts) {
      assert t[..|PrintParts(parts)|] == PrintParts(parts) && t[|PrintParts(parts)|..] == r;
    } else {
      assert t == PrintParts(parts);
      NothingSeen();
      assert Blank(t) + "" == Blank(t);
    }
    SeenChain("`", PrintParts(parts), r, NEUTRAL, inside, NEUTRAL);
  }

  lemma NothingSeen()
    ensures SeenFrom("", NEUTRAL) == ""
  {
  }

  /** The masked text with the interpolations blanked too; only the brace that closes an interpolation from inside is left. */
  function Outer(code: Code): string {
    match code
    case Eof => ""
    case CloseInterp => "}"
    case Char(c, rest) => [c] + Outer(rest)
    case Opaque(lexeme, rest) => Blank(PrintLexeme(lexeme)) + Outer(rest)
    case Template(parts, rest) => Blank("`" + PrintParts(parts)) + Outer(rest)
    case Unfinished(lexeme, dangling) => Blank(Head(lexeme) + Slash(dangling))
    case UnfinishedTemplate(parts) => Blank("`" + PrintParts(parts))
  }

  /** The scanner ends every template of this level that starts before offset `n` where the template ends. */
  predicate Whole(code: Code, n: int) {
    n <= 0 ||
    match code
    case Char(_, rest) => Whole(rest, n - 1)
    case Opaque(lexeme, rest) => Whole(rest, n - |PrintLexeme(lexeme)|)
    case Template(parts, rest) => Quiet(parts) && Whole(rest, n - 1 - |PrintParts(parts)|)
    case UnfinishedTemplate(parts) => Quiet(parts)
    case _ => true
  }

  /** Texts of one length that are the same up to offset `n`. */
  ghost predicate SameUpTo(a: string, b: string, n: int) {
    |a| == |b| && forall i :: 0 <= i < n && i < |a| ==> a[i] == b[i]
  }

  lemma SameBehind(p: string, a: string, b: string, n: int)
    requires SameUpTo(a, b, n - |p|)
    ensures SameUpTo(p + a, p + b, n)
  {
  }

  /** On such code the scanner sees the masked text with the interpolations blanked. */
  lemma {:induction false} OuterSeen(code: Code, open: Option<nat>, r: string, n: int)
    requires Lexed(code, open) && Whole(code, n) && (!Closed(code) ==> r == "")
    ensures SameUpTo(SeenFrom(Print(code) + r, NEUTRAL), Outer(code) + SeenFrom(r, NEUTRAL), n)
    decreases code
  {
    hide SeenFrom, PrintParts, LexedParts, Quiet, PrintLexeme, LexemeOk, Head, SameUpTo;
    if n <= 0 {
      NothingToCompare(code, r, n);
    } else {
      match code
      case Eof =>
        assert Print(code) + r == r && Outer(code) + SeenFrom(r, NEUTRAL) == SeenFrom(r, NEUTRAL);
        SameText(SeenFrom(r, NEUTRAL), n);
      case CloseInterp =>
        SeenStep("}", r, NEUTRAL);
        SameText(Outer(code) + SeenFrom(r, NEUTRAL), n);
      case Char(c, rest) =>
        OuterSeen(rest, AfterChar(open, c), r, n - 1);
        EmptyPrint(rest, CloseTemplate);
        SeenStep([c], Print(rest) + r, NEUTRAL);
        PieceSeen([c], [c], rest, r, n);
      case Opaque(l, rest) =>
        OuterSeen(rest, open, r, n - |PrintLexeme(l)|);
        LexemeSeen(l, Print(rest) + r);
        PieceSeen(PrintLexeme(l), Blank(PrintLexeme(l)), rest, r, n);
      case Template(parts, rest) =>
        OuterSeen(rest, open, r, n - 1 - |PrintParts(parts)|);
        TemplateSeen(parts, Print(rest) + r);
        PieceSeen("`" + PrintParts(parts), Blank("`" + PrintParts(parts)), rest, r, n);
      case Unfinished(l, dangling) =>
        UnfinishedSeen(l, dangling);
        CutOffSeen(Head(l) + Slash(dangling), r, n);
      case UnfinishedTemplate(parts) =>
        TemplateSeen(parts, "");
        CutOffSeen("`" + PrintParts(parts), r, n);
    }
  }

  /** Masking and blanking a template keep its length. */
  lemma {:induction false} TemplateLength(parts: Parts)
    ensures |BlankedParts(parts)| == |PrintParts(parts)|
    decreases parts
  {
    match parts
    case Text(_, rest) => TemplateLength(rest);
    case Interp(code, rest) =>
      CodeLength(code);
      TemplateLength(rest);
    case OpenInterp(code) => CodeLength(code);
    case _ =>
  }

  lemma {:induction false} CodeLength(code: Code)
    ensures |Blanked(code)| == |Print(code)| == |Outer(code)|
    decreases code
  {
    match code
    case Char(_, rest) => CodeLength(rest);
    case Opaque(_, rest) => CodeLength(rest);
    case Template(parts, rest) =>
      TemplateLength(parts);
      CodeLength(rest);
    case UnfinishedTemplate(parts) => TemplateLength(parts);
    case _ =>
  }

  lemma NothingToCompare(code: Code, r: string, n: int)
    requires n <= 0
    ensures SameUpTo(SeenFrom(Print(code) + r, NEUTRAL), Outer(code) + SeenFrom(r, NEUTRAL), n)
  {
    SeenLength(Print(code) + r, NEUTRAL);
    SeenLength(r, NEUTRAL);
    CodeLength(code);
  }

  lemma PieceSeen(p: string, o: string, rest: Code, r: string, n: int)
    requires |o| == |p| && SeenFrom(p + (Print(rest) + r), NEUTRAL) == o + SeenFrom(Print(rest) + r, NEUTRAL)
    requires SameUpTo(SeenFrom(Print(rest) + r, NEUTRAL), Outer(rest) + SeenFrom(r, NEUTRAL), n - |p|)
    ensures SameUpTo(SeenFrom(p + Print(rest) + r, NEUTRAL), o + Outer(rest) + SeenFrom(r, NEUTRAL), n)
  {
    hide SeenFrom, SameUpTo;
    AppendAssoc(p, Print(rest), r);
    SameBehind(o, SeenFrom(Print(rest) + r, NEUTRAL), Outer(rest) + SeenFrom(r, NEUTRAL), n);
    AppendAssoc(o, Outer(rest), SeenFrom(r, NEUTRAL));
  }

  lemma CutOffSeen(p: string, r: string, n: int)
    requires r == "" && (SeenFrom(p, NEUTRAL) == Blank(p) || SeenFrom(p + "", NEUTRAL) == Blank(p) + SeenFrom("", NEUTRAL))
    ensures SameUpTo(SeenFrom(p + r, NEUTRAL), Blank(p) + SeenFrom(r, NEUTRAL), n)
  {
    assert SeenFrom("", NEUTRAL) == "";
    hide SeenFrom, Blank;
    assert p + "" == p && Blank(p) + "" == Blank(p);
  }

  lemma SameText(s: string, n: int)
    ensures SameUpTo(s, s, n) && BlankedCopy(s, s)
  {
  }
}
