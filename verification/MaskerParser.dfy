/**
 * A recursive-descent reader for the lexical grammar, and the proof that it and the printer
 * are inverse to each other: every text is the print of exactly one lexical tree.
 */
module MaskerParser {
  import opened Basics
  import opened Masker
  import opened MaskerGrammar

  lemma PrintCons(g: Glyph, gs: seq<Glyph>, r: string)
    ensures PrintGlyphs([g] + gs) + r == PrintGlyph(g) + (PrintGlyphs(gs) + r)
  {
    assert ([g] + gs)[1..] == gs;
    AppendAssoc(PrintGlyph(g), PrintGlyphs(gs), r);
  }

  /** The glyphs before the closing quote, a dangling backslash, or the end. */
  function ReadGlyphs(s: string, mode: Mode): (r: (seq<Glyph>, string))
    ensures PrintGlyphs(r.0) + r.1 == s && |r.1| <= |s|
    ensures GlyphsOk(r.0, mode)
    ensures r.1 == "" || r.1 == ['\\'] || r.1[0] == Quote(mode)
  {
    if s == "" || s == ['\\'] || s[0] == Quote(mode) then ([], s)
    else
      var width := if s[0] == '\\' then 2 else 1;
      var glyph := if s[0] == '\\' then Escaped(s[1]) else Plain(s[0]);
      var (gs, r) := ReadGlyphs(s[width..], mode);
      assert s == PrintGlyph(glyph) + s[width..];
      PrintCons(glyph, gs, r);
      ([glyph] + gs, r)
  }

  /** The first index of a block-comment terminator, or the length. */
  function BlockEnd(s: string): (k: nat)
    ensures k <= |s|
    ensures k < |s| ==> k + 2 <= |s| && s[k] == '*' && s[k + 1] == '/'
    ensures BlockBody(s[..k])
    ensures k > 0 && s[k - 1] == '*' ==> k == |s| || s[k] != '/'
    ensures forall i :: 0 <= i < k && i + 1 < |s| ==> !(s[i] == '*' && s[i + 1] == '/')
  {
    if s == "" then 0
    else if s[0] == '*' && HasNext(s, '/') then 0
    else
      var k := BlockEnd(s[1..]);
      assert s[..k + 1] == [s[0]] + s[1..][..k];
      assert forall i :: 0 <= i < k + 1 && i + 1 < |s| ==> i == 0 || (s[i] == s[1..][i - 1] && s[i + 1] == s[1..][i]);
      k + 1
  }

  predicate OpensLexeme(s: string) {
    s != "" && (s[0] == '\'' || s[0] == '\"' || (s[0] == '/' && (HasNext(s, '/') || HasNext(s, '*'))))
  }

  /** The comment or quoted string that starts a text, and what follows its body. */
  function ReadHead(s: string): (r: (Lexeme, string))
    requires OpensLexeme(s)
    ensures |r.1| < |s|
  {
    if s[0] != '/' then
      var mode := if s[0] == '\'' then SingleQuote else DoubleQuote;
      var (gs, r) := ReadGlyphs(s[1..], mode);
      (Quoted(mode, gs), r)
    else if s[1] == '/' then
      var k := IndexOrEnd(s[2..], '\n', 0);
      (Line(s[2..][..k]), s[2..][k..])
    else
      var k := BlockEnd(s[2..]);
      (Block(s[2..][..k]), s[2..][k..])
  }

  lemma {:induction false} HeadRead(s: string)
    requires OpensLexeme(s)
    ensures var (l, r) := ReadHead(s);
            && Head(l) + r == s && LexemeOk(l)
            && (r == "" || (l.Quoted? && r == ['\\']) || Terminator(l) <= r)
  {
    if s[0] != '/' {
      assert s == [s[0]] + s[1..];
      AppendAssoc([s[0]], PrintGlyphs(ReadHead(s).0.glyphs), ReadHead(s).1);
    } else if s[1] == '/' {
      var k := IndexOrEnd(s[2..], '\n', 0);
      SplitHead(s, "//", k);
    } else {
      SplitHead(s, "/*", BlockEnd(s[2..]));
    }
  }

  lemma SplitHead(s: string, opener: string, k: nat)
    requires |opener| == 2 <= |s| && s[..2] == opener && k <= |s[2..]|
    ensures opener + s[2..][..k] + s[2..][k..] == s
  {
  }

  /** The tree that starts a text, and what follows the brace that closes it. */
  function Parse(s: string, open: Option<nat>): (r: (Code, string))
    ensures |r.1| <= |s|
    decreases |s|
  {
    if s == "" then (Eof, "")
    else if OpensLexeme(s) then
      var (l, r) := ReadHead(s);
      if Terminator(l) <= r then
        var (rest, r') := Parse(r[|Terminator(l)|..], open);
        (Opaque(l, rest), r')
      else
        (Unfinished(l, r != ""), "")
    else if s[0] == '`' then
      var (parts, r) := ParseParts(s[1..]);
      if ClosedParts(parts) then
        var (rest, r') := Parse(r, open);
        (Template(parts, rest), r')
      else
        (UnfinishedTemplate(parts), "")
    else if s[0] == '}' && open == Some(0) then (CloseInterp, s[1..])
    else
      var (rest, r) := Parse(s[1..], AfterChar(open, s[0]));
      (Char(s[0], rest), r)
  }

  /** The template text behind an opening backquote, and what follows it. */
  function ParseParts(s: string): (r: (Parts, string))
    ensures |r.1| <= |s|
    decreases |s|
  {
    if s == "" || s == ['\\'] then (OpenText(s != ""), "")
    else if s[0] == '`' then (CloseTemplate, s[1..])
    else if s[0] == '$' && HasNext(s, '{') then
      var (code, r) := Parse(s[2..], Some(0));
      if Closed(code) then
        var (rest, r') := ParseParts(r);
        (Interp(code, rest), r')
      else
        (OpenInterp(code), "")
    else if s[0] == '\\' then
      var (rest, r) := ParseParts(s[2..]);
      (Text(Escaped(s[1]), rest), r)
    else
      var (rest, r) := ParseParts(s[1..]);
      (Text(Plain(s[0]), rest), r)
  }

  ghost predicate Prints(code: Code, r: string, s: string, open: Option<nat>) {
    Print(code) + r == s && Lexed(code, open) && (!Closed(code) ==> r == "")
  }

  ghost predicate PrintsParts(parts: Parts, r: string, s: string) {
    PrintParts(parts) + r == s && LexedParts(parts) && (!ClosedParts(parts) ==> r == "")
  }

  /** Printing what was read gives the text back, and what was read is a lexical tree. */
  lemma {:induction false} ParsePrints(s: string, open: Option<nat>)
    ensures Prints(Parse(s, open).0, Parse(s, open).1, s, open)
    decreases |s|
  {
    if s == "" {
    } else if OpensLexeme(s) {
      var (l, r) := ReadHead(s);
      if Terminator(l) <= r {
        ParsePrints(r[|Terminator(l)|..], open);
      }
      LexemePrints(s, open);
    } else if s[0] == '`' {
      PartsPrint(s[1..]);
      var (parts, r) := ParseParts(s[1..]);
      if ClosedParts(parts) {
        ParsePrints(r, open);
      }
      TemplatePrints(s, open);
    } else if s[0] == '}' && open == Some(0) {
    } else {
      ParsePrints(s[1..], AfterChar(open, s[0]));
      var (rest, q) := Parse(s[1..], AfterChar(open, s[0]));
      AppendAssoc([s[0]], Print(rest), q);
    }
  }

  lemma {:induction false} LexemePrints(s: string, open: Option<nat>)
    requires OpensLexeme(s)
    requires var (l, r) := ReadHead(s); Terminator(l) <= r ==>
             var r' := r[|Terminator(l)|..]; Prints(Parse(r', open).0, Parse(r', open).1, r', open)
    ensures Prints(Parse(s, open).0, Parse(s, open).1, s, open)
  {
    hide ParseParts, ReadGlyphs, ReadHead, Head, Terminator, LexemeOk, PrintGlyphs, PrintParts, LexedParts;
    HeadRead(s);
    var (l, r) := ReadHead(s);
    if Terminator(l) <= r {
      var r' := r[|Terminator(l)|..];
      var (rest, q) := Parse(r', open);
      PrefixSplit(Terminator(l), r);
      AppendAssoc(Head(l), Terminator(l), r');
      AppendAssoc(PrintLexeme(l), Print(rest), q);
    }
  }

  lemma {:induction false} TemplatePrints(s: string, open: Option<nat>)
    requires s != "" && s[0] == '`'
    requires var (parts, r) := ParseParts(s[1..]);
             && PrintsParts(parts, r, s[1..])
             && (ClosedParts(parts) ==> Prints(Parse(r, open).0, Parse(r, open).1, r, open))
    ensures Prints(Parse(s, open).0, Parse(s, open).1, s, open)
  {
    hide ParseParts, ReadGlyphs, PrintParts, LexedParts;
    var (parts, r) := ParseParts(s[1..]);
    assert s == "`" + (PrintParts(parts) + r);
    if ClosedParts(parts) {
      var (rest, q) := Parse(r, open);
      AppendAssoc("`", PrintParts(parts), r);
      AppendAssoc("`" + PrintParts(parts), Print(rest), q);
    }
  }

  lemma {:induction false} PartsPrint(s: string)
    ensures PrintsParts(ParseParts(s).0, ParseParts(s).1, s)
    decreases |s|
  {
    if s == "" || s == ['\\'] || s[0] == '`' {
    } else if s[0] == '$' && HasNext(s, '{') {
      ParsePrints(s[2..], Some(0));
      var (code, r) := Parse(s[2..], Some(0));
      if Closed(code) {
        PartsPrint(r);
      }
      InterpPrints(s);
    } else {
      PartsPrint(s[if s[0] == '\\' then 2 else 1..]);
      TextPrints(s);
    }
  }

  lemma {:induction false} InterpPrints(s: string)
    requires s != "" && s[0] == '$' && HasNext(s, '{')
    requires var (code, r) := Parse(s[2..], Some(0));
             && Prints(code, r, s[2..], Some(0))
             && (Closed(code) ==> PrintsParts(ParseParts(r).0, ParseParts(r).1, r))
    ensures PrintsParts(ParseParts(s).0, ParseParts(s).1, s)
  {
    hide Parse, Print, Lexed;
    var (code, r) := Parse(s[2..], Some(0));
    assert s == "${" + (Print(code) + r);
    if Closed(code) {
      var (rest, q) := ParseParts(r);
      AppendAssoc("${", Print(code), r);
      AppendAssoc("${" + Print(code), PrintParts(rest), q);
    }
  }

  lemma {:induction false} TextPrints(s: string)
    requires s != "" && s != ['\\'] && s[0] != '`' && !(s[0] == '$' && HasNext(s, '{'))
    requires var t := s[if s[0] == '\\' then 2 else 1..]; PrintsParts(ParseParts(t).0, ParseParts(t).1, t)
    ensures PrintsParts(ParseParts(s).0, ParseParts(s).1, s)
  {
    hide Parse, Print, Lexed;
    var width := if s[0] == '\\' then 2 else 1;
    var glyph := if s[0] == '\\' then Escaped(s[1]) else Plain(s[0]);
    var (rest, q) := ParseParts(s[width..]);
    assert s == PrintGlyph(glyph) + s[width..];
    assert ParseParts(s) == (Text(glyph, rest), q);
    AppendAssoc(PrintGlyph(glyph), PrintParts(rest), q);
  }

  // ---------------------------------------------------------------- reading a printed tree

  predicate Stops(t: string, mode: Mode) {
    t == "" || t == ['\\'] || t[0] == Quote(mode)
  }

  lemma {:induction false} GlyphsReadBack(gs: seq<Glyph>, mode: Mode, t: string)
    requires GlyphsOk(gs, mode) && QuoteMode(mode) && Stops(t, mode)
    ensures ReadGlyphs(PrintGlyphs(gs) + t, mode) == (gs, t)
  {
    var s := PrintGlyphs(gs) + t;
    if gs == [] {
      assert s == t;
    } else {
      GlyphsReadBack(gs[1..], mode, t);
      AppendAssoc(PrintGlyph(gs[0]), PrintGlyphs(gs[1..]), t);
      assert s[|PrintGlyph(gs[0])|..] == PrintGlyphs(gs[1..]) + t;
      assert [gs[0]] + gs[1..] == gs;
    }
  }

  lemma {:induction false} BlockEndAt(body: string, t: string)
    requires BlockBody(body) && (t == "" || "*/" <= t)
    ensures BlockEnd(body + t) == |body|
  {
    hide BlockEnd;
    var s := body + t;
    assert forall i :: 0 <= i < |body| ==> s[i] == body[i];
    assert t != "" ==> s[|body|] == '*' && s[|body| + 1] == '/';
  }

  lemma {:induction false} HeadReadBack(l: Lexeme, t: string)
    requires LexemeOk(l)
    requires t == "" || (l.Quoted? && t == ['\\']) || Terminator(l) <= t
    ensures OpensLexeme(Head(l) + t) && ReadHead(Head(l) + t) == (l, t)
  {
    hide ReadHead, Head, PrintGlyphs;
    if l.Quoted? {
      QuotedReadBack(l, t);
    } else {
      CommentReadBack(l, t);
    }
  }

  lemma {:induction false} QuotedReadBack(l: Lexeme, t: string)
    requires LexemeOk(l) && l.Quoted? && Stops(t, l.mode)
    ensures OpensLexeme(Head(l) + t) && ReadHead(Head(l) + t) == (l, t)
  {
    hide ReadGlyphs, PrintGlyphs;
    GlyphsReadBack(l.glyphs, l.mode, t);
    assert (Head(l) + t)[1..] == PrintGlyphs(l.glyphs) + t;
  }

  lemma {:induction false} CommentReadBack(l: Lexeme, t: string)
    requires LexemeOk(l) && !l.Quoted? && (t == "" || Terminator(l) <= t)
    ensures OpensLexeme(Head(l) + t) && ReadHead(Head(l) + t) == (l, t)
  {
    CommentSplit(if l.Line? then "//" else "/*", l.body, t);
    if l.Line? {
      LineEndAt(l.body, t);
    } else {
      BlockEndAt(l.body, t);
    }
  }

  lemma CommentSplit(opener: string, body: string, t: string)
    requires |opener| == 2
    ensures var s := opener + body + t;
            s[..2] == opener && s[2..] == body + t && s[2..][..|body|] == body && s[2..][|body|..] == t
  {
  }

  lemma {:induction false} LineEndAt(body: string, t: string)
    requires '\n' !in body && (t == "" || "\n" <= t)
    ensures IndexOrEnd(body + t, '\n', 0) == |body|
  {
    var k := IndexOrEnd(body + t, '\n', 0);
    assert forall i :: 0 <= i < |body| ==> body[i] != '\n';
    assert t != "" ==> (body + t)[|body|] == '\n';
  }

  /** The reader recovers a lexical tree from its print, whatever follows a closed one. */
  lemma {:induction false} PrintParses(code: Code, open: Option<nat>, r: string)
    requires Lexed(code, open) && (!Closed(code) ==> r == "")
    ensures Parse(Print(code) + r, open) == (code, r)
    decreases code
  {
    hide ParseParts, PrintParts;
    match code
    case Eof => assert Print(code) + r == "";
    case CloseInterp =>
    case Char(c, rest) =>
      PrintParses(rest, AfterChar(open, c), r);
      CharParses(c, rest, open, r);
    case Opaque(l, rest) =>
      PrintParses(rest, open, r);
      OpaqueParses(l, Print(rest) + r, open);
      AppendAssoc(PrintLexeme(l), Print(rest), r);
    case Template(parts, rest) =>
      PartsParse(parts, Print(rest) + r);
      PrintParses(rest, open, r);
      TemplateParses(parts, Print(rest) + r, open);
      AppendAssoc("`" + PrintParts(parts), Print(rest), r);
    case Unfinished(l, dangling) =>
      HeadReadBack(l, Slash(dangling));
      assert Print(code) + r == Print(code);
    case UnfinishedTemplate(parts) =>
      PartsParse(parts, "");
      assert (Print(code) + r)[1..] == PrintParts(parts) + "";
  }

  lemma {:induction false} CharParses(c: char, rest: Code, open: Option<nat>, r: string)
    requires Lexed(Char(c, rest), open) && (!Closed(rest) ==> r == "")
    requires Parse(Print(rest) + r, AfterChar(open, c)) == (rest, r)
    ensures Parse(Print(Char(c, rest)) + r, open) == (Char(c, rest), r)
  {
    hide ParseParts, PrintParts, ReadHead, PrintLexeme, Head, Terminator, LexemeOk;
    EmptyPrint(rest, CloseTemplate);
    AppendAssoc([c], Print(rest), r);
    assert (Print(Char(c, rest)) + r)[1..] == Print(rest) + r;
  }

  lemma {:induction false} TemplateParses(parts: Parts, t: string, open: Option<nat>)
    requires ParseParts(PrintParts(parts) + t) == (parts, t) && ClosedParts(parts)
    ensures Parse("`" + PrintParts(parts) + t, open) == (Template(parts, Parse(t, open).0), Parse(t, open).1)
  {
    hide PrintParts, ParseParts, LexedParts;
    assert ("`" + PrintParts(parts) + t)[1..] == PrintParts(parts) + t;
  }

  lemma {:induction false} OpaqueParses(l: Lexeme, t: string, open: Option<nat>)
    requires LexemeOk(l)
    ensures Parse(PrintLexeme(l) + t, open) == (Opaque(l, Parse(t, open).0), Parse(t, open).1)
  {
    HeadReadBack(l, Terminator(l) + t);
    AppendAssoc(Head(l), Terminator(l), t);
    assert (Terminator(l) + t)[|Terminator(l)|..] == t;
  }

  lemma {:induction false} PartsParse(parts: Parts, r: string)
    requires LexedParts(parts) && (!ClosedParts(parts) ==> r == "")
    ensures ParseParts(PrintParts(parts) + r) == (parts, r)
    decreases parts
  {
    hide Parse, Print;
    var s := PrintParts(parts) + r;
    match parts
    case CloseTemplate => assert s[0] == '`' && s[1..] == r;
    case OpenText(dangling) => assert s == Slash(dangling);
    case Text(g, rest) =>
      PartsParse(rest, r);
      TextParses(g, rest, r);
    case Interp(code, rest) =>
      PartsParse(rest, r);
      PrintParses(code, Some(0), PrintParts(rest) + r);
      AppendAssoc("${" + Print(code), PrintParts(rest), r);
      assert s[2..] == Print(code) + (PrintParts(rest) + r);
    case OpenInterp(code) =>
      PrintParses(code, Some(0), r);
      assert s[2..] == Print(code) + r;
  }

  lemma {:induction false} TextParses(g: Glyph, rest: Parts, r: string)
    requires LexedParts(Text(g, rest)) && (!ClosedParts(rest) ==> r == "")
    requires ParseParts(PrintParts(rest) + r) == (rest, r)
    ensures ParseParts(PrintParts(Text(g, rest)) + r) == (Text(g, rest), r)
  {
    hide Parse, Print, Lexed;
    EmptyPrint(Eof, rest);
    var s := PrintParts(Text(g, rest)) + r;
    assert s == PrintGlyph(g) + (PrintParts(rest) + r);
    assert s[|PrintGlyph(g)|..] == PrintParts(rest) + r;
  }
}
