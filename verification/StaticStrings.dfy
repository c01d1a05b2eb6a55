/**
 * The checker's third scanner: `readStaticString`, which reads the title of a test call at the
 * offset of its opening quote.
 *
 * It must agree with the masker on where that string ends; a title with `${` in it is
 * discarded by the checker, because this scanner knows nothing of interpolations.
 */
module StaticStrings {
  import opened Basics
  import opened Masker
  import opened MaskerGrammar
  import opened MaskerParser
  import opened MaskedText

  datatype Title = Title(end: nat, value: string)

  function OpenedBy(c: char): (mode: Mode)
    requires Quoting(c)
    ensures Quote(mode) == c && (QuoteMode(mode) || mode == TemplateText)
  {
    if c == '\'' then SingleQuote else if c == '\"' then DoubleQuote else TemplateText
  }

  /** The loop's search, on the text that is left. */
  function CloseAt(s: string, escaped: bool, quote: char): (k: Option<nat>)
    ensures k.Some? ==> k.value < |s|
  {
    if s == "" then None
    else if !escaped && s[0] != '\\' && s[0] == quote then Some(0)
    else
      var k := CloseAt(s[1..], !escaped && s[0] == '\\', quote);
      if k.None? then None else Some(k.value + 1)
  }

  /** The string that starts at `offset`, if one does and it is closed: its text up to the closing quote, and the offset behind that. */
  function StaticString(source: string, offset: nat): Option<Title> {
    if offset >= |source| || !Quoting(source[offset]) then None
    else
      var k := CloseAt(source[offset + 1..], false, source[offset]);
      if k.None? then None else Some(Title(offset + 1 + k.value + 1, source[offset + 1..][..k.value]))
  }

  method ReadStaticString(source: string, offset: nat) returns (title: Option<Title>)
    ensures title == StaticString(source, offset)
  {
    if offset >= |source| || !Quoting(source[offset]) { return None; }
    var quote := source[offset];
    var escaped := false;
    ghost var goal := CloseAt(source[offset + 1..], false, quote);
    for index := offset + 1 to |source|
      invariant goal == match CloseAt(source[index..], escaped, quote) case None => None case Some(k) => Some(index - offset - 1 + k)
    {
      var character := source[index];
      assert source[index..][1..] == source[index + 1..];
      if escaped {
        escaped := false;
      } else if character == '\\' {
        escaped := true;
      } else if character == quote {
        assert source[offset + 1..][..index - offset - 1] == source[offset + 1..index];
        return Some(Title(index + 1, source[offset + 1..index]));
      }
    }
    return None;
  }

  // ---------------------------------------------------------------- what the result means

  lemma {:induction false} CloseIsReader(s: string, mode: Mode)
    requires QuoteMode(mode) || mode == TemplateText
    ensures var (gs, r) := ReadGlyphs(s, mode);
            CloseAt(s, false, Quote(mode)) == if r != "" && r[0] == Quote(mode) then Some(|s| - |r|) else None
  {
    hide PrintGlyphs, GlyphsOk;
    if s == "" || s == ['\\'] || s[0] == Quote(mode) {
    } else if s[0] == '\\' {
      assert s[1..][1..] == s[2..];
      CloseIsReader(s[2..], mode);
    } else {
      CloseIsReader(s[1..], mode);
    }
  }

  /** The string at `offset` is a quote, glyphs none of which closes it, and the same quote again. */
  ghost predicate StringAt(source: string, offset: nat, gs: seq<Glyph>, rest: string) {
    && offset < |source| && Quoting(source[offset])
    && GlyphsOk(gs, OpenedBy(source[offset]))
    && source[offset..] == [source[offset]] + PrintGlyphs(gs) + [source[offset]] + rest
  }

  lemma {:induction false} GlyphsAt(s: string, gs: seq<Glyph>, mode: Mode, rest: string)
    requires s == PrintGlyphs(gs) + ([Quote(mode)] + rest) && GlyphsOk(gs, mode) && (QuoteMode(mode) || mode == TemplateText)
    ensures CloseAt(s, false, Quote(mode)) == Some(|PrintGlyphs(gs)|)
    decreases |gs|
  {
    if gs == [] {
      assert s == [Quote(mode)] + rest;
    } else {
      var tail := PrintGlyphs(gs[1..]) + ([Quote(mode)] + rest);
      assert s == PrintGlyph(gs[0]) + tail;
      GlyphsAt(tail, gs[1..], mode, rest);
      assert gs[0].Plain? ==> s[1..] == tail;
      assert gs[0].Escaped? ==> s[1..][1..] == tail;
    }
  }

  /** The scanner finds a title exactly where a closed string stands, and returns that string's text and end. */
  lemma {:induction false} TitleIsExact(source: string, offset: nat, gs: seq<Glyph>, rest: string)
    requires StringAt(source, offset, gs, rest)
    ensures StaticString(source, offset) == Some(Title(|source| - |rest|, PrintGlyphs(gs)))
  {
    var mode := OpenedBy(source[offset]);
    var s := PrintGlyphs(gs) + ([Quote(mode)] + rest);
    assert source[offset + 1..] == source[offset..][1..] == s;
    GlyphsAt(s, gs, mode, rest);
    assert s[..|PrintGlyphs(gs)|] == PrintGlyphs(gs);
  }

  lemma {:induction false} TitleHasGlyphs(source: string, offset: nat) returns (gs: seq<Glyph>)
    requires StaticString(source, offset).Some?
    ensures var t := StaticString(source, offset).value;
            t.end <= |source| && StringAt(source, offset, gs, source[t.end..]) && t.value == PrintGlyphs(gs)
  {
    hide ReadGlyphs, PrintGlyphs, CloseAt;
    var mode := OpenedBy(source[offset]);
    var s := source[offset + 1..];
    CloseIsReader(s, mode);
    var r := ReadGlyphs(s, mode).1;
    gs := ReadGlyphs(s, mode).0;
    var end := StaticString(source, offset).value.end;
    assert s[..|s| - |r|] == PrintGlyphs(gs);
    assert source[end..] == s[|s| - |r| + 1..] == r[1..];
    TitleText(source, offset, PrintGlyphs(gs), r);
  }

  lemma TitleText(source: string, offset: nat, text: string, r: string)
    requires offset < |source| && source[offset + 1..] == text + r && r != "" && r[0] == source[offset]
    ensures source[offset..] == [source[offset]] + text + [source[offset]] + r[1..]
  {
    assert source[offset..] == [source[offset]] + (text + r);
    assert r == [source[offset]] + r[1..];
  }

  // ---------------------------------------------------------------- agreement with the masker

  /** A quoted title is the quoted lexeme that the masker blanks there, and both go on behind it. */
  lemma {:induction false} QuotedTitleIsLexeme(source: string, offset: nat, open: Option<nat>)
    requires StaticString(source, offset).Some? && source[offset] != '`'
    ensures var t := StaticString(source, offset).value;
            && t.end <= |source|
            && var code := Parse(source[offset..], open).0;
            && code.Opaque? && PrintLexeme(code.lexeme) == source[offset..t.end]
            && code.lexeme.Quoted? && PrintGlyphs(code.lexeme.glyphs) == t.value
            && code.rest == Parse(source[t.end..], open).0
  {
    hide Parse, Lexed;
    var gs := TitleHasGlyphs(source, offset);
    var mode, t := OpenedBy(source[offset]), StaticString(source, offset).value;
    var l := Quoted(mode, gs);
    OpaqueParses(l, source[t.end..], open);
    assert source[offset..] == PrintLexeme(l) + source[t.end..];
    assert source[offset..t.end] == source[offset..][..t.end - offset];
  }

  function TextParts(gs: seq<Glyph>): Parts {
    if gs == [] then CloseTemplate else Text(gs[0], TextParts(gs[1..]))
  }

  lemma {:induction false} TextPartsLexed(gs: seq<Glyph>)
    requires GlyphsOk(gs, TemplateText) && NoInterpolation(PrintGlyphs(gs))
    ensures LexedParts(TextParts(gs)) && ClosedParts(TextParts(gs)) && PrintParts(TextParts(gs)) == PrintGlyphs(gs) + "`"
  {
    if gs != [] {
      var text, rest := PrintGlyphs(gs), PrintGlyphs(gs[1..]);
      assert text == PrintGlyph(gs[0]) + rest;
      assert forall i :: 0 <= i < |rest| ==> rest[i] == text[i + |PrintGlyph(gs[0])|];
      assert NoInterpolation(rest);
      TextPartsLexed(gs[1..]);
      assert (rest + "`")[0] == if rest == "" then '`' else rest[0];
      assert gs[0] == Plain('$') ==> text[0] == '$' && (rest != "" ==> text[1] == rest[0]);
      assert PrintParts(TextParts(gs)) == text + "`";
    }
  }

  /** So is a template title that the checker keeps: without `${` it is a template of text only, which the masker blanks to the same end. */
  lemma {:induction false} TemplateTitleIsTemplate(source: string, offset: nat, open: Option<nat>)
    requires StaticString(source, offset).Some? && source[offset] == '`'
    requires NoInterpolation(StaticString(source, offset).value.value)
    ensures var t := StaticString(source, offset).value;
            && t.end <= |source|
            && var code := Parse(source[offset..], open).0;
            && code.Template? && "`" + PrintParts(code.parts) == source[offset..t.end]
            && code.rest == Parse(source[t.end..], open).0
  {
    hide Parse, ParseParts, Lexed, PrintGlyphs, StaticString;
    var gs := TitleHasGlyphs(source, offset);
    var t := StaticString(source, offset).value;
    var parts, rest := TextParts(gs), source[t.end..];
    TextPartsLexed(gs);
    PartsParse(parts, rest);
    TemplateParses(parts, rest, open);
    assert source[offset..] == "`" + PrintParts(parts) + rest;
    assert source[offset..t.end] == source[offset..][..t.end - offset];
  }
}
