/**
 * `extractDevenvYamlInputs`: the line scanner for the `inputs:` block of a devenv YAML file.
 */
module DevenvInputs {
  import opened Basics

  datatype Input = Input(name: string, url: string)

  /** JavaScript's white space. */
  predicate White(c: char) {
    || c == ' ' || c == '\t' || c == '\n' || c == '\r' || c == '\U{000B}' || c == '\U{000C}' || c == '\U{00A0}' || c == '\U{1680}'
    || '\U{2000}' <= c <= '\U{200A}' || c == '\U{2028}' || c == '\U{2029}' || c == '\U{202F}' || c == '\U{205F}' || c == '\U{3000}'
    || c == '\U{FEFF}'
  }

  function TrimStart(s: string): (t: string)
    ensures |t| <= |s|
  {
    if s != "" && White(s[0]) then TrimStart(s[1..]) else s
  }

  function TrimEnd(s: string): string {
    if s != "" && White(s[|s| - 1]) then TrimEnd(s[..|s| - 1]) else s
  }

  predicate NameChar(c: char) {
    'a' <= c <= 'z' || 'A' <= c <= 'Z' || '0' <= c <= '9' || c == '_' || c == '-'
  }

  predicate Name(s: string) {
    s != "" && forall i :: 0 <= i < |s| ==> NameChar(s[i])
  }

  /** The pattern `^([a-zA-Z0-9_-]+):$`. */
  function NameMatch(trimmed: string): Option<string> {
    if trimmed != "" && trimmed[|trimmed| - 1] == ':' && Name(trimmed[..|trimmed| - 1]) then Some(trimmed[..|trimmed| - 1]) else None
  }

  /** The pattern `^url:\s*(.+)$`: `.` matches no line terminator, and `\s*` gives one character back when nothing follows it. */
  function UrlMatch(trimmed: string): Option<string> {
    if !("url:" <= trimmed) then None
    else
      var rest := trimmed[4..];
      var value := TrimStart(rest);
      if value != "" then if forall i :: 0 <= i < |value| ==> !LineTerminator(value[i]) then Some(value) else None
      else if rest != "" && !LineTerminator(rest[|rest| - 1]) then Some(rest[|rest| - 1..])
      else None
  }

  predicate QuotedBy(raw: string, q: char) {
    raw != "" && raw[0] == q && raw[|raw| - 1] == q
  }

  /** Surrounding quotes of one kind are dropped. */
  function Unquote(raw: string): string {
    if QuotedBy(raw, '\"') || QuotedBy(raw, '\'') then if |raw| < 2 then "" else raw[1..|raw| - 1] else raw
  }

  function Trim(s: string): string {
    TrimEnd(TrimStart(s))
  }

  /** The scanner's variables. */
  datatype Scanner = Scanner(inInputs: bool, inputsIndent: int, current: Option<string>)

  const START := Scanner(false, -1, None)

  function Indent(line: string): nat {
    |line| - |TrimStart(line)|
  }

  function StepScanner(st: Scanner, line: string): (Scanner, seq<Input>) {
    var trimmed, indent := TrimStart(line), Indent(line);
    if trimmed == "inputs:" && !st.inInputs then (Scanner(true, indent, None), [])
    else if !st.inInputs then (st, [])
    else if trimmed != "" && indent <= st.inputsIndent && trimmed[0] != '#' then (Scanner(false, st.inputsIndent, None), [])
    else if NameMatch(trimmed).Some? && indent > st.inputsIndent then (st.(current := NameMatch(trimmed)), [])
    else if st.current.Some? && UrlMatch(trimmed).Some? then (st, [Input(st.current.value, Unquote(Trim(UrlMatch(trimmed).value)))])
    else (st, [])
  }

  /** The inputs that the scanner finds in the remaining lines. */
  function Scan(lines: seq<string>, st: Scanner): seq<Input> {
    if lines == [] then [] else StepScanner(st, lines[0]).1 + Scan(lines[1..], StepScanner(st, lines[0]).0)
  }

  lemma {:induction false} ScanStep(lines: seq<string>, i: nat, st: Scanner, inputs: seq<Input>)
    requires i < |lines|
    ensures var (next, found) := StepScanner(st, lines[i]);
            inputs + Scan(lines[i..], st) == (inputs + found) + Scan(lines[i + 1..], next)
  {
    hide StepScanner;
    assert lines[i..][1..] == lines[i + 1..];
  }

  /** The scanner on a whole file. */
  method ExtractDevenvYamlInputs(content: string) returns (inputs: seq<Input>)
    ensures inputs == Scan(Lines(content), START)
  {
    hide Scan, NameMatch, UrlMatch, TrimStart, Trim, Unquote;
    inputs := [];
    var lines := Lines(content);
    var inInputs := false;
    var inputsIndent := -1;
    var currentInputName: Option<string> := None;
    for i := 0 to |lines|
      invariant inputs + Scan(lines[i..], Scanner(inInputs, inputsIndent, currentInputName)) == Scan(lines, START)
    {
      ScanStep(lines, i, Scanner(inInputs, inputsIndent, currentInputName), inputs);
      var line := lines[i];
      var trimmed := TrimStart(line);
      var indent := |line| - |trimmed|;
      if trimmed == "inputs:" && !inInputs {
        inInputs := true;
        inputsIndent := indent;
        currentInputName := None;
        continue;
      }
      if !inInputs { continue; }
      if trimmed != "" && indent <= inputsIndent && trimmed[0] != '#' {
        inInputs := false;
        currentInputName := None;
        continue;
      }
      var inputNameMatch := NameMatch(trimmed);
      if inputNameMatch.Some? && indent > inputsIndent {
        currentInputName := inputNameMatch;
        continue;
      }
      var urlMatch := UrlMatch(trimmed);
      if currentInputName.Some? && urlMatch.Some? {
        var raw := Trim(urlMatch.value);
        inputs := inputs + [Input(currentInputName.value, Unquote(raw))];
      }
    }
    NothingLeft(lines, Scanner(inInputs, inputsIndent, currentInputName));
  }

  lemma NothingLeft(lines: seq<string>, st: Scanner)
    ensures Scan(lines[|lines|..], st) == []
  {
  }

  // ---------------------------------------------------------------- printing

  datatype Style = Bare | SingleQuoted | DoubleQuoted

  /** How one input is printed: the style of its URL and the two indentations. */
  datatype Printed = Printed(input: Input, style: Style, nameIndent: nat, urlIndent: nat)

  function Spaces(n: nat): string {
    if n == 0 then "" else " " + Spaces(n - 1)
  }

  function PrintUrl(url: string, style: Style): string {
    match style
    case Bare => url
    case SingleQuoted => "'" + url + "'"
    case DoubleQuoted => "\"" + url + "\""
  }

  function PrintInput(p: Printed): seq<string> {
    [Spaces(p.nameIndent) + p.input.name + ":", Spaces(p.urlIndent) + "url: " + PrintUrl(p.input.url, p.style)]
  }

  function PrintInputs(ps: seq<Printed>): seq<string> {
    if ps == [] then [] else PrintInput(ps[0]) + PrintInputs(ps[1..])
  }

  function PrintBlock(indent: nat, ps: seq<Printed>): seq<string> {
    [Spaces(indent) + "inputs:"] + PrintInputs(ps)
  }

  predicate WordChar(c: char) {
    'a' <= c <= 'z' || 'A' <= c <= 'Z' || '0' <= c <= '9'
  }

  /** Input names are words joined by dashes and underscores. */
  predicate InputName(s: string) {
    s != "" && forall i :: 0 <= i < |s| ==> WordChar(s[i]) || s[i] in "-_"
  }

  /** A bare URL must not look quoted or start or end in white space; no URL holds a line terminator. */
  predicate PrintOk(p: Printed, indent: nat) {
    && InputName(p.input.name) && p.nameIndent > indent && p.urlIndent > indent
    && (forall i :: 0 <= i < |p.input.url| ==> !LineTerminator(p.input.url[i]))
    && (p.style == Bare ==>
          && p.input.url != "" && !White(p.input.url[0]) && !White(p.input.url[|p.input.url| - 1])
          && !QuotedBy(p.input.url, '\"') && !QuotedBy(p.input.url, '\''))
  }

  function InputsOf(ps: seq<Printed>): seq<Input> {
    if ps == [] then [] else [ps[0].input] + InputsOf(ps[1..])
  }

  // ---------------------------------------------------------------- reading back

  lemma {:induction false} SpacesTrimmed(n: nat, text: string)
    requires text != "" && !White(text[0])
    ensures TrimStart(Spaces(n) + text) == text && Indent(Spaces(n) + text) == n
  {
    var s := Spaces(n) + text;
    if n == 0 {
      assert s == text;
    } else {
      assert s[1..] == Spaces(n - 1) + text;
      SpacesTrimmed(n - 1, text);
    }
  }

  lemma {:induction false} UrlReadsBack(url: string, style: Style)
    requires PrintOk(Printed(Input("x", url), style, 1, 1), 0)
    ensures var trimmed := "url: " + PrintUrl(url, style);
            && NameMatch(trimmed) == None
            && UrlMatch(trimmed).Some? && Unquote(Trim(UrlMatch(trimmed).value)) == url
  {
    hide UrlMatch, NameMatch, Trim, Unquote, PrintUrl;
    PrintedUrl(url, style);
    UrlLineMatches(PrintUrl(url, style));
  }

  /** A printed URL starts and ends in visible characters, stays on its line, and loses exactly its quotes. */
  lemma {:induction false} PrintedUrl(url: string, style: Style)
    requires PrintOk(Printed(Input("x", url), style, 1, 1), 0)
    ensures var printed := PrintUrl(url, style);
            && printed != "" && !White(printed[0]) && !White(printed[|printed| - 1])
            && (forall i :: 0 <= i < |printed| ==> !LineTerminator(printed[i]))
            && Unquote(printed) == url
  {
    var printed := PrintUrl(url, style);
    assert style != Bare ==> |printed| == |url| + 2 && printed[1..|printed| - 1] == url;
  }

  lemma {:induction false} UrlLineMatches(printed: string)
    requires printed != "" && !White(printed[0]) && !White(printed[|printed| - 1])
    requires forall i :: 0 <= i < |printed| ==> !LineTerminator(printed[i])
    ensures var trimmed := "url: " + printed;
            NameMatch(trimmed) == None && UrlMatch(trimmed).Some? && Trim(UrlMatch(trimmed).value) == printed
  {
    var trimmed := "url: " + printed;
    assert trimmed[..|trimmed| - 1][3] == ':';
    assert trimmed[4..] == " " + printed && (" " + printed)[1..] == printed;
    assert TrimStart(" " + printed) == printed;
  }

  lemma {:induction false} NameLineRead(st: Scanner, p: Printed)
    requires st.inInputs && 0 <= st.inputsIndent && PrintOk(p, st.inputsIndent)
    ensures StepScanner(st, PrintInput(p)[0]) == (st.(current := Some(p.input.name)), [])
  {
    var text := p.input.name + ":";
    assert PrintInput(p)[0] == Spaces(p.nameIndent) + text;
    assert NameChar(text[0]);
    SpacesTrimmed(p.nameIndent, text);
    assert text[..|text| - 1] == p.input.name;
  }

  lemma {:induction false} UrlLineRead(st: Scanner, p: Printed)
    requires st.inInputs && 0 <= st.inputsIndent && PrintOk(p, st.inputsIndent) && st.current == Some(p.input.name)
    ensures StepScanner(st, PrintInput(p)[1]) == (st, [p.input])
  {
    var text := "url: " + PrintUrl(p.input.url, p.style);
    assert PrintInput(p)[1] == Spaces(p.urlIndent) + text;
    SpacesTrimmed(p.urlIndent, text);
    UrlReadsBack(p.input.url, p.style);
  }

  predicate AllOk(ps: seq<Printed>, indent: nat) {
    forall i :: 0 <= i < |ps| ==> PrintOk(ps[i], indent)
  }

  /** The scanner after a printed list: the last name is still current. */
  function AfterInputs(ps: seq<Printed>, st: Scanner): Scanner {
    if ps == [] then st else AfterInputs(ps[1..], st.(current := Some(ps[0].input.name)))
  }

  lemma {:induction false} InputsReadBack(ps: seq<Printed>, rest: seq<string>, st: Scanner)
    requires st.inInputs && 0 <= st.inputsIndent && AllOk(ps, st.inputsIndent)
    ensures Scan(PrintInputs(ps) + rest, st) == InputsOf(ps) + Scan(rest, AfterInputs(ps, st))
    ensures AfterInputs(ps, st).inInputs && AfterInputs(ps, st).inputsIndent == st.inputsIndent
    decreases ps
  {
    hide StepScanner, Scan, PrintInput, PrintOk;
    if ps == [] {
      assert PrintInputs(ps) + rest == rest;
    } else {
      var tail := PrintInputs(ps[1..]) + rest;
      var next := st.(current := Some(ps[0].input.name));
      OneInputReadBack(ps[0], tail, st);
      InputsReadBack(ps[1..], rest, next);
      assert PrintInputs(ps) + rest == PrintInput(ps[0]) + tail;
      assert Scan(PrintInputs(ps) + rest, st) == [ps[0].input] + (InputsOf(ps[1..]) + Scan(rest, AfterInputs(ps, st)));
    }
  }

  lemma {:induction false} OneInputReadBack(p: Printed, tail: seq<string>, st: Scanner)
    requires st.inInputs && 0 <= st.inputsIndent && PrintOk(p, st.inputsIndent)
    ensures Scan(PrintInput(p) + tail, st) == [p.input] + Scan(tail, st.(current := Some(p.input.name)))
  {
    hide StepScanner, PrintOk;
    NameLineRead(st, p);
    UrlLineRead(st.(current := Some(p.input.name)), p);
    var lines := PrintInput(p) + tail;
    assert lines[1..] == [PrintInput(p)[1]] + tail && lines[1..][1..] == tail;
  }

  /** Dedented content: a line that ends the block. */
  predicate Dedented(line: string, indent: int) {
    TrimStart(line) != "" && Indent(line) <= indent && TrimStart(line)[0] != '#'
  }

  /**
   * A printed block is read back exactly; a dedented line ends it, and what follows that line is scanned as a file of
   * its own, so more inputs come only from another block there.
   */
  lemma {:induction false} BlockReadsBack(indent: nat, ps: seq<Printed>, dedented: string, rest: seq<string>)
    requires AllOk(ps, indent)
    requires Dedented(dedented, indent)
    ensures Scan(PrintBlock(indent, ps) + [dedented] + rest, START) == InputsOf(ps) + Scan(rest, START)
  {
    var after := [dedented] + rest;
    BlockOpens(indent, PrintInputs(ps) + after);
    InputsReadBack(ps, after, Scanner(true, indent, None));
    assert PrintBlock(indent, ps) + [dedented] + rest == [Spaces(indent) + "inputs:"] + (PrintInputs(ps) + after);
    BlockCloses(AfterInputs(ps, Scanner(true, indent, None)), dedented, rest);
  }

  /** A printed block at the end of the file is read back exactly. */
  lemma {:induction false} LastBlockReadsBack(indent: nat, ps: seq<Printed>)
    requires AllOk(ps, indent)
    ensures Scan(PrintBlock(indent, ps), START) == InputsOf(ps)
  {
    BlockOpens(indent, PrintInputs(ps));
    InputsReadBack(ps, [], Scanner(true, indent, None));
    assert PrintInputs(ps) + [] == PrintInputs(ps);
  }

  lemma {:induction false} BlockOpens(indent: nat, lines: seq<string>)
    ensures Scan([Spaces(indent) + "inputs:"] + lines, START) == Scan(lines, Scanner(true, indent, None))
  {
    SpacesTrimmed(indent, "inputs:");
    assert ([Spaces(indent) + "inputs:"] + lines)[1..] == lines;
  }

  lemma {:induction false} BlockCloses(st: Scanner, dedented: string, rest: seq<string>)
    requires st.inInputs && Dedented(dedented, st.inputsIndent)
    ensures Scan([dedented] + rest, st) == Scan(rest, START)
  {
    assert ([dedented] + rest)[1..] == rest;
    ClosedScan(rest, Scanner(false, st.inputsIndent, None));
  }

  /** Outside a block the scanner's other variables do not matter. */
  lemma {:induction false} ClosedScan(lines: seq<string>, st: Scanner)
    requires !st.inInputs
    ensures Scan(lines, st) == Scan(lines, START)
  {
    if lines != [] && !(TrimStart(lines[0]) == "inputs:") {
      ClosedScan(lines[1..], st);
    }
  }

  /** Content without another `inputs:` line adds nothing. */
  lemma {:induction false} NoOtherBlock(lines: seq<string>)
    requires forall line :: line in lines ==> TrimStart(line) != "inputs:"
    ensures Scan(lines, START) == []
  {
    if lines != [] {
      assert lines[0] in lines && forall line :: line in lines[1..] ==> line in lines;
      NoOtherBlock(lines[1..]);
    }
  }
}
