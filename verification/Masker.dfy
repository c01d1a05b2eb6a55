/**
 * The masker of the baseline-migration checker: it blanks comments, quoted strings and
 * template text in place, so that only executable characters can be searched.
 *
 * `MaskCommentsAndStrings` keeps the source's array, mode, escape flag and stack of brace
 * depths.  `MaskFrom` and `EndState` describe the same loop on values, one iteration per
 * `Step`; module `MaskerGrammar` says what they compute, independently of the loop.
 */
module Masker {
  import opened Basics

  datatype Mode = BlockComment | CodeText | DoubleQuote | LineComment | SingleQuote | TemplateText

  /** The loop's variables at the head of an iteration. `depths` is `templateBraceDepth`, innermost last. */
  datatype State = State(mode: Mode, escaped: bool, depths: seq<nat>)

  /** What one iteration does: the next state, how many characters it consumes, whether they stay visible. */
  datatype Move = Move(state: State, width: nat, visible: bool)

  const START := State(CodeText, false, [])

  predicate HasNext(s: string, c: char) {
    |s| > 1 && s[1] == c
  }

  function Quote(mode: Mode): char {
    if mode == SingleQuote then '\'' else if mode == DoubleQuote then '\"' else '`'
  }

  function Step(st: State, s: string): (m: Move)
    requires s != ""
    ensures 1 <= m.width <= 2 && m.width <= |s|
    ensures m.visible ==> m.width == 1
  {
    var c := s[0];
    match st.mode
    case LineComment =>
      Move(if c == '\n' then st.(mode := CodeText) else st, 1, false)
    case BlockComment =>
      if c == '*' && HasNext(s, '/') then Move(st.(mode := CodeText), 2, false) else Move(st, 1, false)
    case SingleQuote => QuotedStep(st, c)
    case DoubleQuote => QuotedStep(st, c)
    case TemplateText =>
      if !st.escaped && c == '$' && HasNext(s, '{') then
        Move(State(CodeText, false, st.depths + [0]), 2, false)
      else
        QuotedStep(st, c)
    case CodeText => CodeStep(st, s)
  }

  function QuotedStep(st: State, c: char): Move {
    if st.escaped then Move(st.(escaped := false), 1, false)
    else if c == '\\' then Move(st.(escaped := true), 1, false)
    else if c == Quote(st.mode) then Move(st.(mode := CodeText), 1, false)
    else Move(st, 1, false)
  }

  function CodeStep(st: State, s: string): (m: Move)
    requires s != ""
    ensures 1 <= m.width <= 2 && m.width <= |s|
    ensures m.visible ==> m.width == 1
  {
    var c := s[0];
    if c == '/' && HasNext(s, '/') then Move(st.(mode := LineComment), 2, false)
    else if c == '/' && HasNext(s, '*') then Move(st.(mode := BlockComment), 2, false)
    else if c == '\'' then Move(State(SingleQuote, false, st.depths), 1, false)
    else if c == '\"' then Move(State(DoubleQuote, false, st.depths), 1, false)
    else if c == '`' then Move(State(TemplateText, false, st.depths), 1, false)
    else if st.depths != [] && c == '{' then Move(st.(depths := Bump(st.depths, 1)), 1, true)
    else if st.depths != [] && c == '}' then
      if st.depths[|st.depths| - 1] == 0 then
        Move(State(TemplateText, st.escaped, st.depths[..|st.depths| - 1]), 1, false)
      else
        Move(st.(depths := Bump(st.depths, -1)), 1, true)
    else Move(st, 1, true)
  }

  function Bump(depths: seq<nat>, change: int): seq<nat>
    requires depths != [] && depths[|depths| - 1] + change >= 0
  {
    depths[|depths| - 1 := depths[|depths| - 1] + change]
  }

  function BlankChar(c: char): char {
    if c == '\n' then '\n' else ' '
  }

  function Blank(s: string): (t: string)
    ensures |t| == |s|
    ensures forall i :: 0 <= i < |s| ==> t[i] == BlankChar(s[i])
  {
    if s == "" then "" else [BlankChar(s[0])] + Blank(s[1..])
  }

  /** The masked form of the text `s` when the loop meets it in state `st`. */
  function MaskFrom(s: string, st: State): string
    decreases |s|
  {
    if s == "" then "" else
      var m := Step(st, s);
      (if m.visible then s[..m.width] else Blank(s[..m.width])) + MaskFrom(s[m.width..], m.state)
  }

  /** The state in which the loop leaves the text `s`. */
  function EndState(s: string, st: State): State
    decreases |s|
  {
    if s == "" then st else
      var m := Step(st, s);
      EndState(s[m.width..], m.state)
  }

  method MaskAt(masked: array<char>, index: nat)
    requires index < masked.Length
    modifies masked
    ensures masked[index] == BlankChar(old(masked[index]))
    ensures forall i :: 0 <= i < masked.Length && i != index ==> masked[i] == old(masked[i])
  {
    if masked[index] != '\n' {
      masked[index] := ' ';
    }
  }
}
