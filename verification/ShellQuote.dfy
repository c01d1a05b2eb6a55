/**
 * `shellSingleQuote`, read back by the word splitting of a POSIX shell.
 *
 * The reader covers what the quoted command lines use: blanks between words, single quotes,
 * double quotes, variables in double quotes and assignments (sections 2.2.2, 2.2.3, 2.3, 2.6.2
 * and 2.9.1 of the POSIX.1-2017 Shell Command Language).
 */
module ShellQuote {
  import opened Basics

  /** Every single quote closes the string, stands between double quotes, and reopens it. */
  function Escaped(value: string): string {
    if value == "" then ""
    else (if value[0] == '\'' then "'\"'\"'" else [value[0]]) + Escaped(value[1..])
  }

  function ShellSingleQuote(value: string): string {
    "'" + Escaped(value) + "'"
  }

  // ---------------------------------------------------------------- the shell's reader

  type Env = map<string, string>

  /** Where the reader stands: outside quotes, or in one of the two kinds of quotes. */
  datatype Quoting = Bare | Single | Double

  predicate BlankChar(c: char) { c == ' ' || c == '\t' || c == '\n' }

  /** Inside double quotes these keep a meaning that the reader does not cover. */
  predicate Special(c: char) { c == '`' || c == '\\' }

  predicate NameStart(c: char) { 'a' <= c <= 'z' || 'A' <= c <= 'Z' || c == '_' }

  predicate NameChar(c: char) { NameStart(c) || '0' <= c <= '9' }

  predicate VariableName(s: string) {
    s != "" && NameStart(s[0]) && forall i :: 0 <= i < |s| ==> NameChar(s[i])
  }

  /** How many name characters a text starts with. */
  function NameLength(s: string): (n: nat)
    ensures n <= |s|
  {
    if s != "" && NameChar(s[0]) then NameLength(s[1..]) + 1 else 0
  }

  /** Unquoted characters that the shell treats as more than text. */
  predicate Operator(c: char) {
    || c == '|' || c == '&' || c == ';' || c == '<' || c == '>' || c == '(' || c == ')' || c == '$' || c == '`'
    || c == '\\' || c == '*' || c == '?' || c == '[' || c == '#' || c == '~' || c == '%' || c == '!'
    || c == '{' || c == '}'
  }

  /**
   * The words of a command line in an environment.  `word` is the word being read, if one has begun; quotes begin a word even when they
   * are empty.  `None` when a quote is left open or an unquoted special character needs more of the shell.
   */
  function Words(s: string, q: Quoting, word: Option<string>, env: Env): Option<seq<string>>
    decreases |s|
  {
    if s == "" then
      if q != Bare then None else Some(if word.Some? then [word.value] else [])
    else
      var c := s[0];
      var sofar := if word.Some? then word.value else "";
      match q
      case Single => if c == '\'' then Words(s[1..], Bare, word, env) else Words(s[1..], Single, Some(sofar + [c]), env)
      case Double =>
        if c == '\"' then Words(s[1..], Bare, word, env)
        else if c == '$' then
          var n := NameLength(s[1..]);
          var name := s[1..][..n];
          if VariableName(name) && name in env then Words(s[1..][n..], Double, Some(sofar + env[name]), env) else None
        else if Special(c) then None
        else Words(s[1..], Double, Some(sofar + [c]), env)
      case Bare =>
        if c == '\'' then Words(s[1..], Single, Some(sofar), env)
        else if c == '\"' then Words(s[1..], Double, Some(sofar), env)
        else if BlankChar(c) then
          var rest := Words(s[1..], Bare, None, env);
          if word.None? || rest.None? then rest else Some([word.value] + rest.value)
        else if Operator(c) then None
        else Words(s[1..], Bare, Some(sofar + [c]), env)
  }

  function Split(line: string, env: Env): Option<seq<string>> {
    Words(line, Bare, None, env)
  }

  function AfterQuote(q: Quoting, c: char): Quoting {
    match q
    case Bare => if c == '\'' then Single else if c == '\"' then Double else Bare
    case Single => if c == '\'' then Bare else Single
    case Double => if c == '\"' then Bare else Double
  }

  /** The first line break outside of quotes, or the length. */
  function CommandEnd(s: string, q: Quoting): (k: nat)
    ensures k <= |s|
  {
    if s == "" || (q == Bare && s[0] == '\n') then 0
    else CommandEnd(s[1..], AfterQuote(q, s[0])) + 1
  }

  /** The words of the last command of a script whose other commands are assignments, each made of one word. */
  function ScriptWords(script: string, env: Env): Option<seq<string>>
    decreases |script|
  {
    var k := CommandEnd(script, Bare);
    if k == |script| then Split(script, env)
    else
      var first := Split(script[..k], env);
      if first.None? || |first.value| != 1 then None
      else
        var w := first.value[0];
        var eq := IndexOrEnd(w, '=', 0);
        if eq == |w| || !VariableName(w[..eq]) then None
        else ScriptWords(script[k + 1..], env[w[..eq] := w[eq + 1..]])
  }

  function SpaceJoined(words: seq<string>): string {
    if words == [] then ""
    else if |words| == 1 then ShellSingleQuote(words[0])
    else ShellSingleQuote(words[0]) + " " + SpaceJoined(words[1..])
  }

  // ---------------------------------------------------------------- reading back

  lemma {:induction false} EscapedReadsBack(value: string, rest: string, word: string, env: Env)
    ensures Words(Escaped(value) + "'" + rest, Single, Some(word), env) == Words(rest, Bare, Some(word + value), env)
  {
    var s := Escaped(value) + "'" + rest;
    if value == "" {
      assert s[1..] == rest && word + value == word;
    } else {
      var tail := Escaped(value[1..]) + "'" + rest;
      assert word + value == (word + [value[0]]) + value[1..];
      EscapedReadsBack(value[1..], rest, word + [value[0]], env);
      if value[0] == '\'' {
        assert s == "'\"'\"'" + tail;
        EscapedQuoteRead(tail, word, env);
      } else {
        assert s == [value[0]] + tail && s[1..] == tail;
      }
    }
  }

  /** The five characters that stand for a quote add one quote to the word and leave the reader in single quotes. */
  lemma {:induction false} EscapedQuoteRead(tail: string, word: string, env: Env)
    ensures Words("'\"'\"'" + tail, Single, Some(word), env) == Words(tail, Single, Some(word + ['\'']), env)
  {
    hide Words;
    WordsStep('\'', "\"'\"'" + tail, Single, Some(word), env);
    WordsStep('\"', "'\"'" + tail, Bare, Some(word), env);
    WordsStep('\'', "\"'" + tail, Double, Some(word), env);
    WordsStep('\"', "'" + tail, Double, Some(word + ['\'']), env);
    WordsStep('\'', tail, Bare, Some(word + ['\'']), env);
    assert "'\"'\"'" + tail == ['\''] + ("\"'\"'" + tail);
    assert "\"'\"'" + tail == ['\"'] + ("'\"'" + tail);
    assert "'\"'" + tail == ['\''] + ("\"'" + tail);
    assert "\"'" + tail == ['\"'] + ("'" + tail);
    assert "'" + tail == ['\''] + tail;
  }

  lemma WordsStep(c: char, rest: string, q: Quoting, word: Option<string>, env: Env)
    requires word.Some? && (c == '\'' || c == '\"')
    ensures Words([c] + rest, q, word, env) ==
            match q
            case Single => if c == '\'' then Words(rest, Bare, word, env) else Words(rest, Single, Some(word.value + [c]), env)
            case Double => if c == '\"' then Words(rest, Bare, word, env) else Words(rest, Double, Some(word.value + [c]), env)
            case Bare => Words(rest, if c == '\'' then Single else Double, word, env)
  {
    assert ([c] + rest)[1..] == rest;
  }

  /** A quoted value is read as exactly that value, as (part of) one word. */
  lemma {:induction false} QuoteReadsBack(value: string, rest: string, env: Env)
    ensures Words(ShellSingleQuote(value) + rest, Bare, None, env) == Words(rest, Bare, Some(value), env)
  {
    var s := ShellSingleQuote(value) + rest;
    assert s[1..] == Escaped(value) + "'" + rest;
    EscapedReadsBack(value, rest, "", env);
    assert "" + value == value;
  }

  /** A quoted value before a space is a word of its own. */
  lemma {:induction false} QuotedWord(value: string, rest: string, words: seq<string>, env: Env)
    requires Split(rest, env) == Some(words)
    ensures Split(ShellSingleQuote(value) + (" " + rest), env) == Some([value] + words)
  {
    QuoteReadsBack(value, " " + rest, env);
    assert (" " + rest)[1..] == rest;
  }

  /** Splitting the space-joined quoted words gives the words, whatever they contain. */
  lemma {:induction false} SplitUndoesQuoting(words: seq<string>, env: Env)
    ensures Split(SpaceJoined(words), env) == Some(words)
  {
    if |words| == 1 {
      QuoteReadsBack(words[0], "", env);
      assert ShellSingleQuote(words[0]) + "" == ShellSingleQuote(words[0]) && words == [words[0]];
    } else if |words| > 1 {
      SplitUndoesQuoting(words[1..], env);
      QuotedWord(words[0], SpaceJoined(words[1..]), words[1..], env);
      assert ShellSingleQuote(words[0]) + (" " + SpaceJoined(words[1..])) == SpaceJoined(words);
      assert [words[0]] + words[1..] == words;
    }
  }

  /** A command name is the first word of its line. */
  lemma {:induction false} CommandReadsBack(name: string, rest: string, args: seq<string>, env: Env)
    requires PlainWord(name) && Split(rest, env) == Some(args)
    ensures Split(name + (" " + rest), env) == Some([name] + args)
  {
    var line := name + (" " + rest);
    hide Words;
    FirstOrdinary(line, env);
    OrdinaryRead(name, " " + rest, "", env);
    BlankEndsWord(rest, name, env);
    assert "" + name == name;
  }

  /** Two quoted lists with a space between them are read as their concatenation, even when the second is empty. */
  lemma {:induction false} SplitUndoesTwo(a: seq<string>, b: seq<string>, env: Env)
    requires a != []
    ensures Split(SpaceJoined(a) + (" " + SpaceJoined(b)), env) == Some(a + b)
  {
    hide ShellSingleQuote, Words, Split;
    var tail := " " + SpaceJoined(b);
    if |a| == 1 {
      SplitUndoesQuoting(b, env);
      QuotedWord(a[0], SpaceJoined(b), b, env);
      assert a == [a[0]];
    } else {
      var rest := SpaceJoined(a[1..]) + tail;
      SplitUndoesTwo(a[1..], b, env);
      QuotedWord(a[0], rest, a[1..] + b, env);
      assert SpaceJoined(a) + tail == ShellSingleQuote(a[0]) + (" " + rest);
      assert a + b == [a[0]] + (a[1..] + b);
    }
  }

  // ---------------------------------------------------------------- commands

  /** `withGcRaceRetry` for the default CI scripts directory: one line. */
  function RetryLine(scriptPath: string, jobLabel: string, command: string): string {
    "bash" + (" " + SpaceJoined([scriptPath, jobLabel, command]))
  }

  /** The retry script gets its path, the label and the command as single words. */
  lemma {:induction false} RetryPassesTheCommand(scriptPath: string, jobLabel: string, command: string, env: Env)
    ensures Split(RetryLine(scriptPath, jobLabel, command), env) == Some(["bash", scriptPath, jobLabel, command])
  {
    hide Words, SpaceJoined, ShellSingleQuote;
    var args := [scriptPath, jobLabel, command];
    SplitUndoesQuoting(args, env);
    CommandReadsBack("bash", SpaceJoined(args), args, env);
    assert ["bash"] + args == ["bash", scriptPath, jobLabel, command];
  }

  /** `withGcRaceRetry` for every other scripts directory, the prepared one included: the path goes through the variable `v`. */
  function RetryScript(v: string, scriptPath: string, jobLabel: string, command: string): string {
    Assignment(v, scriptPath) + ("\n" + ("bash" + (" " + RetryArguments(v, jobLabel, command))))
  }

  function Assignment(v: string, value: string): string {
    v + "=" + ShellSingleQuote(value)
  }

  function InDoubleQuotes(v: string): string {
    "\"$" + v + "\""
  }

  function RetryArguments(v: string, jobLabel: string, command: string): string {
    InDoubleQuotes(v) + (" " + SpaceJoined([jobLabel, command]))
  }

  /** Here too the retry script gets its path, the label and the command as single words, whatever the variable's name. */
  lemma {:induction false} RetryScriptPassesTheCommand(v: string, scriptPath: string, jobLabel: string, command: string, env: Env)
    requires VariableName(v)
    ensures ScriptWords(RetryScript(v, scriptPath, jobLabel, command), env) == Some(["bash", scriptPath, jobLabel, command])
  {
    hide Words, SpaceJoined, ShellSingleQuote, CommandEnd, VariableName, Assignment, RetryArguments;
    var first, second := Assignment(v, scriptPath), "bash" + (" " + RetryArguments(v, jobLabel, command));
    var script := RetryScript(v, scriptPath, jobLabel, command);
    AssignmentEnds(v, scriptPath, second);
    assert script[..|first|] == first && script[|first| + 1..] == second;
    AssignmentRead(v, scriptPath, env);
    var env' := env[v := scriptPath];
    RetryRead(v, jobLabel, command, env');
    CommandReadsBack("bash", RetryArguments(v, jobLabel, command), [scriptPath, jobLabel, command], env');
    RetryEnds(v, jobLabel, command);
    assert ["bash"] + [scriptPath, jobLabel, command] == ["bash", scriptPath, jobLabel, command];
  }

  /** The variable that the source uses. */
  lemma ScriptVariable()
    ensures VariableName("__genie_ci_retry_script")
  {
  }

  /** Characters that mean themselves outside of quotes. */
  predicate Ordinary(c: char) {
    c != '\'' && c != '\"' && !BlankChar(c) && !Operator(c)
  }

  predicate PlainWord(w: string) {
    w != "" && forall i :: 0 <= i < |w| ==> Ordinary(w[i])
  }

  lemma {:induction false} OrdinaryRead(w: string, rest: string, sofar: string, env: Env)
    requires forall i :: 0 <= i < |w| ==> Ordinary(w[i])
    ensures Words(w + rest, Bare, Some(sofar), env) == Words(rest, Bare, Some(sofar + w), env)
  {
    if w == "" {
      assert w + rest == rest && sofar + w == sofar;
    } else {
      assert (w + rest)[1..] == w[1..] + rest;
      OrdinaryRead(w[1..], rest, sofar + [w[0]], env);
      assert (sofar + [w[0]]) + w[1..] == sofar + w;
    }
  }

  /** The assignment is one word, and gives the variable the path. */
  lemma {:induction false} AssignmentRead(v: string, value: string, env: Env)
    requires VariableName(v)
    ensures var w := v + "=" + value;
            && Split(Assignment(v, value), env) == Some([w])
            && IndexOrEnd(w, '=', 0) == |v| < |w|
            && w[..|v|] == v && w[|v| + 1..] == value
  {
    var name, w := v + "=", v + "=" + value;
    var quoted := ShellSingleQuote(value);
    FirstOrdinary(name + quoted, env);
    OrdinaryRead(name, quoted, "", env);
    WordGoesOn(value, name, env);
    hide Words, ShellSingleQuote;
    assert "" + name == name;
    assert w[..|v|] == v && w[|v|] == '=' && w[|v| + 1..] == value;
    assert forall i :: 0 <= i < |v| ==> w[i] == v[i];
    var eq := IndexOrEnd(w, '=', 0);
  }

  lemma {:induction false} NamesAreNames(s: string)
    requires forall i :: 0 <= i < |s| ==> NameChar(s[i])
    ensures NameLength(s) == |s|
  {
    if s != "" {
      NamesAreNames(s[1..]);
    }
  }

  lemma {:induction false} NameStops(name: string, rest: string)
    requires NameLength(name) == |name| && (rest == "" || !NameChar(rest[0]))
    ensures NameLength(name + rest) == |name|
  {
    if name == "" {
      assert name + rest == rest;
    } else {
      assert (name + rest)[1..] == name[1..] + rest;
      NameStops(name[1..], rest);
    }
  }

  lemma FirstOrdinary(s: string, env: Env)
    requires s != "" && Ordinary(s[0])
    ensures Words(s, Bare, None, env) == Words(s, Bare, Some(""), env)
  {
  }

  /** A quoted value that goes on with a word ends that word at the end of the line. */
  lemma {:induction false} WordGoesOn(value: string, word: string, env: Env)
    ensures Words(ShellSingleQuote(value), Bare, Some(word), env) == Some([word + value])
  {
    var s := ShellSingleQuote(value);
    assert s[1..] == Escaped(value) + "'" + "";
    EscapedReadsBack(value, "", word, env);
  }

  /** The arguments of the second line: the variable's value, the label and the command. */
  lemma {:induction false} RetryRead(v: string, jobLabel: string, command: string, env: Env)
    requires VariableName(v) && v in env
    ensures Split(RetryArguments(v, jobLabel, command), env) == Some([env[v], jobLabel, command])
  {
    hide Words, SpaceJoined, ShellSingleQuote, InDoubleQuotes, VariableName;
    var args := [jobLabel, command];
    SplitUndoesQuoting(args, env);
    VariableRead(v, " " + SpaceJoined(args), env);
    BlankEndsWord(SpaceJoined(args), env[v], env);
    assert [env[v]] + args == [env[v], jobLabel, command];
  }

  lemma {:induction false} VariableRead(v: string, rest: string, env: Env)
    requires VariableName(v) && v in env
    ensures Words(InDoubleQuotes(v) + rest, Bare, None, env) == Words(rest, Bare, Some(env[v]), env)
  {
    var tail := ['\"'] + rest;
    NamesAreNames(v);
    NameStops(v, tail);
    hide NameLength, VariableName;
    var s := InDoubleQuotes(v) + rest;
    assert s == ['\"'] + (['$'] + (v + tail));
    QuoteOpens(['$'] + (v + tail), env);
    DollarRead(v, tail, env);
    QuoteCloses(rest, env[v], env);
  }

  lemma QuoteOpens(rest: string, env: Env)
    ensures Words(['\"'] + rest, Bare, None, env) == Words(rest, Double, Some(""), env)
  {
    assert (['\"'] + rest)[1..] == rest;
  }

  lemma DollarRead(v: string, tail: string, env: Env)
    requires VariableName(v) && v in env && NameLength(v + tail) == |v|
    ensures Words(['$'] + (v + tail), Double, Some(""), env) == Words(tail, Double, Some(env[v]), env)
  {
    hide NameLength, VariableName;
    assert (['$'] + (v + tail))[1..] == v + tail;
    assert (v + tail)[..|v|] == v && (v + tail)[|v|..] == tail;
    assert "" + env[v] == env[v];
  }

  lemma QuoteCloses(rest: string, word: string, env: Env)
    ensures Words(['\"'] + rest, Double, Some(word), env) == Words(rest, Bare, Some(word), env)
  {
    assert (['\"'] + rest)[1..] == rest;
  }

  lemma BlankEndsWord(rest: string, word: string, env: Env)
    ensures Words(" " + rest, Bare, Some(word), env) ==
            match Split(rest, env) case None => None case Some(words) => Some([word] + words)
  {
    assert (" " + rest)[1..] == rest;
  }

  // ---------------------------------------------------------------- where the commands end

  lemma {:induction false} PlainEnd(w: string, rest: string)
    requires forall i :: 0 <= i < |w| ==> w[i] != '\'' && w[i] != '\"' && w[i] != '\n'
    ensures CommandEnd(w + rest, Bare) == |w| + CommandEnd(rest, Bare)
  {
    if w == "" {
      assert w + rest == rest;
    } else {
      assert (w + rest)[1..] == w[1..] + rest;
      PlainEnd(w[1..], rest);
    }
  }

  lemma {:induction false} EscapedEnd(value: string, rest: string)
    ensures CommandEnd(Escaped(value) + "'" + rest, Single) == |Escaped(value)| + 1 + CommandEnd(rest, Bare)
  {
    var s := Escaped(value) + "'" + rest;
    if value == "" {
      assert s[1..] == rest;
    } else {
      var tail := Escaped(value[1..]) + "'" + rest;
      EscapedEnd(value[1..], rest);
      if value[0] == '\'' {
        assert s == "'\"'\"'" + tail;
        EscapedQuoteEnd(tail);
      } else {
        assert s == [value[0]] + tail && s[1..] == tail;
      }
    }
  }

  lemma {:induction false} EscapedQuoteEnd(tail: string)
    ensures CommandEnd("'\"'\"'" + tail, Single) == 5 + CommandEnd(tail, Single)
  {
    hide CommandEnd;
    EndStep('\'', "\"'\"'" + tail, Single);
    EndStep('\"', "'\"'" + tail, Bare);
    EndStep('\'', "\"'" + tail, Double);
    EndStep('\"', "'" + tail, Double);
    EndStep('\'', tail, Bare);
    assert "'\"'\"'" + tail == ['\''] + ("\"'\"'" + tail);
    assert "\"'\"'" + tail == ['\"'] + ("'\"'" + tail);
    assert "'\"'" + tail == ['\''] + ("\"'" + tail);
    assert "\"'" + tail == ['\"'] + ("'" + tail);
    assert "'" + tail == ['\''] + tail;
  }

  lemma EndStep(c: char, rest: string, q: Quoting)
    requires c == '\'' || c == '\"'
    ensures CommandEnd([c] + rest, q) == 1 + CommandEnd(rest, AfterQuote(q, c))
  {
    assert ([c] + rest)[1..] == rest;
  }

  lemma {:induction false} QuoteEnd(value: string, rest: string)
    ensures CommandEnd(ShellSingleQuote(value) + rest, Bare) == |ShellSingleQuote(value)| + CommandEnd(rest, Bare)
  {
    var s := ShellSingleQuote(value) + rest;
    assert s[1..] == Escaped(value) + "'" + rest;
    EscapedEnd(value, rest);
  }

  /** A line break in the path is quoted, so the first command ends behind the assignment. */
  lemma {:induction false} AssignmentEnds(v: string, value: string, second: string)
    requires VariableName(v)
    ensures CommandEnd(Assignment(v, value) + ("\n" + second), Bare) == |Assignment(v, value)|
  {
    hide ShellSingleQuote;
    var name, rest := v + "=", "\n" + second;
    QuoteEnd(value, rest);
    PlainEnd(name, ShellSingleQuote(value) + rest);
    assert Assignment(v, value) + rest == name + (ShellSingleQuote(value) + rest);
    assert CommandEnd(rest, Bare) == 0;
  }

  /** The second command is the last. */
  lemma {:induction false} RetryEnds(v: string, jobLabel: string, command: string)
    requires VariableName(v)
    ensures var second := "bash" + (" " + RetryArguments(v, jobLabel, command)); CommandEnd(second, Bare) == |second|
  {
    hide ShellSingleQuote, VariableName, InDoubleQuotes;
    var rest := " " + SpaceJoined([jobLabel, command]);
    QuoteEnd(command, "");
    assert ShellSingleQuote(command) + "" == ShellSingleQuote(command);
    PlainEnd(" ", ShellSingleQuote(command));
    QuoteEnd(jobLabel, " " + ShellSingleQuote(command));
    PlainEnd(" ", SpaceJoined([jobLabel, command]));
    assert [jobLabel, command][1..] == [command];
    assert SpaceJoined([jobLabel, command]) == ShellSingleQuote(jobLabel) + (" " + ShellSingleQuote(command));
    VariableEnd(v, rest);
    PlainEnd("bash ", InDoubleQuotes(v) + rest);
    assert "bash" + (" " + RetryArguments(v, jobLabel, command)) == "bash " + (InDoubleQuotes(v) + rest);
  }

  lemma {:induction false} VariableEnd(v: string, rest: string)
    requires VariableName(v)
    ensures CommandEnd(InDoubleQuotes(v) + rest, Bare) == |InDoubleQuotes(v)| + CommandEnd(rest, Bare)
  {
    var inner := "$" + v;
    assert forall i :: 0 <= i < |inner| ==> inner[i] != '\"';
    InnerEnd(inner, rest);
    EndStep('\"', inner + ("\"" + rest), Bare);
    hide CommandEnd;
    assert InDoubleQuotes(v) + rest == ['\"'] + (inner + ("\"" + rest));
  }

  lemma {:induction false} InnerEnd(inner: string, rest: string)
    requires forall i :: 0 <= i < |inner| ==> inner[i] != '\"'
    ensures CommandEnd(inner + ("\"" + rest), Double) == |inner| + 1 + CommandEnd(rest, Bare)
  {
    var s := inner + ("\"" + rest);
    if inner == "" {
      assert s == "\"" + rest && s[1..] == rest;
    } else {
      assert s[1..] == inner[1..] + ("\"" + rest);
      InnerEnd(inner[1..], rest);
    }
  }

  /** `devenvPerfProbeLine`: the call of `measure` with its nine settings, followed by the measured command. */
  function ProbeLine(settings: seq<string>, command: seq<string>): string {
    "measure" + (" " + (SpaceJoined(settings) + (" " + SpaceJoined(command))))
  }

  /** `measure` gets its settings and the measured command word by word. */
  lemma {:induction false} ProbePassesTheCommand(settings: seq<string>, command: seq<string>, env: Env)
    requires |settings| == 9
    ensures Split(ProbeLine(settings, command), env) == Some(["measure"] + settings + command)
  {
    hide Words, SpaceJoined, ShellSingleQuote;
    SplitUndoesTwo(settings, command, env);
    CommandReadsBack("measure", SpaceJoined(settings) + (" " + SpaceJoined(command)), settings + command, env);
    assert ["measure"] + (settings + command) == ["measure"] + settings + command;
  }

  // ---------------------------------------------------------------- nested commands

  /** A command line whose words are themselves command lines, to any depth. */
  datatype Command = Word(text: string) | Line(parts: seq<Command>)

  /** The text that stands for a command as one argument: a nested line is built first and then quoted again. */
  function Text(c: Command): string {
    match c
    case Word(text) => text
    case Line(parts) => SpaceJoined(Texts(parts))
  }

  function Texts(cs: seq<Command>): seq<string> {
    if cs == [] then [] else [Text(cs[0])] + Texts(cs[1..])
  }

  /** `t` reads as `c`: as text, or by splitting it into words that read as the parts. */
  ghost predicate Reads(t: string, c: Command, env: Env)
    decreases c
  {
    match c
    case Word(text) => t == text
    case Line(parts) => Split(t, env).Some? && ReadsAll(Split(t, env).value, parts, env)
  }

  ghost predicate ReadsAll(ts: seq<string>, cs: seq<Command>, env: Env)
    decreases cs
  {
    if cs == [] then ts == [] else ts != [] && Reads(ts[0], cs[0], env) && ReadsAll(ts[1..], cs[1..], env)
  }

  /** Quoting at any nesting depth is undone by splitting as often. */
  lemma {:induction false} NestedQuoting(c: Command, env: Env)
    ensures Reads(Text(c), c, env)
    decreases c
  {
    match c
    case Word(_) =>
    case Line(parts) =>
      SplitUndoesQuoting(Texts(parts), env);
      NestedParts(parts, env);
  }

  lemma {:induction false} NestedParts(cs: seq<Command>, env: Env)
    ensures ReadsAll(Texts(cs), cs, env)
    decreases cs
  {
    if cs != [] {
      NestedQuoting(cs[0], env);
      NestedParts(cs[1..], env);
    }
  }
}
