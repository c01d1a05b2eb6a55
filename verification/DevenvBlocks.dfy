/**
 * What the devenv scanner finds in any file, told by the lines alone: which lines open an
 * inputs block, which close it, and which name and URL lines make an input.
 */
module DevenvBlocks {
  import opened Basics
  import opened DevenvInputs

  predicate InputsLine(line: string) { TrimStart(line) == "inputs:" }

  predicate NameLine(line: string) { NameMatch(TrimStart(line)).Some? }

  predicate UrlLine(line: string) { UrlMatch(TrimStart(line)).Some? }

  /** The line ends the block that `opener` opens: it is neither blank nor a comment, and not indented deeper. */
  predicate Closes(opener: string, line: string) { Dedented(line, Indent(opener)) }

  /** An `inputs:` line opens a block unless it lies in the block of an earlier one or is the line that closes it. */
  ghost predicate Opens(lines: seq<string>, i: nat)
    requires i < |lines|
  {
    && InputsLine(lines[i])
    && forall p :: 0 <= p < i && Opens(lines, p) ==> exists c :: p < c < i && Closes(lines[p], lines[c])
  }

  /** The line before `k` stands in the block opened at `i`. */
  ghost predicate InBlock(lines: seq<string>, i: nat, k: nat)
    requires k <= |lines|
  {
    i < k && Opens(lines, i) && forall c :: i < c < k ==> !Closes(lines[i], lines[c])
  }

  /** An input: an opening line, later a name line, later a URL line, and no closing line up to there. */
  ghost predicate MakesInput(lines: seq<string>, i: nat, j: nat, k: nat) {
    i < j < k < |lines| && InBlock(lines, i, k + 1) && NameLine(lines[j]) && UrlLine(lines[k])
  }

  /** The name line that counts is the last one before the URL line. */
  ghost predicate MakesThisInput(lines: seq<string>, i: nat, j: nat, k: nat) {
    MakesInput(lines, i, j, k) && forall m :: j < m < k ==> !NameLine(lines[m])
  }

  function InputOf(nameLine: string, urlLine: string): Input
    requires NameLine(nameLine) && UrlLine(urlLine)
  {
    Input(NameMatch(TrimStart(nameLine)).value, Unquote(Trim(UrlMatch(TrimStart(urlLine)).value)))
  }

  ghost function InputAt(lines: seq<string>, k: nat): seq<Input> {
    if exists i: nat, j: nat :: MakesThisInput(lines, i, j, k) then
      var i: nat, j: nat :| MakesThisInput(lines, i, j, k);
      [InputOf(lines[j], lines[k])]
    else []
  }

  /** The inputs of the URL lines from `k` on, in file order. */
  ghost function InputsFrom(lines: seq<string>, k: nat): seq<Input>
    requires k <= |lines|
    decreases |lines| - k
  {
    if k == |lines| then [] else InputAt(lines, k) + InputsFrom(lines, k + 1)
  }

  // ---------------------------------------------------------------- the scanner's variables

  /** Where the scanner stands at line `n`: in the block opened at `i`, under the name line `j`, if any. */
  ghost predicate Stands(lines: seq<string>, n: nat, st: Scanner, i: Option<nat>, j: Option<nat>)
    requires n <= |lines|
  {
    && st.inInputs == i.Some?
    && (i.None? ==> j.None? && forall p: nat :: !InBlock(lines, p, n))
    && (i.Some? ==> InBlock(lines, i.value, n) && st.inputsIndent == Indent(lines[i.value]) && CurrentName(lines, n, st, i.value, j))
  }

  ghost predicate CurrentName(lines: seq<string>, n: nat, st: Scanner, i: nat, j: Option<nat>)
    requires n <= |lines|
  {
    match j
    case None => st.current == None && forall m :: i < m < n ==> !NameLine(lines[m])
    case Some(j) =>
      i < j < n && NameLine(lines[j]) && st.current == NameMatch(TrimStart(lines[j])) && forall m :: j < m < n ==> !NameLine(lines[m])
  }

  /** A line stands in one block only. */
  lemma {:induction false} OneBlock(lines: seq<string>, i: nat, p: nat, n: nat)
    requires n <= |lines| && InBlock(lines, i, n) && InBlock(lines, p, n)
    ensures i == p
  {
  }

  lemma {:induction false} OneKindOfLine(line: string)
    requires UrlLine(line)
    ensures !NameLine(line) && !InputsLine(line)
  {
    var t := TrimStart(line);
    assert t[4..] != "";
    assert t[..|t| - 1][3] == ':';
  }

  lemma {:induction false} NameLinesAreNotComments(line: string)
    requires NameLine(line)
    ensures TrimStart(line) != "" && TrimStart(line)[0] != '#'
  {
    var t := TrimStart(line);
    assert NameChar(t[..|t| - 1][0]);
  }

  /** The input at line `n` is the one under the scanner's current name. */
  lemma {:induction false} InputAtLine(lines: seq<string>, n: nat, st: Scanner, i: Option<nat>, j: Option<nat>)
    requires n < |lines| && Stands(lines, n, st, i, j)
    ensures InputAt(lines, n) ==
            if j.Some? && !Closes(lines[i.value], lines[n]) && UrlLine(lines[n]) then [InputOf(lines[j.value], lines[n])] else []
  {
    hide Opens, Closes, NameLine, UrlLine, InputOf;
    forall i': nat, j': nat | MakesThisInput(lines, i', j', n)
      ensures i == Some(i') && j == Some(j') && !Closes(lines[i'], lines[n])
    {
      assert InBlock(lines, i', n);
      OneBlock(lines, i.value, i', n);
    }
    if j.Some? && !Closes(lines[i.value], lines[n]) && UrlLine(lines[n]) {
      assert MakesThisInput(lines, i.value, j.value, n);
    }
  }

  /** One line on: the scanner's variables move with the block and the name, and it finds the line's input. */
  lemma {:induction false} StepStands(lines: seq<string>, n: nat, st: Scanner, i: Option<nat>, j: Option<nat>)
    returns (i': Option<nat>, j': Option<nat>)
    requires n < |lines| && Stands(lines, n, st, i, j)
    ensures Stands(lines, n + 1, StepScanner(st, lines[n]).0, i', j')
    ensures StepScanner(st, lines[n]).1 == InputAt(lines, n)
  {
    InputAtLine(lines, n, st, i, j);
    if i.None? {
      i', j' := StepOutside(lines, n, st);
    } else {
      i', j' := StepInside(lines, n, st, i.value, j);
    }
  }

  lemma {:induction false} StepOutside(lines: seq<string>, n: nat, st: Scanner) returns (i': Option<nat>, j': Option<nat>)
    requires n < |lines| && Stands(lines, n, st, None, None)
    ensures Stands(lines, n + 1, StepScanner(st, lines[n]).0, i', j')
    ensures StepScanner(st, lines[n]).1 == []
  {
    j' := None;
    hide NameMatch, UrlMatch;
    var next := n + 1;
    forall p: nat | p < n ensures !InBlock(lines, p, next) {
      BlockShrinks(lines, p, n);
    }
    if InputsLine(lines[n]) {
      i' := Some(n);
      forall p: nat | p < n && Opens(lines, p) ensures exists c :: p < c < n && Closes(lines[p], lines[c]) {
        assert !InBlock(lines, p, n);
      }
      assert Opens(lines, n) && InBlock(lines, n, n + 1);
    } else {
      i' := None;
      assert !Opens(lines, n);
    }
  }

  lemma BlockShrinks(lines: seq<string>, p: nat, n: nat)
    requires p < n < |lines|
    ensures InBlock(lines, p, n + 1) <==> InBlock(lines, p, n) && !Closes(lines[p], lines[n])
  {
  }

  lemma {:induction false} StepInside(lines: seq<string>, n: nat, st: Scanner, i: nat, j: Option<nat>)
    returns (i': Option<nat>, j': Option<nat>)
    requires n < |lines| && Stands(lines, n, st, Some(i), j)
    ensures Stands(lines, n + 1, StepScanner(st, lines[n]).0, i', j')
    ensures StepScanner(st, lines[n]).1 ==
            if j.Some? && !Closes(lines[i], lines[n]) && UrlLine(lines[n]) then [InputOf(lines[j.value], lines[n])] else []
  {
    hide Opens, NameMatch, UrlMatch, Trim, Unquote, TrimStart;
    if UrlLine(lines[n]) {
      OneKindOfLine(lines[n]);
    }
    if Closes(lines[i], lines[n]) {
      i', j' := None, None;
      var next := n + 1;
      forall p: nat ensures !InBlock(lines, p, next) {
        NoBlockBehind(lines, i, p, n);
      }
    } else {
      i' := Some(i);
      assert InBlock(lines, i, n + 1);
      if NameLine(lines[n]) {
        NameLinesAreNotComments(lines[n]);
        j' := Some(n);
      } else {
        j' := j;
      }
    }
  }

  /** A closing line leaves its block and opens none. */
  lemma {:induction false} NoBlockBehind(lines: seq<string>, i: nat, p: nat, n: nat)
    requires n < |lines| && InBlock(lines, i, n) && Closes(lines[i], lines[n])
    ensures !InBlock(lines, p, n + 1)
  {
    if p < n {
      BlockShrinks(lines, p, n);
      if InBlock(lines, p, n) {
        OneBlock(lines, i, p, n);
      }
    } else {
      assert Opens(lines, i) && forall c :: i < c < n ==> !Closes(lines[i], lines[c]);
    }
  }

  lemma {:induction false} ScanFrom(lines: seq<string>, n: nat, st: Scanner, i: Option<nat>, j: Option<nat>)
    requires n <= |lines| && Stands(lines, n, st, i, j)
    ensures Scan(lines[n..], st) == InputsFrom(lines, n)
    decreases |lines| - n
  {
    if n < |lines| {
      hide StepScanner, Stands, InputAt, Opens, Scan;
      var i', j' := StepStands(lines, n, st, i, j);
      ScanFrom(lines, n + 1, StepScanner(st, lines[n]).0, i', j');
      ScanStep(lines, n, st, []);
    }
  }

  /** For every file the scanner returns exactly the inputs that its lines make, in order. */
  lemma {:induction false} ScanIsExact(lines: seq<string>)
    ensures Scan(lines, START) == InputsFrom(lines, 0)
  {
    assert lines[0..] == lines;
    ScanFrom(lines, 0, START, None, None);
  }

  // ---------------------------------------------------------------- files without further inputs

  /** Under a name line there is a last one. */
  lemma {:induction false} LastName(lines: seq<string>, i: nat, j: nat, k: nat) returns (last: nat)
    requires MakesInput(lines, i, j, k)
    ensures MakesThisInput(lines, i, last, k)
    decreases k - j
  {
    hide InBlock, NameLine, UrlLine;
    if m: nat :| j < m < k && NameLine(lines[m]) {
      last := LastName(lines, i, m, k);
    } else {
      last := j;
    }
  }

  lemma {:induction false} SomeInputFrom(lines: seq<string>, n: nat)
    requires n <= |lines|
    ensures InputsFrom(lines, n) == [] <==> forall k :: n <= k < |lines| ==> InputAt(lines, k) == []
    decreases |lines| - n
  {
    hide InputAt;
    if n < |lines| {
      SomeInputFrom(lines, n + 1);
      assert |InputsFrom(lines, n)| == |InputAt(lines, n)| + |InputsFrom(lines, n + 1)|;
    }
  }

  /** The lines make an input. */
  ghost predicate HasInput(lines: seq<string>) {
    exists i: nat, j: nat, k: nat :: MakesInput(lines, i, j, k)
  }

  /** The scanner returns nothing if and only if the lines make no input. */
  lemma {:induction false} NothingScanned(lines: seq<string>)
    ensures Scan(lines, START) == [] <==> !HasInput(lines)
  {
    hide MakesInput, InputOf;
    ScanIsExact(lines);
    SomeInputFrom(lines, 0);
    if i: nat, j: nat, k: nat :| MakesInput(lines, i, j, k) {
      InputIsFound(lines, i, j, k);
    }
    forall k | 0 <= k < |lines| && InputAt(lines, k) != [] ensures HasInput(lines) {
      var i: nat, j: nat :| MakesThisInput(lines, i, j, k);
      assert MakesInput(lines, i, j, k);
    }
  }

  lemma {:induction false} InputIsFound(lines: seq<string>, i: nat, j: nat, k: nat)
    requires MakesInput(lines, i, j, k)
    ensures k < |lines| && InputAt(lines, k) != []
  {
    var last := LastName(lines, i, j, k);
    assert MakesThisInput(lines, i, last, k);
  }

  /** A printed block before dedented content gives exactly the printed list if and only if what follows makes no input. */
  lemma {:induction false} OnlyThePrintedInputs(indent: nat, ps: seq<Printed>, dedented: string, rest: seq<string>)
    requires AllOk(ps, indent) && Dedented(dedented, indent)
    ensures Scan(PrintBlock(indent, ps) + [dedented] + rest, START) == InputsOf(ps) <==> !HasInput(rest)
  {
    BlockReadsBack(indent, ps, dedented, rest);
    NothingScanned(rest);
    var all := InputsOf(ps) + Scan(rest, START);
    assert Scan(rest, START) == [] ==> all == InputsOf(ps);
    assert |all| == |InputsOf(ps)| + |Scan(rest, START)|;
  }

  // ---------------------------------------------------------------- two blocks

  /** Two blocks with dedented content between them both count. */
  lemma {:induction false} SeparatedBlocks(indent: nat, ps: seq<Printed>, dedented: string, indent': nat, qs: seq<Printed>)
    requires AllOk(ps, indent) && AllOk(qs, indent') && Dedented(dedented, indent)
    ensures Scan(PrintBlock(indent, ps) + [dedented] + PrintBlock(indent', qs), START) == InputsOf(ps) + InputsOf(qs)
  {
    BlockReadsBack(indent, ps, dedented, PrintBlock(indent', qs));
    LastBlockReadsBack(indent', qs);
  }

  /** When the second `inputs:` line is itself the dedented line, it only closes the first block and its inputs are lost. */
  lemma {:induction false} AdjacentBlocks(indent: nat, ps: seq<Printed>, indent': nat, qs: seq<Printed>)
    requires AllOk(ps, indent) && AllOk(qs, indent') && indent' <= indent
    requires forall i :: 0 <= i < |qs| ==> qs[i].input.name != "inputs"
    ensures Scan(PrintBlock(indent, ps) + PrintBlock(indent', qs), START) == InputsOf(ps)
  {
    var second := Spaces(indent') + "inputs:";
    SpacesTrimmed(indent', "inputs:");
    assert PrintBlock(indent, ps) + PrintBlock(indent', qs) == PrintBlock(indent, ps) + [second] + PrintInputs(qs);
    BlockReadsBack(indent, ps, second, PrintInputs(qs));
    forall line | line in PrintInputs(qs) ensures TrimStart(line) != "inputs:" {
      PrintedLines(qs, indent', line);
    }
    NoOtherBlock(PrintInputs(qs));
    assert InputsOf(ps) + [] == InputsOf(ps);
  }

  lemma {:induction false} PrintedLines(qs: seq<Printed>, indent: nat, line: string)
    requires AllOk(qs, indent) && line in PrintInputs(qs)
    requires forall i :: 0 <= i < |qs| ==> qs[i].input.name != "inputs"
    ensures TrimStart(line) != "inputs:"
  {
    hide TrimStart, PrintInput, PrintOk;
    if line in PrintInput(qs[0]) {
      PrintedLine(qs[0], indent, line);
    } else {
      PrintedLines(qs[1..], indent, line);
    }
  }

  lemma {:induction false} PrintedLine(q: Printed, indent: nat, line: string)
    requires PrintOk(q, indent) && line in PrintInput(q) && q.input.name != "inputs"
    ensures TrimStart(line) != "inputs:"
  {
    hide TrimStart;
    var name, url := q.input.name + ":", "url: " + PrintUrl(q.input.url, q.style);
    assert NameChar(name[0]);
    SpacesTrimmed(q.nameIndent, name);
    SpacesTrimmed(q.urlIndent, url);
    assert Spaces(q.nameIndent) + name == PrintInput(q)[0] && Spaces(q.urlIndent) + url == PrintInput(q)[1];
    assert name[..|name| - 1] == q.input.name && "inputs:"[..6] == "inputs";
    assert url[0] == 'u';
  }

  const A := Printed(Input("a", "x"), Bare, 2, 4)
  const B := Printed(Input("b", "y"), Bare, 2, 4)
  const BLOCK_A := ["inputs:", "  a:", "    url: x"]
  const BLOCK_B := ["inputs:", "  b:", "    url: y"]

  lemma {:induction false} PrintedBlocks()
    ensures PrintBlock(0, [A]) == BLOCK_A && PrintBlock(0, [B]) == BLOCK_B && InputsOf([A]) == [A.input] && InputsOf([B]) == [B.input]
    ensures AllOk([A], 0) && AllOk([B], 0)
  {
    hide PrintBlock, InputsOf;
    PrintedSmall(A);
    PrintedSmall(B);
    assert "  " + "a" + ":" == "  a:" && "    url: " + "x" == "    url: x";
    assert "  " + "b" + ":" == "  b:" && "    url: " + "y" == "    url: y";
  }

  /** A file on which the promise fails: after the block and a line of other content a second block follows. */
  lemma {:induction false} SecondBlockIsRead()
    ensures Scan(BLOCK_A + ["imports:"] + BLOCK_B, START) == [Input("a", "x"), Input("b", "y")]
  {
    hide PrintBlock, TrimStart, Scan, AllOk, InputsOf;
    PrintedBlocks();
    SpacesTrimmed(0, "imports:");
    assert Spaces(0) + "imports:" == "imports:";
    SeparatedBlocks(0, [A], "imports:", 0, [B]);
  }

  /** Without that line between them the second block is lost. */
  lemma {:induction false} AdjacentBlockIsLost()
    ensures Scan(BLOCK_A + BLOCK_B, START) == [Input("a", "x")]
  {
    hide PrintBlock, Scan, AllOk, InputsOf;
    PrintedBlocks();
    AdjacentBlocks(0, [A], 0, [B]);
  }

  lemma {:induction false} PrintedSmall(p: Printed)
    requires p.style == Bare && p.nameIndent == 2 && p.urlIndent == 4
    ensures PrintBlock(0, [p]) == ["inputs:", "  " + p.input.name + ":", "    url: " + p.input.url]
    ensures InputsOf([p]) == [p.input]
  {
    assert [p][1..] == [];
    assert Spaces(0) + "inputs:" == "inputs:";
    assert Spaces(2) == "  " && Spaces(4) == "    ";
    assert "    " + "url: " == "    url: ";
    assert PrintInput(p)[0] == "  " + p.input.name + ":" && PrintInput(p)[1] == "    url: " + p.input.url;
    assert PrintInputs([p]) == PrintInput(p) + [];
  }
}
