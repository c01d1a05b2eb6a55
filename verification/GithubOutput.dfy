/**
 * The GitHub Actions output file: appending named values and reading them back line by line.
 */
module GithubOutput {
  import opened Basics

  datatype Entry = Entry(name: string, value: string)

  predicate OneLiner(value: string) { '\n' !in value && '\r' !in value }

  /** What `appendGithubOutput` adds to the file, for the delimiter it drew. */
  function Written(e: Entry, delimiter: string): string {
    if OneLiner(e.value) then e.name + "=" + e.value + "\n"
    else e.name + "<<" + delimiter + "\n" + e.value + "\n" + delimiter + "\n"
  }

  /** A value with a line feed or a carriage return is written as a block, every other one on one line. */
  lemma {:induction false} WrittenForm(e: Entry, delimiter: string)
    ensures (exists i :: 0 <= i < |e.value| && (e.value[i] == '\n' || e.value[i] == '\r')) ==>
              Written(e, delimiter) == e.name + "<<" + delimiter + "\n" + e.value + "\n" + delimiter + "\n"
    ensures (forall i :: 0 <= i < |e.value| ==> e.value[i] != '\n' && e.value[i] != '\r') ==>
              Written(e, delimiter) == e.name + "=" + e.value + "\n"
  {
    if i :| 0 <= i < |e.value| && (e.value[i] == '\n' || e.value[i] == '\r') {
      assert e.value[i] in e.value;
    }
  }

  /** The append-only output file. */
  class OutputFile {
    var content: string

    constructor ()
      ensures content == ""
    {
      content := "";
    }

    method AppendLine(line: string)
      modifies this
      ensures content == old(content) + line + "\n"
    {
      content := content + line + "\n";
    }

    method AppendGithubOutput(name: string, value: string, delimiter: string)
      modifies this
      ensures content == old(content) + Written(Entry(name, value), delimiter)
    {
      if '\n' !in value && '\r' !in value {
        AppendLine(name + "=" + value);
        assert old(content) + (name + "=" + value) + "\n" == old(content) + (name + "=" + value + "\n");
        return;
      }
      content := content + (name + "<<" + delimiter + "\n" + value + "\n" + delimiter + "\n");
    }
  }

  // ---------------------------------------------------------------- the reader

  /** The first index of `<<`, or the length. */
  function HeredocAt(s: string): (k: nat)
    ensures k <= |s|
    ensures k < |s| ==> k + 1 < |s| && s[k] == '<' && s[k + 1] == '<'
    ensures forall i :: 0 <= i < k && i + 1 < |s| ==> !(s[i] == '<' && s[i + 1] == '<')
  {
    if |s| < 2 then |s|
    else if s[0] == '<' && s[1] == '<' then 0
    else
      var k := HeredocAt(s[1..]);
      assert forall i :: 0 < i < |s| ==> s[1..][i - 1] == s[i];
      k + 1
  }

  /** The lines up to the delimiter line, and those after it. */
  function Block(lines: seq<string>, delimiter: string): (r: Option<(seq<string>, seq<string>)>)
    ensures r.Some? ==> |r.value.1| < |lines| && delimiter !in r.value.0
  {
    if lines == [] then None
    else if lines[0] == delimiter then Some(([], lines[1..]))
    else
      var r := Block(lines[1..], delimiter);
      if r.None? then None else Some(([lines[0]] + r.value.0, r.value.1))
  }

  /** `name=value` lines and `name<<delimiter` blocks; whichever marker comes first on a line decides. */
  function Read(lines: seq<string>): Option<seq<Entry>>
    decreases |lines|
  {
    if lines == [] then Some([])
    else if lines[0] == "" then Read(lines[1..])
    else
      var line := lines[0];
      var eq, heredoc := IndexOrEnd(line, '=', 0), HeredocAt(line);
      if eq < |line| && eq < heredoc then
        var rest := Read(lines[1..]);
        if eq == 0 || rest.None? then None else Some([Entry(line[..eq], line[eq + 1..])] + rest.value)
      else if heredoc < |line| then
        var block := Block(lines[1..], line[heredoc + 2..]);
        if heredoc == 0 || block.None? || block.value.0 == [] then None
        else
          var rest := Read(block.value.1);
          if rest.None? then None else Some([Entry(line[..heredoc], Join(block.value.0, "\n"))] + rest.value)
      else None
  }

  // ---------------------------------------------------------------- reading back

  /** The condition for an output to come back: a plain name, not ending in `<` before a heredoc, and a delimiter that is not a line of the value. */
  predicate EntryOk(e: Entry, delimiter: string) {
    && e.name != "" && '=' !in e.name && '\n' !in e.name && '\n' !in delimiter
    && HeredocAt(e.name) == |e.name|
    && (!OneLiner(e.value) ==> e.name[|e.name| - 1] != '<' && delimiter !in Lines(e.value))
  }

  lemma {:induction false} PlainName(name: string, rest: string)
    requires name != "" && '=' !in name && HeredocAt(name) == |name|
    ensures IndexOrEnd(name + "=" + rest, '=', 0) == |name| && |name| < HeredocAt(name + "=" + rest)
    ensures name[|name| - 1] != '<' ==> var s := name + "<<" + rest; HeredocAt(s) == |name| && IndexOrEnd(s, '=', 0) >= |name|
  {
    var s, t := name + "=" + rest, name + "<<" + rest;
    assert forall i :: 0 <= i < |name| ==> s[i] == name[i] && t[i] == name[i];
    assert s[|name|] == '=' && t[|name|] == '<' && t[|name| + 1] == '<';
  }

  lemma {:induction false} BlockStops(front: seq<string>, delimiter: string, rest: seq<string>)
    requires delimiter !in front
    ensures Block(front + [delimiter] + rest, delimiter) == Some((front, rest))
  {
    var lines := front + [delimiter] + rest;
    if front == [] {
      assert lines[1..] == rest;
    } else {
      assert lines[1..] == front[1..] + [delimiter] + rest;
      BlockStops(front[1..], delimiter, rest);
      assert [front[0]] + front[1..] == front;
    }
  }

  lemma {:induction false} OneLinerReadsBack(e: Entry, delimiter: string, tail: string)
    requires EntryOk(e, delimiter) && OneLiner(e.value)
    ensures Read(Lines(Written(e, delimiter) + tail)) == Prepend([e], Read(Lines(tail)))
  {
    hide Lines, IndexOrEnd, HeredocAt;
    var line := e.name + "=" + e.value;
    OneLine(line);
    LinesAtBreak(line, tail);
    assert Written(e, delimiter) + tail == line + "\n" + tail;
    assert ([line] + Lines(tail))[1..] == Lines(tail);
    PlainName(e.name, e.value);
    assert line[..|e.name|] == e.name && line[|e.name| + 1..] == e.value;
  }

  lemma {:induction false} HeredocLines(e: Entry, delimiter: string, tail: string)
    requires !OneLiner(e.value) && '\n' !in e.name && '\n' !in delimiter
    ensures Lines(Written(e, delimiter) + tail) ==
            [e.name + "<<" + delimiter] + (Lines(e.value) + [delimiter] + Lines(tail))
  {
    var line := e.name + "<<" + delimiter;
    OneLine(line);
    OneLine(delimiter);
    LinesAtBreak(delimiter, tail);
    LinesAtBreak(e.value, delimiter + "\n" + tail);
    LinesAtBreak(line, e.value + "\n" + (delimiter + "\n" + tail));
    HeredocText(e, delimiter, tail);
    assert Lines(e.value) + ([delimiter] + Lines(tail)) == Lines(e.value) + [delimiter] + Lines(tail);
  }

  lemma {:induction false} HeredocText(e: Entry, delimiter: string, tail: string)
    requires !OneLiner(e.value)
    ensures Written(e, delimiter) + tail == e.name + "<<" + delimiter + "\n" + (e.value + "\n" + (delimiter + "\n" + tail))
  {
    var a, b := e.name + "<<" + delimiter + "\n", e.value + "\n";
    assert Written(e, delimiter) == a + (b + (delimiter + "\n"));
  }

  lemma {:induction false} HeredocReadsBack(e: Entry, delimiter: string, tail: string)
    requires EntryOk(e, delimiter) && !OneLiner(e.value)
    ensures Read(Lines(Written(e, delimiter) + tail)) == Prepend([e], Read(Lines(tail)))
  {
    var line := e.name + "<<" + delimiter;
    HeredocLines(e, delimiter, tail);
    var lines := Lines(Written(e, delimiter) + tail);
    assert lines[1..] == Lines(e.value) + [delimiter] + Lines(tail);
    BlockStops(Lines(e.value), delimiter, Lines(tail));
    JoinOfLines(e.value);
    PlainName(e.name, delimiter);
    assert line[..|e.name|] == e.name && line[|e.name| + 2..] == delimiter;
  }

  /** One well-formed output is read back as it was written, before whatever follows. */
  lemma {:induction false} ReadsBack(e: Entry, delimiter: string, tail: string)
    requires EntryOk(e, delimiter)
    ensures Read(Lines(Written(e, delimiter) + tail)) == Prepend([e], Read(Lines(tail)))
  {
    if OneLiner(e.value) {
      OneLinerReadsBack(e, delimiter, tail);
    } else {
      HeredocReadsBack(e, delimiter, tail);
    }
  }

  function Prepend(front: seq<Entry>, rest: Option<seq<Entry>>): Option<seq<Entry>> {
    if rest.None? then None else Some(front + rest.value)
  }

  function Entries(entries: seq<(Entry, string)>): seq<Entry> {
    seq(|entries|, i requires 0 <= i < |entries| => entries[i].0)
  }

  function WrittenAll(entries: seq<(Entry, string)>): string {
    if entries == [] then "" else Written(entries[0].0, entries[0].1) + WrittenAll(entries[1..])
  }

  lemma NothingReadBack()
    ensures Read(Lines("")) == Some([])
  {
    OneLine("");
    assert [""][1..] == [];
  }

  /** So is any series of well-formed outputs. */
  lemma {:induction false} AllReadBack(entries: seq<(Entry, string)>)
    requires forall i :: 0 <= i < |entries| ==> EntryOk(entries[i].0, entries[i].1)
    ensures Read(Lines(WrittenAll(entries))) == Some(Entries(entries))
  {
    hide Read, Lines, Written, EntryOk;
    if entries == [] {
      NothingReadBack();
    } else {
      AllReadBack(entries[1..]);
      ReadsBack(entries[0].0, entries[0].1, WrittenAll(entries[1..]));
      assert Entries(entries) == [entries[0].0] + Entries(entries[1..]);
    }
  }

  // ---------------------------------------------------------------- the condition is exact

  lemma {:induction false} LinesHaveNoBreaks(s: string)
    ensures forall line :: line in Lines(s) ==> '\n' !in line
    decreases |s|
  {
    var k := IndexOrEnd(s, '\n', 0);
    if k < |s| {
      LinesHaveNoBreaks(s[k + 1..]);
    }
  }

  lemma {:induction false} LinesOfJoin(lines: seq<string>)
    requires lines != [] && forall line :: line in lines ==> '\n' !in line
    ensures Lines(Join(lines, "\n")) == lines
  {
    assert lines[0] in lines;
    OneLine(lines[0]);
    if |lines| > 1 {
      assert forall line :: line in lines[1..] ==> line in lines;
      LinesOfJoin(lines[1..]);
      LinesAtBreak(lines[0], Join(lines[1..], "\n"));
      assert lines == [lines[0]] + lines[1..];
    }
  }

  /** A name that was read is plain: it holds no `=`, no `<<` and no line break. */
  lemma {:induction false} ReadNamesArePlain(lines: seq<string>, e: Entry)
    requires Read(lines).Some? && Read(lines).value != [] && Read(lines).value[0] == e
    requires forall line :: line in lines ==> '\n' !in line
    ensures e.name != "" && '=' !in e.name && '\n' !in e.name && HeredocAt(e.name) == |e.name|
    decreases |lines|
  {
    assert lines[0] in lines;
    if lines[0] == "" {
      ReadNamesArePlain(lines[1..], e);
    } else {
      assert e.name <= lines[0];
      assert forall i :: 0 <= i < |e.name| ==> e.name[i] == lines[0][i];
    }
  }

  lemma {:induction false} BlockIsFront(lines: seq<string>, delimiter: string)
    ensures var r := Block(lines, delimiter); r.Some? ==> forall line :: line in r.value.0 ==> line in lines
  {
    if lines != [] && lines[0] != delimiter {
      BlockIsFront(lines[1..], delimiter);
      assert lines[0] in lines && forall line :: line in lines[1..] ==> line in lines;
      assert forall front: seq<string>, line :: line in [lines[0]] + front ==> line == lines[0] || line in front;
    }
  }

  /** The condition is exact: one output comes back alone and unchanged if and only if it is well-formed. */
  lemma {:induction false} ReadsBackExactly(e: Entry, delimiter: string)
    requires '\n' !in delimiter
    ensures Read(Lines(Written(e, delimiter))) == Some([e]) <==> EntryOk(e, delimiter)
  {
    if EntryOk(e, delimiter) {
      AllReadBack([(e, delimiter)]);
      assert WrittenAll([(e, delimiter)]) == Written(e, delimiter) + WrittenAll([(e, delimiter)][1..]);
      assert Written(e, delimiter) + "" == Written(e, delimiter);
      assert Entries([(e, delimiter)]) == [e];
    }
    if Read(Lines(Written(e, delimiter))) == Some([e]) {
      LinesHaveNoBreaks(Written(e, delimiter));
      ReadNamesArePlain(Lines(Written(e, delimiter)), e);
      if !OneLiner(e.value) {
        HeredocIsWellFormed(e, delimiter);
      }
    }
  }

  lemma {:induction false} HeredocIsWellFormed(e: Entry, delimiter: string)
    requires !OneLiner(e.value) && e.name != "" && '\n' !in e.name && '=' !in e.name && '\n' !in delimiter
    requires Read(Lines(Written(e, delimiter))) == Some([e])
    ensures e.name[|e.name| - 1] != '<' && delimiter !in Lines(e.value)
  {
    var line := e.name + "<<" + delimiter;
    var rest := Lines(e.value) + [delimiter] + Lines("");
    HeredocLines(e, delimiter, "");
    assert Written(e, delimiter) + "" == Written(e, delimiter);
    assert ([line] + rest)[1..] == rest;
    assert forall i :: 0 <= i < |e.name| ==> line[i] == e.name[i];
    assert line[|e.name|] == '<' && line[|e.name| + 1] == '<';
    assert HeredocAt(line) <= |e.name| && HeredocAt(line) < IndexOrEnd(line, '=', 0);
    assert Read([line] + rest).value[0].name == line[..HeredocAt(line)];
    assert HeredocAt(line) == |e.name|;
    assert line[|e.name| + 2..] == delimiter;
    BlockIsWhole(e.value, delimiter);
  }

  /** A block that gives the value back was not cut short: the delimiter is not a line of the value. */
  lemma {:induction false} BlockIsWhole(value: string, delimiter: string)
    requires '\n' !in delimiter
    requires var block := Block(Lines(value) + [delimiter] + Lines(""), delimiter);
             block.Some? && block.value.0 != [] && Join(block.value.0, "\n") == value
    ensures delimiter !in Lines(value)
  {
    hide Block, Lines, Join;
    var lines := Lines(value) + [delimiter] + Lines("");
    LinesHaveNoBreaks(value);
    LinesHaveNoBreaks("");
    BlockIsFront(lines, delimiter);
    LinesOfJoin(Block(lines, delimiter).value.0);
  }
}
