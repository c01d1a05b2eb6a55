/**
 * Single lines of a devenv file: which ones name an input, which ones give a URL, and what of
 * it is left after trimming and unquoting.
 */
module DevenvLines {
  import opened Basics
  import opened DevenvInputs

  /** White space and line terminators of ECMAScript, by code point (sections 12.2 and 12.3 of ECMA-262). */
  predicate SpaceCode(code: int) {
    || 9 <= code <= 13 || code == 32 || code == 160 || code == 5760 || 8192 <= code <= 8202
    || code == 8232 || code == 8233 || code == 8239 || code == 8287 || code == 12288 || code == 65279
  }

  lemma WhiteIsSpaceCode(c: char)
    ensures White(c) <==> SpaceCode(c as int)
  {
  }

  /** A trimmed line names an input if and only if it is a name and a colon. */
  lemma {:induction false} NameMatchExactly(trimmed: string, name: string)
    ensures NameMatch(trimmed) == Some(name) <==> InputName(name) && trimmed == name + ":"
  {
    SameNames(name);
    if trimmed == name + ":" {
      assert trimmed[..|trimmed| - 1] == name;
    }
    if NameMatch(trimmed) == Some(name) {
      assert trimmed == trimmed[..|trimmed| - 1] + ":";
    }
  }

  lemma SameNames(s: string)
    ensures Name(s) <==> InputName(s)
  {
  }

  /** White space on one line. */
  ghost predicate Blanks(s: string) {
    forall i :: 0 <= i < |s| ==> White(s[i]) && !LineTerminator(s[i])
  }

  /** Visible at both ends, and all on one line. */
  ghost predicate Visible(s: string) {
    s != "" && !White(s[0]) && !White(s[|s| - 1]) && forall i :: 0 <= i < |s| ==> !LineTerminator(s[i])
  }

  lemma {:induction false} StartTrimmed(blanks: string, text: string)
    requires (forall i :: 0 <= i < |blanks| ==> White(blanks[i])) && (text != "" ==> !White(text[0]))
    ensures TrimStart(blanks + text) == text
  {
    if blanks == "" {
      assert blanks + text == text;
    } else {
      assert (blanks + text)[1..] == blanks[1..] + text;
      StartTrimmed(blanks[1..], text);
    }
  }

  lemma {:induction false} EndTrimmed(text: string, blanks: string)
    requires (forall i :: 0 <= i < |blanks| ==> White(blanks[i])) && (text != "" ==> !White(text[|text| - 1]))
    ensures TrimEnd(text + blanks) == text
  {
    if blanks == "" {
      assert text + blanks == text;
    } else {
      var n := |blanks| - 1;
      assert (text + blanks)[..|text| + n] == text + blanks[..n];
      EndTrimmed(text, blanks[..n]);
    }
  }

  /** Any spacing around a URL is dropped. */
  lemma {:induction false} UrlOfLine(gap: string, url: string, trail: string)
    requires Blanks(gap) && Visible(url) && Blanks(trail)
    ensures var m := UrlMatch("url:" + gap + url + trail); m.Some? && Trim(m.value) == url
  {
    var line := "url:" + gap + url + trail;
    assert line[4..] == gap + (url + trail);
    StartTrimmed(gap, url + trail);
    StartTrimmed("", url + trail);
    assert "" + (url + trail) == url + trail;
    EndTrimmed(url, trail);
  }

  /** A value that does not stay on its line is no URL. */
  lemma {:induction false} BrokenUrl(gap: string, value: string, i: nat)
    requires (forall j :: 0 <= j < |gap| ==> White(gap[j])) && i < |value| && !White(value[0]) && LineTerminator(value[i])
    ensures UrlMatch("url:" + gap + value) == None
  {
    var line := "url:" + gap + value;
    assert line[4..] == gap + value;
    StartTrimmed(gap, value);
  }

  /** When only white space follows the colon, its last character counts as the value, unless it ends the line. */
  lemma {:induction false} BlankUrl(gap: string)
    requires forall j :: 0 <= j < |gap| ==> White(gap[j])
    ensures UrlMatch("url:" + gap) == if gap != "" && !LineTerminator(gap[|gap| - 1]) then Some([gap[|gap| - 1]]) else None
  {
    assert ("url:" + gap)[4..] == gap;
    StartTrimmed(gap, "");
    assert gap + "" == gap;
    assert gap != "" ==> gap[|gap| - 1..] == [gap[|gap| - 1]];
  }

  lemma OtherLine(trimmed: string)
    requires |trimmed| < 4 || trimmed[..4] != "url:"
    ensures UrlMatch(trimmed) == None
  {
  }

  /** Quotes of one kind around a value are dropped, once; anything else stays. */
  lemma {:induction false} UnquoteTold(q: char, inner: string, raw: string)
    ensures (q == '\"' || q == '\'') ==> Unquote([q] + inner + [q]) == inner && Unquote([q]) == ""
    ensures raw != "" && raw[0] != '\"' && raw[0] != '\'' ==> Unquote(raw) == raw
    ensures raw != "" && raw[0] != raw[|raw| - 1] ==> Unquote(raw) == raw
  {
    var quoted := [q] + inner + [q];
    assert quoted[1..|quoted| - 1] == inner;
  }
}
