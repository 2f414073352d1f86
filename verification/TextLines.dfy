// Splitting a text at newlines and joining lines back.

module TextLines {

  function Join(lines: seq<string>): string {
    if lines == [] then ""
    else if |lines| == 1 then lines[0]
    else Join(lines[..|lines| - 1]) + "\n" + lines[|lines| - 1]
  }

  // The last line grows by some text.
  function Extended(lines: seq<string>, more: string): (r: seq<string>)
    requires lines != []
    ensures |r| == |lines|
  {
    lines[..|lines| - 1] + [lines[|lines| - 1] + more]
  }

  // text.split("\n")
  function Split(text: string): (lines: seq<string>)
    ensures lines != []
    decreases |text|
  {
    if text == "" then [""]
    else
      var n := |text| - 1;
      if text[n] == '\n' then Split(text[..n]) + [""] else Extended(Split(text[..n]), [text[n]])
  }

  lemma JoinExtended(lines: seq<string>, more: string)
    requires lines != []
    ensures Join(Extended(lines, more)) == Join(lines) + more
  {
    var n := |lines| - 1;
    var longer := Extended(lines, more);
    if n > 0 {
      assert longer[..n] == lines[..n];
      assert Join(longer) == Join(lines[..n]) + "\n" + (lines[n] + more);
    }
  }

  lemma JoinSnoc(lines: seq<string>, line: string)
    requires lines != []
    ensures Join(lines + [line]) == Join(lines) + "\n" + line
  {
    assert (lines + [line])[..|lines|] == lines;
  }

  lemma SplitSnoc(text: string, c: char)
    ensures Split(text + [c]) == if c == '\n' then Split(text) + [""] else Extended(Split(text), [c])
  {
    assert (text + [c])[..|text|] == text;
  }

  lemma {:induction false} LinesHoldNoNewline(text: string)
    ensures forall i :: 0 <= i < |Split(text)| ==> '\n' !in Split(text)[i]
    decreases |text|
  {
    if text != "" {
      var before, c := Split(text[..|text| - 1]), text[|text| - 1];
      LinesHoldNoNewline(text[..|text| - 1]);
      forall i | 0 <= i < |Split(text)| ensures '\n' !in Split(text)[i] {
        if c == '\n' {
          assert Split(text)[i] == if i < |before| then before[i] else "";
        } else {
          assert Split(text)[i] == if i < |before| - 1 then before[i] else before[i] + [c];
        }
      }
    }
  }

  lemma {:induction false} SplitUndone(text: string)
    ensures Join(Split(text)) == text
    decreases |text|
  {
    if text != "" {
      var n := |text| - 1;
      var before, c := text[..n], text[n];
      SplitUndone(before);
      assert text == before + [c];
      SplitSnoc(before, c);
      if c == '\n' {
        JoinSnoc(Split(before), "");
        assert before + "\n" + "" == text;
      } else {
        JoinExtended(Split(before), [c]);
      }
    }
  }

  // Joining undoes splitting, and no line holds a newline.
  lemma {:induction false} SplitThenJoin(text: string)
    ensures Join(Split(text)) == text
    ensures forall i :: 0 <= i < |Split(text)| ==> '\n' !in Split(text)[i]
  {
    SplitUndone(text);
    LinesHoldNoNewline(text);
  }

  lemma {:induction false} SplitAppend(text: string, line: string)
    requires '\n' !in line
    ensures Split(text + line) == Extended(Split(text), line)
    decreases |line|
  {
    var lines := Split(text);
    if line == "" {
      assert text + line == text;
      assert lines[|lines| - 1] + line == lines[|lines| - 1];
    } else {
      var n := |line| - 1;
      SplitAppend(text, line[..n]);
      SplitSnoc(text + line[..n], line[n]);
      assert line == line[..n] + [line[n]] && line[n] in line;
      assert text + line == text + line[..n] + [line[n]];
      assert lines[|lines| - 1] + line == lines[|lines| - 1] + line[..n] + [line[n]];
    }
  }

  // Splitting undoes joining, for lines without newlines.
  lemma {:induction false} JoinThenSplit(lines: seq<string>)
    requires lines != [] && forall i :: 0 <= i < |lines| ==> '\n' !in lines[i]
    ensures Split(Join(lines)) == lines
    decreases |lines|
  {
    var n := |lines| - 1;
    if n == 0 {
      SplitAppend("", lines[0]);
      assert "" + lines[0] == lines[0];
    } else {
      JoinThenSplit(lines[..n]);
      SplitOneMore(Join(lines[..n]), lines[..n], lines[n]);
      assert lines == lines[..n] + [lines[n]];
    }
  }

  lemma SplitOneMore(text: string, before: seq<string>, line: string)
    requires Split(text) == before && '\n' !in line
    ensures Split(text + "\n" + line) == before + [line]
  {
    SplitSnoc(text, '\n');
    SplitAppend(text + "\n", line);
    LastLine(before, line);
  }

  lemma LastLine(before: seq<string>, line: string)
    ensures Extended(before + [""], line) == before + [line]
  {
    assert "" + line == line;
  }
}
