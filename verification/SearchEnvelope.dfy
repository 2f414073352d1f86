// The text a document search returns, and whether compaction may cut it.

module SearchEnvelope {
  import opened Common
  import D = DocumentChunks
  import Decimal
  import opened Compaction
  import opened CollapseLength
  import opened CompactionWindow
  import opened TextLines

  const RAG_PASSAGE_CHARS: nat := 1000
  const RAG_SEARCH_ENVELOPE_MAX_CHARS: nat := 12000
  const CLEAN_FILENAME_MAX_CHARS: nat := 120
  const MAX_TOP_K: nat := 10
  const LONGEST_SEARCH_TEXT: nat := 11549

  datatype Passage = Passage(filename: string, page: Option<nat>, chunkIndex: nat, text: string)

  function Truncated(text: string): (r: string)
    ensures |r| <= RAG_PASSAGE_CHARS
    ensures |text| <= RAG_PASSAGE_CHARS ==> r == text
  {
    if |text| > RAG_PASSAGE_CHARS then text[..RAG_PASSAGE_CHARS - 1] + "…" else text
  }

  function Header(index: nat, p: Passage): string {
    "[" + Decimal.Render(index) + "] " + p.filename + " — "
      + (if p.page.Some? then "page " + Decimal.Render(p.page.value) + " | " else "")
      + "chunk " + Decimal.Render(p.chunkIndex) + ": "
  }

  function Block(index: nat, p: Passage): string {
    Header(index, p) + Truncated(p.text)
  }

  function Blocks(passages: seq<Passage>, n: nat): string
    requires n <= |passages|
  {
    if n == 0 then "" else Blocks(passages, n - 1) + "\n\n" + Block(n, passages[n - 1])
  }

  function SearchText(passages: seq<Passage>): string {
    "Found " + Decimal.Render(|passages|) + " passages:" + Blocks(passages, |passages|)
  }

  // What the stores and the chunker guarantee of a passage.
  predicate Storable(p: Passage) {
    && |p.filename| <= CLEAN_FILENAME_MAX_CHARS
    && |Decimal.Render(p.chunkIndex)| <= 4
    && (p.page.Some? ==> |Decimal.Render(p.page.value)| <= 4)
  }

  // The passage a chunk row of a stored document becomes.
  function PassageOf(filename: string, pages: seq<D.Page>, index: nat): Passage
    requires index < |D.Rows(pages)|
  {
    Passage(filename, D.Rows(pages)[index].page, index, D.Rows(pages)[index].chunk.text)
  }

  // Every chunk row of an accepted document, filed under a cleaned name, is one.
  lemma StoredPassageIsStorable(pages: seq<D.Page>, index: nat, filename: string)
    requires D.Accepted(pages) && D.Numbered(pages) && index < |D.Rows(pages)| && |filename| <= CLEAN_FILENAME_MAX_CHARS
    ensures Storable(PassageOf(filename, pages, index))
  {
    D.IndicesHaveFourDigits(pages, index);
    D.RowsAreNumbered(pages, index);
    var page := D.Rows(pages)[index].page;
    if page.Some? {
      assert Decimal.Pow10(4) == 10000 by {
        assert Decimal.Pow10(2) == 100;
      }
      Decimal.RenderLength(page.value, 4);
    }
  }

  lemma IndexDigits(index: nat)
    requires index <= MAX_TOP_K
    ensures |Decimal.Render(index)| == if index < 10 then 1 else 2
  {
    assert Decimal.Pow10(1) == 10 && Decimal.Pow10(2) == 100;
    Decimal.RenderLength(index, 1);
    Decimal.RenderLength(index, 2);
  }

  lemma BlockLength(index: nat, p: Passage)
    requires Storable(p) && index <= MAX_TOP_K
    ensures |Block(index, p)| <= if index < 10 then 1151 else 1152
  {
    IndexDigits(index);
  }

  lemma {:induction false} BlocksLength(passages: seq<Passage>, n: nat)
    requires n <= |passages| <= MAX_TOP_K && forall i :: 0 <= i < |passages| ==> Storable(passages[i])
    ensures |Blocks(passages, n)| <= 1153 * n + if n < 10 then 0 else 1
  {
    if n > 0 {
      BlocksLength(passages, n - 1);
      BlockLength(n, passages[n - 1]);
    }
  }

  // Ten passages fill at most 11,549 characters.
  lemma SearchTextFits(passages: seq<Passage>)
    requires |passages| <= MAX_TOP_K && forall i :: 0 <= i < |passages| ==> Storable(passages[i])
    ensures |SearchText(passages)| <= LONGEST_SEARCH_TEXT
  {
    BlocksLength(passages, |passages|);
    IndexDigits(|passages|);
  }

  // The envelope's lines, before and after duplicate runs have collapsed.
  function Lines(passages: seq<Passage>): (lines: seq<string>)
    ensures lines != []
  {
    Split(SearchText(passages))
  }

  function Collapsed(passages: seq<Passage>): seq<string> {
    Collapse(Lines(passages))
  }

  // What the model is handed.
  function Envelope(passages: seq<Passage>, isError: string -> bool, secrets: set<string>): string {
    Compact(Collapsed(passages), RAG_SEARCH_ENVELOPE_MAX_CHARS, isError, false, secrets)
  }

  ghost predicate Whole(passages: seq<Passage>, isError: string -> bool, secrets: set<string>) {
    Envelope(passages, isError, secrets) == Join(Collapsed(passages))
  }

  ghost predicate AllStorable(passages: seq<Passage>) {
    |passages| <= MAX_TOP_K && forall i :: 0 <= i < |passages| ==> Storable(passages[i])
  }

  // -- Exactly when it is whole -------------------------------------------------------

  // A collapsed text of less than a hundred thousand characters is cut exactly when it
  // is over the limit.
  lemma CutIffLong(lines: seq<string>, maxChars: nat, isError: string -> bool, secrets: set<string>)
    requires lines != [] && |Join(lines)| < 99999 && maxChars >= MIN_OUTPUT_CHARS
    ensures Compact(lines, maxChars, isError, false, secrets) == Join(lines) <==> |Join(lines)| <= maxChars
  {
    if |Join(lines)| > maxChars {
      var w := Chosen(lines, maxChars, isError, false);
      OmittedIsSmall(lines, w);
      assert Decimal.Pow10(5) == 100000;
      Decimal.RenderLength(|Join(Omitted(lines, w))|, 5);
      Decimal.RenderLength(|Omitted(lines, w)|, 5);
      OutputFits(lines, maxChars, isError, false, secrets);
    }
  }

  // The envelope of storable passages is handed over whole exactly when what collapsing
  // adds to its runs of equal lines does not take it past the limit; without such runs
  // there are 451 characters to spare.
  lemma WholeIff(passages: seq<Passage>, isError: string -> bool, secrets: set<string>)
    requires AllStorable(passages)
    ensures Whole(passages, isError, secrets)
            <==> |SearchText(passages)| + Growth(RunsOf(Lines(passages))) <= RAG_SEARCH_ENVELOPE_MAX_CHARS
    ensures |SearchText(passages)| <= RAG_SEARCH_ENVELOPE_MAX_CHARS - 451
  {
    SearchTextFits(passages);
    SplitThenJoin(SearchText(passages));
    CollapsedLength(Lines(passages));
    JoinLength(Lines(passages));
    ManyCosts(Lines(passages), |Lines(passages)|);
    CutIffLong(Collapsed(passages), RAG_SEARCH_ENVELOPE_MAX_CHARS, isError, secrets);
  }

  // -- A condition on the passages ------------------------------------------------------

  // The lines of a passage after its first, with the empty line that sets it apart from
  // the next one.
  function LaterLines(p: Passage, last: bool): seq<string> {
    Split(Truncated(p.text))[1..] + (if last then [] else [""])
  }

  // No run of three to five empty lines and none of exactly three one-character lines.
  ghost predicate PlainPassages(passages: seq<Passage>) {
    forall i :: 0 <= i < |passages| ==>
      '\n' !in passages[i].filename && NoShortRun(LaterLines(passages[i], i + 1 == |passages|))
  }

  lemma {:induction false} SplitPrefix(line: string, text: string)
    requires '\n' !in line
    ensures Split(line + text) == [line + Split(text)[0]] + Split(text)[1..]
    decreases |text|
  {
    if text == "" {
      SplitAppend("", line);
      assert "" + line == line && line + "" == line;
    } else {
      var n := |text| - 1;
      var c, before := text[n], Split(text[..n]);
      SplitPrefix(line, text[..n]);
      assert line + text == line + text[..n] + [c] && text == text[..n] + [c];
      SplitSnoc(line + text[..n], c);
      SplitSnoc(text[..n], c);
      PrefixedLast(line, before, [c]);
      if c == '\n' {
        assert Split(line + text) == Split(line + text[..n]) + [""] && Split(text) == before + [""];
      } else {
        assert Split(line + text) == Extended(Split(line + text[..n]), [c]) && Split(text) == Extended(before, [c]);
      }
    }
  }

  // Growing the last line, or adding one, commutes with a prefix of the first.
  lemma PrefixedLast(line: string, lines: seq<string>, more: string)
    requires lines != []
    ensures var prefixed := [line + lines[0]] + lines[1..];
            && Extended(prefixed, more) == [line + Extended(lines, more)[0]] + Extended(lines, more)[1..]
            && prefixed + [""] == [line + (lines + [""])[0]] + (lines + [""])[1..]
  {
    if |lines| == 1 {
      assert line + (lines[0] + more) == line + lines[0] + more;
    }
  }

  // The lines of one passage in the envelope.
  function PassageLines(index: nat, p: Passage, last: bool): seq<string> {
    Split(Block(index, p)) + (if last then [] else [""])
  }

  lemma HeaderIsLine(index: nat, p: Passage)
    requires '\n' !in p.filename
    ensures '\n' !in Header(index, p) && |Header(index, p)| > 1
  {
  }

  lemma PassageIsPlain(index: nat, p: Passage, last: bool)
    requires '\n' !in p.filename && NoShortRun(LaterLines(p, last))
    ensures var lines := PassageLines(index, p, last);
            NoShortRun(lines) && lines != [] && |lines[0]| > 1 && (!last ==> lines[|lines| - 1] == "")
  {
    var texts := Split(Truncated(p.text));
    var first := Header(index, p) + texts[0];
    HeaderIsLine(index, p);
    SplitPrefix(Header(index, p), Truncated(p.text));
    OneLineIsPlain(first);
    assert PassageLines(index, p, last) == [first] + LaterLines(p, last);
    LongLineFirst(first, LaterLines(p, last));
  }

  lemma LongLineFirst(first: string, rest: seq<string>)
    requires |first| > 1 && NoShortRun(rest)
    ensures NoShortRun([first] + rest)
  {
    OneLineIsPlain(first);
    if rest != [] && rest[0] == first {
      assert |rest[0]| > 1;
    }
    NoShortRunAppend([first], rest);
  }

  lemma LastOfBoth(a: seq<string>, b: seq<string>, more: string)
    requires b != []
    ensures Extended(a + b, more) == a + Extended(b, more)
  {
    assert (a + b)[..|a + b| - 1] == a + b[..|b| - 1];
  }

  lemma SplitJoinedSnoc(a: string, b: string, c: char)
    requires Split(a + "\n" + b) == Split(a) + Split(b)
    ensures Split(a + "\n" + (b + [c])) == Split(a) + Split(b + [c])
  {
    var text, lines := a + "\n" + b, Split(b);
    assert a + "\n" + (b + [c]) == text + [c];
    SplitSnoc(text, c);
    SplitSnoc(b, c);
    if c == '\n' {
      assert Split(a) + lines + [""] == Split(a) + (lines + [""]);
    } else {
      LastOfBoth(Split(a), lines, [c]);
    }
  }

  lemma {:induction false} SplitJoined(a: string, b: string)
    ensures Split(a + "\n" + b) == Split(a) + Split(b)
    decreases |b|
  {
    if b == "" {
      SplitSnoc(a, '\n');
      assert a + "\n" + b == a + ['\n'];
    } else {
      var n := |b| - 1;
      SplitJoined(a, b[..n]);
      SplitJoinedSnoc(a, b[..n], b[n]);
      assert b == b[..n] + [b[n]];
    }
  }

  // The lines before passage n + 1: the title, an empty line, and the passages so far.
  function LinesTo(title: string, passages: seq<Passage>, n: nat): string
    requires n <= |passages|
  {
    title + Blocks(passages, n)
  }

  lemma LinesOfNext(title: string, passages: seq<Passage>, n: nat)
    requires 0 < n <= |passages|
    ensures Split(LinesTo(title, passages, n))
            == Split(LinesTo(title, passages, n - 1)) + [""] + Split(Block(n, passages[n - 1]))
  {
    var before, block := LinesTo(title, passages, n - 1), Block(n, passages[n - 1]);
    BlockOnNewLine(title, passages, n);
    SplitSnoc(before, '\n');
    SplitJoined(before + "\n", block);
  }

  lemma LinesOfTitle(title: string, passages: seq<Passage>)
    requires '\n' !in title
    ensures Split(LinesTo(title, passages, 0)) == [title]
  {
    SplitAppend("", title);
    assert "" + title == title && LinesTo(title, passages, 0) == title;
  }

  lemma PassageAdds(before: seq<string>, index: nat, p: Passage, last: bool)
    requires NoShortRun(before + [""]) && '\n' !in p.filename && NoShortRun(LaterLines(p, last))
    ensures NoShortRun(before + [""] + PassageLines(index, p, last))
  {
    PassageIsPlain(index, p, last);
    assert (before + [""])[|before + [""]| - 1] == "";
    NoShortRunAppend(before + [""], PassageLines(index, p, last));
  }

  lemma LinesWithPassage(title: string, passages: seq<Passage>, n: nat, last: bool)
    requires 0 < n <= |passages|
    ensures Split(LinesTo(title, passages, n - 1)) + [""] + PassageLines(n, passages[n - 1], last)
            == Split(LinesTo(title, passages, n)) + (if last then [] else [""])
  {
    LinesOfNext(title, passages, n);
  }

  lemma {:induction false} LinesArePlain(title: string, passages: seq<Passage>, n: nat)
    requires '\n' !in title && |title| > 1 && n < |passages| && PlainPassages(passages)
    ensures NoShortRun(Split(LinesTo(title, passages, n)) + [""])
  {
    if n == 0 {
      LinesOfTitle(title, passages);
      OneLineIsPlain("");
      LongLineFirst(title, [""]);
    } else {
      LinesArePlain(title, passages, n - 1);
      PassageAdds(Split(LinesTo(title, passages, n - 1)), n, passages[n - 1], false);
      LinesWithPassage(title, passages, n, false);
    }
  }

  // The whole envelope ends with its last passage.
  lemma AllLinesArePlain(title: string, passages: seq<Passage>)
    requires '\n' !in title && |title| > 1 && PlainPassages(passages)
    ensures NoShortRun(Split(LinesTo(title, passages, |passages|)))
  {
    var n := |passages|;
    if n == 0 {
      LinesOfTitle(title, passages);
      OneLineIsPlain(title);
    } else {
      LinesArePlain(title, passages, n - 1);
      PassageAdds(Split(LinesTo(title, passages, n - 1)), n, passages[n - 1], true);
      LinesWithPassage(title, passages, n, true);
      assert Split(LinesTo(title, passages, n)) + [] == Split(LinesTo(title, passages, n));
    }
  }

  lemma BlockOnNewLine(title: string, passages: seq<Passage>, n: nat)
    requires 0 < n <= |passages|
    ensures LinesTo(title, passages, n) == LinesTo(title, passages, n - 1) + "\n" + "\n" + Block(n, passages[n - 1])
  {
    var before := Blocks(passages, n - 1);
    assert title + (before + "\n\n" + Block(n, passages[n - 1])) == title + before + "\n\n" + Block(n, passages[n - 1]);
    assert title + before + "\n" + "\n" == title + before + "\n\n";
  }

  // So the envelope is handed over whole, and no passage bisected, when no passage has
  // three to five empty lines in a row or exactly three equal one-character lines.
  lemma EnvelopeIsWhole(passages: seq<Passage>, isError: string -> bool, secrets: set<string>)
    requires AllStorable(passages) && PlainPassages(passages)
    ensures Whole(passages, isError, secrets) && |Envelope(passages, isError, secrets)| <= |SearchText(passages)|
  {
    var title := "Found " + Decimal.Render(|passages|) + " passages:";
    AllLinesArePlain(title, passages);
    assert LinesTo(title, passages, |passages|) == SearchText(passages);
    SearchTextFits(passages);
    SplitThenJoin(SearchText(passages));
    CollapseShrinks(Lines(passages));
  }
}
