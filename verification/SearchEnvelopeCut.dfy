// Stored passages with the longest search text there can be, and some whose envelope is
// cut.

module SearchEnvelopeCut {
  import opened Common
  import C = Chunker
  import T = ChunkerTheorems
  import D = DocumentChunks
  import Decimal
  import opened Compaction
  import opened CollapseLength
  import opened TextLines
  import opened SearchEnvelope

  // -- A short text is one chunk ----------------------------------------------------

  lemma {:induction false} AssembleOne(spans: seq<C.Span>, i: nat, start: nat, material: nat, end: nat,
                                       target: nat, hardMax: nat, overlap: nat)
    requires 0 < i <= |spans| && end == spans[i - 1].end
    requires forall j :: i <= j < |spans| ==> spans[j].end - material <= target
    ensures C.Assemble(spans, i, start, material, end, target, hardMax, overlap) == [C.Span(start, spans[|spans| - 1].end)]
    decreases |spans| - i
  {
    if i < |spans| {
      AssembleOne(spans, i + 1, start, material, spans[i].end, target, hardMax, overlap);
    }
  }

  // Where the spans of a text without outer blanks begin and end.
  lemma AtomsReachEnds(text: string, target: nat)
    requires 0 < target && text != [] && !IsSpace(text[0]) && !IsSpace(text[|text| - 1])
    ensures var atoms := T.AtomicSpans(text, target);
            atoms != [] && atoms[0].start == 0 && atoms[|atoms| - 1].end == |text|
  {
    var atoms := T.AtomicSpans(text, target);
    T.ParagraphsOrdered(text, 0);
    T.AtomsAreGood(text, target);
    T.ParagraphsCover(text, 0, 0);
    T.AtomsCover(text, C.Paragraphs(text, 0), 0, target, 0);
    T.ParagraphsCover(text, 0, |text| - 1);
    T.AtomsCover(text, C.Paragraphs(text, 0), 0, target, |text| - 1);
    FirstSpan(atoms, |text|, 0);
    LastSpan(atoms, |text|, |text| - 1);
  }

  lemma {:induction false} SpansBefore(spans: seq<C.Span>, lo: nat, hi: nat, i: nat)
    requires C.Ordered(spans, lo, hi) && i < |spans|
    ensures lo + i <= spans[i].start
  {
    if i > 0 {
      SpansBefore(spans, lo, hi, i - 1);
    }
  }

  lemma {:induction false} SpansAfter(spans: seq<C.Span>, lo: nat, hi: nat, i: nat)
    requires C.Ordered(spans, lo, hi) && i < |spans|
    ensures spans[i].end + (|spans| - 1 - i) <= hi
    decreases |spans| - i
  {
    if i < |spans| - 1 {
      SpansAfter(spans, lo, hi, i + 1);
    }
  }

  lemma FirstSpan(spans: seq<C.Span>, hi: nat, k: nat)
    requires C.Ordered(spans, k, hi) && T.Inside(spans, k)
    ensures spans != [] && spans[0].start == k
  {
    var i :| 0 <= i < |spans| && spans[i].start <= k < spans[i].end;
    SpansBefore(spans, k, hi, i);
  }

  lemma LastSpan(spans: seq<C.Span>, hi: nat, k: nat)
    requires C.Ordered(spans, 0, hi) && T.Inside(spans, k) && hi == k + 1
    ensures spans != [] && spans[|spans| - 1].end == hi
  {
    var i :| 0 <= i < |spans| && spans[i].start <= k < spans[i].end;
    SpansAfter(spans, 0, hi, i);
  }

  lemma ShortTextIsOneChunk(text: string)
    requires 0 < |text| <= C.TARGET && !IsSpace(text[0]) && !IsSpace(text[|text| - 1])
    requires C.Nonwhitespace(text) >= C.ONE_CHUNK_FLOOR
    ensures T.ChunkSpans(text, C.TARGET, C.HARD_MAX, C.OVERLAP, C.MINIMUM) == [C.Span(0, |text|)]
  {
    var atoms := T.AtomicSpans(text, C.TARGET);
    AtomsReachEnds(text, C.TARGET);
    T.AtomsAreGood(text, C.TARGET);
    AssembleOne(atoms, 1, 0, 0, atoms[0].end, C.TARGET, C.HARD_MAX, C.OVERLAP);
    T.RawIsSteady(text, C.TARGET, C.HARD_MAX, C.OVERLAP);
    assert text[0..|text|] == text;
  }

  // So it is the one row of its document.
  lemma ShortTextIsOneRow(text: string)
    requires 0 < |text| <= C.TARGET && !IsSpace(text[0]) && !IsSpace(text[|text| - 1])
    requires C.Nonwhitespace(text) >= C.ONE_CHUNK_FLOOR
    ensures D.Accepted([D.Page(text, None)])
    ensures D.Rows([D.Page(text, None)]) == [D.Row(None, D.Chunk(text, 0, |text|))]
  {
    var page := D.Page(text, None);
    ShortTextIsOneChunk(text);
    assert [page][..0] == [] && D.Rows([]) == [] && D.TextChars([]) == 0;
    assert text[0..|text|] == text;
  }

  // -- The longest search text ---------------------------------------------------------

  function Xs(n: nat): (s: string)
    ensures |s| == n && forall k :: 0 <= k < n ==> s[k] == 'x'
  {
    seq(n, k => 'x')
  }

  lemma {:induction false} XsAreLetters(s: string)
    requires forall k :: 0 <= k < |s| ==> s[k] == 'x'
    ensures C.Nonwhitespace(s) == |s|
  {
    if s != "" {
      XsAreLetters(s[1..]);
    }
  }

  // n numbered pages, each of exactly one full chunk.
  function FullPages(n: nat): (pages: seq<D.Page>)
    ensures |pages| == n && forall i :: 0 <= i < n ==> pages[i] == D.Page(Xs(C.TARGET), Some(i + 1))
  {
    seq(n, i requires 0 <= i < n => D.Page(Xs(C.TARGET), Some(i + 1)))
  }

  lemma {:induction false} FullPagesRows(n: nat)
    ensures D.TextChars(FullPages(n)) == C.TARGET * n && |D.Rows(FullPages(n))| == n
    ensures forall i :: 0 <= i < n ==> D.Rows(FullPages(n))[i] == D.Row(Some(i + 1), D.Chunk(Xs(C.TARGET), 0, C.TARGET))
  {
    if n > 0 {
      var text := Xs(C.TARGET);
      FullPagesRows(n - 1);
      assert FullPages(n)[..n - 1] == FullPages(n - 1);
      XsAreLetters(text);
      ShortTextIsOneChunk(text);
      assert text[0..|text|] == text;
      assert D.PageRows(FullPages(n)[n - 1]) == [D.Row(Some(n), D.Chunk(text, 0, C.TARGET))];
    }
  }

  // The ten passages of such a document's last rows.
  ghost function LongestPassages(n: nat, filename: string): (passages: seq<Passage>)
    requires MAX_TOP_K <= n
    ensures |passages| == MAX_TOP_K
  {
    FullPagesRows(n);
    seq(MAX_TOP_K, i requires 0 <= i < MAX_TOP_K => PassageOf(filename, FullPages(n), n - MAX_TOP_K + i))
  }

  lemma LongestPassage(n: nat, filename: string, i: nat)
    requires i < MAX_TOP_K <= n
    ensures |D.Rows(FullPages(n))| == n
    ensures LongestPassages(n, filename)[i] == PassageOf(filename, FullPages(n), n - MAX_TOP_K + i)
            == Passage(filename, Some(n - MAX_TOP_K + i + 1), n - MAX_TOP_K + i, Xs(C.TARGET))
  {
    FullPagesRows(n);
    assert D.Rows(FullPages(n))[n - MAX_TOP_K + i] == D.Row(Some(n - MAX_TOP_K + i + 1), D.Chunk(Xs(C.TARGET), 0, C.TARGET));
  }

  lemma FullBlock(index: nat, p: Passage)
    requires 0 < index <= MAX_TOP_K && |p.filename| == CLEAN_FILENAME_MAX_CHARS && |p.text| == RAG_PASSAGE_CHARS
    requires p.page.Some? && 1000 <= p.page.value < 10000 && 1000 <= p.chunkIndex < 10000
    ensures |Block(index, p)| == if index < 10 then 1151 else 1152
  {
    IndexDigits(index);
    FourDigits(p.page.value);
    FourDigits(p.chunkIndex);
  }

  lemma FourDigits(n: nat)
    requires 1000 <= n < 10000
    ensures |Decimal.Render(n)| == 4
  {
    assert Decimal.Pow10(2) == 100;
    assert Decimal.Pow10(3) == 1000 && Decimal.Pow10(4) == 10000;
    Decimal.RenderLength(n, 3);
    Decimal.RenderLength(n, 4);
  }

  lemma {:induction false} FullBlocks(passages: seq<Passage>, n: nat)
    requires n <= |passages| == MAX_TOP_K
    requires forall i :: 0 <= i < |passages| ==>
               && |passages[i].filename| == CLEAN_FILENAME_MAX_CHARS && |passages[i].text| == RAG_PASSAGE_CHARS
               && passages[i].page.Some? && 1000 <= passages[i].page.value < 10000 && 1000 <= passages[i].chunkIndex < 10000
    ensures |Blocks(passages, n)| == 1153 * n + if n < 10 then 0 else 1
  {
    if n > 0 {
      FullBlocks(passages, n - 1);
      FullBlock(n, passages[n - 1]);
    }
  }

  // The bound on the search text is attained by ten rows of one accepted document.
  lemma LongestIsAttained(n: nat, filename: string)
    requires 1010 <= n <= 2000 && |filename| == CLEAN_FILENAME_MAX_CHARS
    ensures D.Accepted(FullPages(n)) && D.Numbered(FullPages(n))
    ensures |D.Rows(FullPages(n))| == n && forall i :: 0 <= i < MAX_TOP_K ==>
              LongestPassages(n, filename)[i] == PassageOf(filename, FullPages(n), n - MAX_TOP_K + i)
    ensures |SearchText(LongestPassages(n, filename))| == LONGEST_SEARCH_TEXT
  {
    var passages := LongestPassages(n, filename);
    FullPagesRows(n);
    forall i | 0 <= i < MAX_TOP_K
      ensures passages[i] == PassageOf(filename, FullPages(n), n - MAX_TOP_K + i)
              == Passage(filename, Some(n - MAX_TOP_K + i + 1), n - MAX_TOP_K + i, Xs(C.TARGET))
    {
      LongestPassage(n, filename, i);
    }
    FullBlocks(passages, MAX_TOP_K);
    IndexDigits(MAX_TOP_K);
  }

  // -- Letters, three empty lines apart ------------------------------------------------

  const GAP := "\n\n\n\nx"

  function GapText(k: nat): (text: string)
    ensures |text| == 5 * k + 1
  {
    if k == 0 then "x" else GapText(k - 1) + GAP
  }

  lemma {:induction false} GapEnds(k: nat)
    ensures GapText(k)[0] == 'x' && GapText(k)[5 * k] == 'x'
  {
    if k > 0 {
      GapEnds(k - 1);
    }
  }

  lemma {:induction false} NonwhitespaceAppend(a: string, b: string)
    ensures C.Nonwhitespace(a + b) == C.Nonwhitespace(a) + C.Nonwhitespace(b)
  {
    if a == [] {
      assert a + b == b;
    } else {
      assert (a + b)[1..] == a[1..] + b;
      NonwhitespaceAppend(a[1..], b);
    }
  }

  lemma {:induction false} GapLetters(k: nat)
    ensures C.Nonwhitespace(GapText(k)) >= k
  {
    if k > 0 {
      GapLetters(k - 1);
      NonwhitespaceAppend(GapText(k - 1), GAP);
      NonwhitespaceAppend("\n\n\n\n", "x");
      assert GAP == "\n\n\n\n" + "x" && C.Nonwhitespace("x") == 1;
    }
  }

  // The i-th passage: the one chunk of the document "i.txt".
  function GapPassage(i: nat, k: nat): Passage {
    Passage(Decimal.Render(i) + ".txt", None, 0, GapText(k))
  }

  lemma GapIsStored(i: nat, k: nat)
    requires C.ONE_CHUNK_FLOOR <= k <= 199 && i < 100
    ensures Storable(GapPassage(i, k))
    ensures D.Accepted([D.Page(GapText(k), None)])
    ensures D.Rows([D.Page(GapText(k), None)]) == [D.Row(None, D.Chunk(GapText(k), 0, 5 * k + 1))]
  {
    GapEnds(k);
    GapLetters(k);
    ShortTextIsOneRow(GapText(k));
    assert Decimal.Pow10(2) == 100 by {
      assert Decimal.Pow10(1) == 10;
    }
    Decimal.RenderLength(i, 2);
    assert Decimal.Render(0) == "0";
  }

  // -- Its runs ----------------------------------------------------------------------

  // Runs that end in a line with text, so an empty line may follow.
  ghost predicate Open(runs: seq<Run>) {
    && runs != [] && runs[|runs| - 1].line != ""
    && (forall i :: 0 <= i < |runs| ==> runs[i].count > 0 && '\n' !in runs[i].line)
    && (forall i :: 0 < i < |runs| ==> runs[i - 1].line != runs[i].line)
  }

  lemma {:induction false} ExpandHasNoNewlines(runs: seq<Run>)
    requires forall i :: 0 <= i < |runs| ==> '\n' !in runs[i].line
    ensures forall i :: 0 <= i < |Expand(runs)| ==> '\n' !in Expand(runs)[i]
    decreases |runs|
  {
    if runs != [] {
      ExpandHasNoNewlines(runs[..|runs| - 1]);
    }
  }

  lemma {:induction false} JoinAppend(a: seq<string>, b: seq<string>)
    requires a != [] && b != []
    ensures Join(a + b) == Join(a) + "\n" + Join(b)
    decreases |b|
  {
    var n := |b| - 1;
    assert (a + b)[..|a| + n] == a + b[..n];
    if n > 0 {
      JoinAppend(a, b[..n]);
    } else {
      assert a + b[..n] == a;
    }
  }

  // One more run: its lines are appended, and its rendering is paid for.
  lemma Push(runs: seq<Run>, run: Run)
    requires Expand(runs) != [] && run.count > 0
    ensures Join(Expand(runs + [run])) == Join(Expand(runs)) + "\n" + Join(Copies(run.line, run.count))
    ensures RunCost(RenderAll(runs + [run])) == RunCost(RenderAll(runs)) + RunCost(Rendered(run))
    ensures Expand(runs + [run]) != []
  {
    ExpandSnoc(runs, run);
    JoinAppend(Expand(runs), Copies(run.line, run.count));
    RunCostAppend(RenderAll(runs), Rendered(run));
  }

  lemma OneCopy(line: string)
    ensures Join(Copies(line, 1)) == line
    ensures RunCost(Rendered(Run(line, 1))) == |line| + 1
  {
    CostOfCopies(line, 1);
  }

  lemma ThreeEmpty()
    ensures Join(Copies("", 3)) == "\n\n"
    ensures RunCost(Rendered(Run("", 3))) == 6
  {
    assert Copies("", 3)[..2] == Copies("", 2) && Copies("", 2)[..1] == Copies("", 1);
    assert Decimal.Render(3) == "3";
    RenderedCost(Run("", 3));
    CostOfCopies("", 3);
  }

  // The runs spell out this text, and rendering them costs at least this much.
  ghost predicate Written(runs: seq<Run>, text: string, cost: nat) {
    Expand(runs) != [] && Join(Expand(runs)) == text && RunCost(RenderAll(runs)) >= cost
  }

  ghost predicate Spells(runs: seq<Run>, text: string, cost: nat) {
    Open(runs) && Written(runs, text, cost)
  }

  lemma JustTitle(title: string, passages: seq<Passage>)
    requires title != "" && '\n' !in title
    ensures Spells([Run(title, 1)], LinesTo(title, passages, 0), 0)
  {
    assert LinesTo(title, passages, 0) == title;
    ExpandSnoc([], Run(title, 1));
    assert [] + [Run(title, 1)] == [Run(title, 1)];
    OneCopy(title);
  }

  lemma WriteRun(runs: seq<Run>, text: string, cost: nat, run: Run)
    requires Written(runs, text, cost) && run.count > 0
    ensures Written(runs + [run], text + "\n" + Join(Copies(run.line, run.count)), cost + RunCost(Rendered(run)))
  {
    Push(runs, run);
  }

  lemma StaysOpen(runs: seq<Run>, empty: Run, text: Run)
    requires Open(runs) && empty.line == "" && empty.count > 0
    requires text.line != "" && text.count > 0 && '\n' !in text.line
    ensures Open(runs + [empty] + [text])
  {
  }

  // Some empty lines and a line of text.
  lemma AddLines(runs: seq<Run>, text: string, cost: nat, empty: Run, line: string) returns (more: seq<Run>)
    requires Spells(runs, text, cost) && empty.line == "" && empty.count > 0 && line != "" && '\n' !in line
    ensures Spells(more, text + "\n" + Join(Copies("", empty.count)) + "\n" + line,
                   cost + RunCost(Rendered(empty)) + |line| + 1)
  {
    WriteRun(runs, text, cost, empty);
    OneCopy(line);
    WriteRun(runs + [empty], text + "\n" + Join(Copies("", empty.count)), cost + RunCost(Rendered(empty)), Run(line, 1));
    StaysOpen(runs, empty, Run(line, 1));
    more := runs + [empty] + [Run(line, 1)];
  }

  lemma AddGap(runs: seq<Run>, text: string, cost: nat) returns (more: seq<Run>)
    requires Spells(runs, text, cost)
    ensures Spells(more, text + GAP, cost + 8)
  {
    ThreeEmpty();
    more := AddLines(runs, text, cost, Run("", 3), "x");
    assert text + "\n" + "\n\n" + "\n" + "x" == text + GAP;
  }

  lemma AddOneMoreGap(runs: seq<Run>, before: string, cost: nat, k: nat) returns (more: seq<Run>)
    requires 0 < k && Spells(runs, before + GapText(k - 1), cost)
    ensures Spells(more, before + GapText(k), cost + 8)
  {
    more := AddGap(runs, before + GapText(k - 1), cost);
    Assoc(before, GapText(k - 1), GAP);
  }

  lemma {:induction false} AddGaps(runs: seq<Run>, before: string, cost: nat, k: nat) returns (more: seq<Run>)
    requires Spells(runs, before + "x", cost)
    ensures Spells(more, before + GapText(k), cost + 8 * k)
  {
    if k == 0 {
      more := runs;
    } else {
      more := AddGaps(runs, before, cost, k - 1);
      more := AddOneMoreGap(more, before, cost + 8 * (k - 1), k);
    }
  }

  lemma Assoc(a: string, b: string, c: string)
    ensures a + b + c == a + (b + c)
  {
  }

  lemma AddHeader(runs: seq<Run>, text: string, cost: nat, header: string) returns (more: seq<Run>)
    requires Spells(runs, text, cost) && '\n' !in header
    ensures Spells(more, text + "\n\n" + header + "x", cost)
  {
    OneCopy("");
    more := AddLines(runs, text, cost, Run("", 1), header + "x");
    assert text + "\n" + "" + "\n" == text + "\n\n";
    Assoc(text + "\n\n", header, "x");
  }

  lemma AddBlock(runs: seq<Run>, text: string, cost: nat, header: string, k: nat) returns (more: seq<Run>)
    requires Spells(runs, text, cost) && '\n' !in header
    ensures Spells(more, text + "\n\n" + (header + GapText(k)), cost + 8 * k)
  {
    var started := AddHeader(runs, text, cost, header);
    more := AddGaps(started, text + "\n\n" + header, cost, k);
    Assoc(text + "\n\n", header, GapText(k));
  }

  // n blocks of k gaps cost at least this much.
  function Price(n: nat, k: nat): nat {
    if n == 0 then 0 else Price(n - 1, k) + 8 * k
  }

  lemma BlockSpelled(title: string, passages: seq<Passage>, n: nat, k: nat)
    requires 0 < n <= |passages| && passages[n - 1] == GapPassage(n - 1, k) && k <= 199
    ensures LinesTo(title, passages, n - 1) + "\n\n" + (Header(n, passages[n - 1]) + GapText(k)) == LinesTo(title, passages, n)
    ensures '\n' !in Header(n, passages[n - 1])
  {
    var block := Block(n, passages[n - 1]);
    assert block == Header(n, passages[n - 1]) + GapText(k);
    Assoc(title, Blocks(passages, n - 1), "\n\n");
    Assoc(title, Blocks(passages, n - 1) + "\n\n", block);
    HeaderIsLine(n, passages[n - 1]);
  }

  lemma AddNextBlock(title: string, passages: seq<Passage>, n: nat, k: nat, fewer: seq<Run>) returns (runs: seq<Run>)
    requires 0 < n <= |passages| && passages[n - 1] == GapPassage(n - 1, k) && k <= 199
    requires Spells(fewer, LinesTo(title, passages, n - 1), Price(n - 1, k))
    ensures Spells(runs, LinesTo(title, passages, n), Price(n, k))
  {
    BlockSpelled(title, passages, n, k);
    runs := AddBlock(fewer, LinesTo(title, passages, n - 1), Price(n - 1, k), Header(n, passages[n - 1]), k);
  }

  lemma {:induction false} AddBlocks(title: string, passages: seq<Passage>, n: nat, k: nat, text: string)
      returns (runs: seq<Run>)
    requires title != "" && '\n' !in title && k <= 199 && n <= |passages|
    requires forall i :: 0 <= i < |passages| ==> passages[i] == GapPassage(i, k)
    requires text == LinesTo(title, passages, n)
    ensures Spells(runs, text, Price(n, k))
  {
    if n == 0 {
      JustTitle(title, passages);
      runs := [Run(title, 1)];
    } else {
      runs := AddBlocks(title, passages, n - 1, k, LinesTo(title, passages, n - 1));
      runs := AddNextBlock(title, passages, n, k, runs);
    }
  }

  // Runs that spell a text are its runs.
  lemma SpelledRuns(runs: seq<Run>, text: string, cost: nat)
    requires Spells(runs, text, cost)
    ensures |Join(Collapse(Split(text)))| >= cost - 1
  {
    ExpandHasNoNewlines(runs);
    JoinThenSplit(Expand(runs));
    RunsAreMaximal(Split(text));
    RunsAreUnique(Split(text), RunsOf(Split(text)), runs);
    CollapsedLength(Split(text));
    JoinLength(Collapse(Split(text)));
  }

  function GapPassages(k: nat): (passages: seq<Passage>)
    ensures |passages| == MAX_TOP_K && forall i :: 0 <= i < |passages| ==> passages[i] == GapPassage(i, k)
  {
    seq(MAX_TOP_K, i requires 0 <= i < MAX_TOP_K => GapPassage(i, k))
  }

  // Ten stored passages, each the one chunk of its document, whose envelope fits the
  // limit and is cut all the same: collapsing takes it past the limit, and what the
  // model is handed is not its lines.
  lemma EnvelopeCanBeCut(k: nat, isError: string -> bool, secrets: set<string>)
    requires 151 <= k <= 199
    ensures var passages := GapPassages(k);
            && AllStorable(passages) && |SearchText(passages)| <= RAG_SEARCH_ENVELOPE_MAX_CHARS
            && |Join(Collapsed(passages))| > RAG_SEARCH_ENVELOPE_MAX_CHARS
            && !Whole(passages, isError, secrets)
            && forall i :: 0 <= i < |passages| ==>
                 && D.Accepted([D.Page(passages[i].text, None)])
                 && D.Rows([D.Page(passages[i].text, None)]) ==
                    [D.Row(None, D.Chunk(passages[i].text, 0, |passages[i].text|))]
  {
    var passages := GapPassages(k);
    forall i | 0 <= i < |passages|
      ensures Storable(passages[i]) && D.Accepted([D.Page(passages[i].text, None)])
      ensures D.Rows([D.Page(passages[i].text, None)]) ==
              [D.Row(None, D.Chunk(passages[i].text, 0, |passages[i].text|))]
    {
      GapIsStored(i, k);
    }
    GapsPassLimit(passages, k);
    WholeIff(passages, isError, secrets);
    SplitThenJoin(SearchText(passages));
    CollapsedLength(Lines(passages));
  }

  lemma {:induction false} PriceIs(n: nat, k: nat)
    ensures Price(n, k) == n * (8 * k)
  {
    if n > 0 {
      PriceIs(n - 1, k);
      assert n * (8 * k) == (n - 1) * (8 * k) + 8 * k;
    }
  }

  lemma GapsPassLimit(passages: seq<Passage>, k: nat)
    requires passages == GapPassages(k) && 151 <= k <= 199
    ensures |Join(Collapsed(passages))| > RAG_SEARCH_ENVELOPE_MAX_CHARS
  {
    var n := |passages|;
    var title := "Found " + Decimal.Render(n) + " passages:";
    TextOfLines(title, passages);
    var runs := AddBlocks(title, passages, n, k, SearchText(passages));
    SpelledRuns(runs, SearchText(passages), Price(n, k));
    PriceIs(n, k);
  }

  lemma TextOfLines(title: string, passages: seq<Passage>)
    requires title == "Found " + Decimal.Render(|passages|) + " passages:"
    ensures LinesTo(title, passages, |passages|) == SearchText(passages)
  {
  }
}
