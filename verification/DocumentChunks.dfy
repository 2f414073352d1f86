// chunk_text and _document_chunks as documents.py runs them, and how many chunks
// an accepted document can have.

module DocumentChunks {
  import opened Common
  import Decimal
  import opened Chunker
  import opened ChunkerTheorems

  const MAX_EXTRACTED_TEXT_CHARS: nat := 2000000
  const PDF_MAX_PAGES: nat := 2000

  datatype Chunk = Chunk(text: string, start: nat, end: nat)

  function Slices(text: string, spans: seq<Span>): seq<Chunk>
    requires Within(spans, |text|)
  {
    seq(|spans|, i requires 0 <= i < |spans| => Chunk(text[spans[i].start..spans[i].end], spans[i].start, spans[i].end))
  }

  lemma AtomsStep(text: string, paragraphs: seq<Span>, i: nat, target: nat)
    requires i < |paragraphs| && Ordered(paragraphs[i..], 0, |text|) && 0 < target
    ensures Ordered(paragraphs[i + 1..], 0, |text|)
    ensures Atoms(text, paragraphs[i..], target)
            == SplitIfLong(text, paragraphs[i], target) + Atoms(text, paragraphs[i + 1..], target)
  {
    assert paragraphs[i..][0] == paragraphs[i] && paragraphs[i..][1..] == paragraphs[i + 1..];
    OrderedTail(paragraphs[i..], 0, |text|);
  }

  method Cut(text: string, span: Span, target: nat) returns (here: seq<Span>)
    requires span.start <= span.end <= |text| && 0 < target
    ensures here == SplitIfLong(text, span, target)
  {
    if span.end - span.start <= target {
      here := [span];
    } else {
      here := SplitLongSpan(text, span.start, span.end, target);
    }
  }

  method CutAtoms(text: string, target: nat) returns (spans: seq<Span>)
    requires 0 < target
    ensures spans == AtomicSpans(text, target)
  {
    ghost var all := AtomicSpans(text, target);
    var paragraphs := ParagraphSpans(text);
    ParagraphsOrdered(text, 0);
    spans := [];
    assert paragraphs[0..] == paragraphs;
    for i := 0 to |paragraphs|
      invariant Ordered(paragraphs[i..], 0, |text|)
      invariant spans + Atoms(text, paragraphs[i..], target) == all
    {
      AtomsStep(text, paragraphs, i, target);
      assert paragraphs[i] == paragraphs[i..][0];
      var here := Cut(text, paragraphs[i], target);
      spans := spans + here;
    }
    assert paragraphs[|paragraphs|..] == [];
  }

  // Appends to `raw` each time the next span does not fit the open chunk's new
  // material.
  method AssembleChunks(atoms: seq<Span>, target: nat, hardMax: nat, overlap: nat) returns (raw: seq<Span>)
    requires atoms != []
    ensures raw == RawChunks(atoms, target, hardMax, overlap)
  {
    raw := [];
    var start := ChunkStart(None, atoms[0], overlap, hardMax);
    var material, end := atoms[0].start, atoms[0].end;
    for i := 1 to |atoms|
      invariant raw + Assemble(atoms, i, start, material, end, target, hardMax, overlap)
                == RawChunks(atoms, target, hardMax, overlap)
    {
      var span := atoms[i];
      if span.end - material <= target {
        end := span.end;
      } else {
        var closed := Span(start, end);
        raw := raw + [closed];
        start := ChunkStart(Some(closed), span, overlap, hardMax);
        material, end := closed.end, span.end;
      }
    }
    raw := raw + [Span(start, end)];
  }

  lemma SlicesJoin(text: string, spans: seq<Span>, last: Span)
    requires Within(spans, |text|) && last.start <= last.end <= |text|
    ensures Within(spans + [last], |text|)
    ensures Slices(text, spans + [last]) == Slices(text, spans) + [Chunk(text[last.start..last.end], last.start, last.end)]
  {
  }

  method ChunkText(text: string, target: nat, hardMax: nat, overlap: nat, minimum: nat) returns (chunks: seq<Chunk>)
    requires 0 < target
    ensures Within(ChunkSpans(text, target, hardMax, overlap, minimum), |text|)
    ensures chunks == Slices(text, ChunkSpans(text, target, hardMax, overlap, minimum))
  {
    ChunksAreSteady(text, target, hardMax, overlap, minimum);
    var atoms := CutAtoms(text, target);
    if atoms == [] {
      return [];
    }
    var raw := AssembleChunks(atoms, target, hardMax, overlap);
    RawIsSteady(text, target, hardMax, overlap);
    chunks := Slices(text, raw);
    if |chunks| == 1 {
      if Nonwhitespace(chunks[0].text) >= ONE_CHUNK_FLOOR {
        return chunks;
      }
      return [];
    }
    var last := chunks[|chunks| - 1];
    if Nonwhitespace(last.text) < minimum {
      var prev := chunks[|chunks| - 2];
      if last.end - prev.start <= hardMax {
        assert Follows(raw[|raw| - 2], raw[|raw| - 1], overlap, hardMax);
        SlicesJoin(text, raw[..|raw| - 2], Span(prev.start, last.end));
        assert Slices(text, raw[..|raw| - 2]) == chunks[..|chunks| - 2];
        chunks := chunks[..|chunks| - 2] + [Chunk(text[prev.start..last.end], prev.start, last.end)];
      }
    }
  }

  // -- Documents --------------------------------------------------------------

  datatype Page = Page(text: string, number: Option<nat>)

  datatype Row = Row(page: Option<nat>, chunk: Chunk)

  function PageRows(page: Page): seq<Row> {
    ChunksAreSteady(page.text, TARGET, HARD_MAX, OVERLAP, MINIMUM);
    var chunks := Slices(page.text, ChunkSpans(page.text, TARGET, HARD_MAX, OVERLAP, MINIMUM));
    seq(|chunks|, i requires 0 <= i < |chunks| => Row(page.number, chunks[i]))
  }

  function Rows(pages: seq<Page>): seq<Row> {
    if pages == [] then [] else Rows(pages[..|pages| - 1]) + PageRows(pages[|pages| - 1])
  }

  // One chunk_text per page; a row's place in the result is its chunk_index.
  method ChunkDocument(pages: seq<Page>) returns (rows: seq<Row>)
    ensures rows == Rows(pages)
  {
    rows := [];
    for i := 0 to |pages|
      invariant rows == Rows(pages[..i])
    {
      var chunks := ChunkText(pages[i].text, TARGET, HARD_MAX, OVERLAP, MINIMUM);
      rows := rows + seq(|chunks|, k requires 0 <= k < |chunks| => Row(pages[i].number, chunks[k]));
      assert pages[..i + 1][..i] == pages[..i];
    }
    assert pages[..|pages|] == pages;
  }

  function TextChars(pages: seq<Page>): nat {
    if pages == [] then 0 else TextChars(pages[..|pages| - 1]) + |pages[|pages| - 1].text|
  }

  // What index_document accepts.
  predicate Accepted(pages: seq<Page>) {
    TextChars(pages) <= MAX_EXTRACTED_TEXT_CHARS && |pages| <= PDF_MAX_PAGES
  }

  // Pages carry their physical number; blank ones are dropped, so a number can exceed
  // the count of pages.
  predicate Numbered(pages: seq<Page>) {
    forall i :: 0 <= i < |pages| && pages[i].number.Some? ==> pages[i].number.value <= PDF_MAX_PAGES
  }

  lemma {:induction false} RowsAreNumbered(pages: seq<Page>, index: nat)
    requires Numbered(pages) && index < |Rows(pages)|
    ensures Rows(pages)[index].page.Some? ==> Rows(pages)[index].page.value <= PDF_MAX_PAGES
    decreases |pages|
  {
    if pages != [] {
      var n := |pages| - 1;
      if index < |Rows(pages[..n])| {
        RowsAreNumbered(pages[..n], index);
      } else {
        assert PageRows(pages[n])[index - |Rows(pages[..n])|].page == pages[n].number;
      }
    }
  }

  lemma {:induction false} RowsBound(pages: seq<Page>)
    ensures (TARGET + 1) * (|Rows(pages)| - |pages|) <= 2 * TextChars(pages)
  {
    if pages != [] {
      var page := pages[|pages| - 1];
      RowsBound(pages[..|pages| - 1]);
      ChunkCountBound(page.text, TARGET, HARD_MAX, OVERLAP, MINIMUM);
    }
  }

  // An accepted document's chunk indices have at most four digits; a page number
  // has at most four as well.
  lemma IndicesHaveFourDigits(pages: seq<Page>, index: nat)
    requires Accepted(pages) && index < |Rows(pages)|
    ensures |Rows(pages)| <= 5996 && |Decimal.Render(index)| <= 4
  {
    RowsBound(pages);
    assert Decimal.Pow10(4) == 10000 by {
      assert Decimal.Pow10(2) == 100;
    }
    Decimal.RenderLength(index, 4);
  }
}
