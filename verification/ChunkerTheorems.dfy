// What the chunker guarantees for every text.

module ChunkerTheorems {
  import opened Common
  import opened Chunker

  // Every non-whitespace character of text[lo..hi] lies in some span.
  ghost predicate Covered(text: string, spans: seq<Span>, lo: nat, hi: nat)
    requires hi <= |text|
  {
    forall k :: lo <= k < hi && !IsSpace(text[k]) ==> Inside(spans, k)
  }

  ghost predicate Inside(spans: seq<Span>, k: int) {
    exists i :: 0 <= i < |spans| && spans[i].start <= k < spans[i].end
  }

  lemma InsideOf(spans: seq<Span>, more: seq<Span>, k: int)
    requires Inside(spans, k) || Inside(more, k)
    ensures Inside(spans + more, k)
  {
    if Inside(spans, k) {
      var i :| 0 <= i < |spans| && spans[i].start <= k < spans[i].end;
      assert (spans + more)[i] == spans[i];
    } else {
      var i :| 0 <= i < |more| && more[i].start <= k < more[i].end;
      assert (spans + more)[|spans| + i] == more[i];
    }
  }

  // -- Paragraphs -------------------------------------------------------------

  lemma {:induction false} SpaceRun(text: string, i: nat, end: nat)
    requires i <= end <= |text|
    ensures forall k :: i <= k < SpaceEnd(text, i, end) ==> IsSpace(text[k])
    decreases end - i
  {
    if i < end && IsSpace(text[i]) {
      SpaceRun(text, i + 1, end);
    }
  }

  lemma {:induction false} BlankLineIsSpace(text: string, pos: nat)
    requires pos <= |text|
    ensures var m := NextBlankLine(text, pos);
            m.Some? ==> forall k :: m.value.start <= k < m.value.end ==> IsSpace(text[k])
    decreases |text| - pos
  {
    if pos < |text| {
      if BlankLineAt(text, pos).Some? {
        SpaceRun(text, pos + 1, |text|);
      } else {
        BlankLineIsSpace(text, pos + 1);
      }
    }
  }

  lemma {:induction false} BlankLineIsFirst(text: string, pos: nat)
    requires pos <= |text|
    ensures var m := NextBlankLine(text, pos);
            forall k :: pos <= k < (if m.Some? then m.value.start else |text|) ==> BlankLineAt(text, k).None?
    decreases |text| - pos
  {
    if pos < |text| && BlankLineAt(text, pos).None? {
      BlankLineIsFirst(text, pos + 1);
    }
  }

  lemma OrderedTail(spans: seq<Span>, lo: nat, hi: nat)
    requires Ordered(spans, lo, hi) && spans != []
    ensures Ordered(spans[1..], spans[0].end, hi)
  {
    var i := 1;
    while i < |spans|
      invariant 1 <= i && forall k :: 0 < k < i && k < |spans| ==> spans[0].end <= spans[k].start
    {
      assert spans[i - 1].end <= spans[i].start;
      i := i + 1;
    }
  }

  // Paragraphs follow one another.
  lemma {:induction false} ParagraphsOrdered(text: string, pos: nat)
    requires pos <= |text|
    ensures Ordered(Paragraphs(text, pos), pos, |text|)
    decreases |text| - pos
  {
    var m := NextBlankLine(text, pos);
    if m.Some? {
      ParagraphsOrdered(text, m.value.end);
    }
  }

  // No blank line starts inside a paragraph.
  lemma {:induction false} ParagraphsUnbroken(text: string, pos: nat, span: Span, k: nat)
    requires pos <= |text| && span in Paragraphs(text, pos) && span.start <= k < span.end <= |text|
    ensures BlankLineAt(text, k).None?
    decreases |text| - pos
  {
    var m := NextBlankLine(text, pos);
    BlankLineIsFirst(text, pos);
    if m.Some? && span in Paragraphs(text, m.value.end) {
      ParagraphsUnbroken(text, m.value.end, span, k);
    }
  }

  // Only whitespace lies between paragraphs.
  lemma {:induction false} ParagraphsCover(text: string, pos: nat, k: nat)
    requires pos <= k < |text| && !IsSpace(text[k])
    ensures Inside(Paragraphs(text, pos), k)
    decreases |text| - pos
  {
    var m := NextBlankLine(text, pos);
    var spans := Paragraphs(text, pos);
    if m.None? || k < m.value.start {
      assert spans[0].start <= k < spans[0].end;
    } else {
      BlankLineIsSpace(text, pos);
      var here := if m.value.start > pos then [Span(pos, m.value.start)] else [];
      ParagraphsCover(text, m.value.end, k);
      InsideOf(here, Paragraphs(text, m.value.end), k);
    }
  }

  // -- Splitting --------------------------------------------------------------

  // Pieces that tile [pos, end), each of 1 to `target` characters.
  ghost predicate Tiles(pieces: seq<Span>, pos: nat, end: nat, target: nat) {
    && (pieces == [] ==> pos == end)
    && (pieces != [] ==> pieces[0].start == pos && pieces[|pieces| - 1].end == end)
    && (forall i :: 0 <= i < |pieces| ==> pieces[i].start < pieces[i].end <= pieces[i].start + target)
    && (forall i :: 0 <= i < |pieces| - 1 ==> pieces[i].end == pieces[i + 1].start)
  }

  // A piece ends at the furthest breakpoint in reach, and is cut at exactly
  // `target` (or at the end of the span) only when none is in reach.
  ghost predicate WellCut(breaks: seq<nat>, piece: Span, end: nat, target: nat) {
    var hi := Min(piece.start + target, end);
    if exists i :: 0 <= i < |breaks| && piece.start < breaks[i] <= hi then
      piece.end in breaks && forall i :: 0 <= i < |breaks| && piece.start < breaks[i] <= hi ==> breaks[i] <= piece.end
    else piece.end == hi
  }

  lemma TilesCons(pos: nat, cut: nat, rest: seq<Span>, end: nat, target: nat)
    requires pos < cut <= pos + target && Tiles(rest, cut, end, target)
    ensures Tiles([Span(pos, cut)] + rest, pos, end, target)
  {
  }

  lemma {:induction false} PiecesTile(breaks: seq<nat>, pos: nat, end: nat, target: nat)
    requires pos <= end && 0 < target
    ensures Tiles(Pieces(breaks, pos, end, target), pos, end, target)
    decreases end - pos
  {
    if pos < end {
      var cut := PieceEnd(breaks, pos, end, target);
      PiecesTile(breaks, cut, end, target);
      TilesCons(pos, cut, Pieces(breaks, cut, end, target), end, target);
    }
  }

  lemma {:induction false} PiecesWellCut(breaks: seq<nat>, pos: nat, end: nat, target: nat, piece: Span)
    requires pos <= end && 0 < target && piece in Pieces(breaks, pos, end, target)
    ensures WellCut(breaks, piece, end, target)
    decreases end - pos
  {
    var cut := PieceEnd(breaks, pos, end, target);
    if piece != Span(pos, cut) {
      PiecesWellCut(breaks, cut, end, target, piece);
    }
  }

  lemma {:induction false} TilesCover(pieces: seq<Span>, pos: nat, end: nat, target: nat, k: nat)
    requires Tiles(pieces, pos, end, target) && pos <= k < end
    ensures Inside(pieces, k)
    decreases |pieces|
  {
    if k < pieces[0].end {
      assert pieces[0].start <= k;
    } else {
      TilesCover(pieces[1..], pieces[0].end, end, target, k);
      InsideOf(pieces[..1], pieces[1..], k);
      assert pieces[..1] + pieces[1..] == pieces;
    }
  }

  lemma {:induction false} TilesOrdered(pieces: seq<Span>, pos: nat, end: nat, target: nat)
    requires Tiles(pieces, pos, end, target)
    ensures pos <= end && Ordered(pieces, pos, end)
    decreases |pieces|
  {
    if |pieces| > 1 {
      TilesOrdered(pieces[1..], pieces[0].end, end, target);
    }
  }

  // The breakpoints are the sentence ends moved right by `start`: they are the
  // sentence ends themselves exactly when the span begins the text or has none.
  lemma BreakpointsAreShifted(text: string, start: nat, end: nat)
    requires start <= end <= |text|
    ensures Breakpoints(text, start, end) == SentenceEnds(text, start, end)
            <==> start == 0 || SentenceEnds(text, start, end) == []
  {
    var ends := SentenceEnds(text, start, end);
    if ends != [] {
      assert Breakpoints(text, start, end)[0] == start + ends[0];
    }
  }

  lemma {:induction false} NoStopsNoEnds(text: string, pos: nat, end: nat)
    requires pos <= end <= |text| && forall k :: pos <= k < end ==> !IsStop(text[k])
    ensures SentenceEnds(text, pos, end) == []
    decreases end - pos
  {
    if pos < end {
      NoStopsNoEnds(text, pos + 1, end);
    }
  }

  // A stretch of x's but for a sentence end at m.
  ghost predicate OneSentence(text: string, lo: nat, hi: nat, m: nat) {
    && lo < m < hi - 1 && hi <= |text| && text[m - 1] == '.' && text[m] == ' '
    && forall k :: lo <= k < hi && k != m - 1 && k != m ==> text[k] == 'x'
  }

  lemma {:induction false} OneEnd(text: string, lo: nat, hi: nat, m: nat)
    requires OneSentence(text, lo, hi, m)
    ensures SentenceEnds(text, lo, hi) == [m + 1]
    decreases m - lo
  {
    if lo < m - 1 {
      OneEnd(text, lo + 1, hi, m);
    } else {
      assert text[m + 1] == 'x';
      assert StopEnd(text, m, hi) == m;
      assert SpaceEnd(text, m + 1, hi) == m + 1;
      assert SpaceEnd(text, m, hi) == m + 1;
      NoStopsNoEnds(text, m + 1, hi);
    }
  }

  lemma {:induction false} NoBlankLine(text: string, pos: nat)
    requires pos <= |text| && forall k :: pos <= k < |text| ==> text[k] != '\n'
    ensures NextBlankLine(text, pos).None?
    decreases |text| - pos
  {
    if pos < |text| {
      NoBlankLine(text, pos + 1);
    }
  }

  // -- Atoms ------------------------------------------------------------------

  lemma {:induction false} OrderedAppend(a: seq<Span>, b: seq<Span>, lo: nat, mid: nat, hi: nat)
    requires Ordered(a, lo, mid) && Ordered(b, mid, hi) && lo <= mid <= hi
    ensures Ordered(a + b, lo, hi)
  {
  }

  lemma {:induction false} AtomsOrdered(text: string, spans: seq<Span>, lo: nat, target: nat)
    requires lo <= |text| && Ordered(spans, lo, |text|) && 0 < target
    ensures var atoms := Atoms(text, spans, target);
            && Ordered(atoms, lo, |text|)
            && (forall i :: 0 <= i < |atoms| ==> atoms[i].end - atoms[i].start <= target)
    decreases |spans|
  {
    if spans != [] {
      var here := SplitTiles(text, spans[0], target);
      TilesOrdered(here, spans[0].start, spans[0].end, target);
      OrderedTail(spans, lo, |text|);
      AtomsOrdered(text, spans[1..], spans[0].end, target);
      OrderedAppend(here, Atoms(text, spans[1..], target), lo, spans[0].end, |text|);
    }
  }

  lemma SplitTiles(text: string, span: Span, target: nat) returns (here: seq<Span>)
    requires span.start < span.end <= |text| && 0 < target
    ensures here == SplitIfLong(text, span, target) && Tiles(here, span.start, span.end, target)
  {
    here := SplitIfLong(text, span, target);
    if span.end - span.start > target {
      PiecesTile(Breakpoints(text, span.start, span.end), span.start, span.end, target);
    }
  }

  lemma {:induction false} AtomsCover(text: string, spans: seq<Span>, lo: nat, target: nat, k: nat)
    requires lo <= |text| && Ordered(spans, lo, |text|) && 0 < target && Inside(spans, k)
    ensures Inside(Atoms(text, spans, target), k)
    decreases |spans|
  {
    var here := SplitTiles(text, spans[0], target);
    OrderedTail(spans, lo, |text|);
    var i :| 0 <= i < |spans| && spans[i].start <= k < spans[i].end;
    if i == 0 {
      TilesCover(here, spans[0].start, spans[0].end, target, k);
    } else {
      assert spans[1..][i - 1] == spans[i];
      AtomsCover(text, spans[1..], spans[0].end, target, k);
    }
    InsideOf(here, Atoms(text, spans[1..], target), k);
  }

  // -- Assembly ---------------------------------------------------------------

  // The spans a text is cut into before assembly.
  function AtomicSpans(text: string, target: nat): seq<Span>
    requires 0 < target
  {
    ParagraphsOrdered(text, 0);
    Atoms(text, Paragraphs(text, 0), target)
  }

  ghost predicate GoodAtoms(spans: seq<Span>, hi: nat, target: nat) {
    && Ordered(spans, 0, hi)
    && (forall i :: 0 <= i < |spans| ==> spans[i].end - spans[i].start <= target)
  }

  // How one chunk follows another: the end advances, the start does not go back,
  // and at most `overlap` characters are shared.  The shared prefix is exactly
  // what the overlap asks for unless the hard ceiling pulled the start forward.
  ghost predicate Follows(a: Span, b: Span, overlap: nat, hardMax: nat) {
    && a.start <= b.start && a.end < b.end && a.end - overlap <= b.start
    && (b.start == Max(a.start, a.end - overlap) || b.start + hardMax <= b.end)
  }

  ghost predicate Steady(chunks: seq<Span>, hi: nat, hardMax: nat, overlap: nat) {
    && Within(chunks, hi)
    && (forall i :: 0 <= i < |chunks| - 1 ==> Follows(chunks[i], chunks[i + 1], overlap, hardMax))
  }

  ghost predicate Short(chunks: seq<Span>, hardMax: nat) {
    forall i :: 0 <= i < |chunks| ==> chunks[i].start < chunks[i].end <= chunks[i].start + hardMax
  }

  // An open chunk that ends with spans[i - 1].
  ghost predicate Open(spans: seq<Span>, i: nat, start: nat, end: nat)
    requires i <= |spans|
  {
    0 < i && start <= end == spans[i - 1].end
  }

  lemma StartIsGood(prev: Option<Span>, spans: seq<Span>, i: nat, hi: nat, target: nat, hardMax: nat, overlap: nat)
    requires GoodAtoms(spans, hi, target) && i < |spans|
    requires prev.Some? ==> prev.value.start <= prev.value.end <= spans[i].start
    ensures var start := ChunkStart(prev, spans[i], overlap, hardMax);
            && Open(spans, i + 1, start, spans[i].end)
            && spans[i].end - start <= hardMax
            && (0 < hardMax ==> start < spans[i].end)
            && (target <= hardMax ==> start <= spans[i].start)
            && (prev.None? ==> spans[i].start <= start)
            && (prev.Some? ==> prev.value.start <= start && prev.value.end - overlap <= start
                               && (start == Max(prev.value.start, prev.value.end - overlap) || start + hardMax == spans[i].end))
  {
  }

  lemma {:induction false} AssembleSteady(spans: seq<Span>, i: nat, start: nat, material: nat, end: nat, hi: nat,
                                          target: nat, hardMax: nat, overlap: nat)
    requires GoodAtoms(spans, hi, target) && i <= |spans| && Open(spans, i, start, end)
    ensures var chunks := Assemble(spans, i, start, material, end, target, hardMax, overlap);
            && chunks != [] && chunks[0].start == start && end <= chunks[0].end
            && chunks[|chunks| - 1].end == spans[|spans| - 1].end
            && Steady(chunks, hi, hardMax, overlap)
    decreases |spans| - i
  {
    if i < |spans| {
      if spans[i].end - material <= target {
        AssembleSteady(spans, i + 1, start, material, spans[i].end, hi, target, hardMax, overlap);
      } else {
        var prev := Span(start, end);
        StartIsGood(Some(prev), spans, i, hi, target, hardMax, overlap);
        var next := ChunkStart(Some(prev), spans[i], overlap, hardMax);
        AssembleSteady(spans, i + 1, next, end, spans[i].end, hi, target, hardMax, overlap);
        var rest := Assemble(spans, i + 1, next, end, spans[i].end, target, hardMax, overlap);
        assert Follows(prev, rest[0], overlap, hardMax);
      }
    }
  }

  // The ceiling: new material of at most `target` on top of at most `overlap`.
  lemma {:induction false} AssembleShort(spans: seq<Span>, i: nat, start: nat, material: nat, end: nat, hi: nat,
                                         target: nat, hardMax: nat, overlap: nat)
    requires GoodAtoms(spans, hi, target) && i <= |spans| && Open(spans, i, start, end)
    requires 0 < target && target + overlap <= hardMax
    requires start < end <= start + hardMax && material <= start + overlap
    ensures Short(Assemble(spans, i, start, material, end, target, hardMax, overlap), hardMax)
    decreases |spans| - i
  {
    if i < |spans| {
      if spans[i].end - material <= target {
        AssembleShort(spans, i + 1, start, material, spans[i].end, hi, target, hardMax, overlap);
      } else {
        var prev := Span(start, end);
        StartIsGood(Some(prev), spans, i, hi, target, hardMax, overlap);
        AssembleShort(spans, i + 1, ChunkStart(Some(prev), spans[i], overlap, hardMax), end, spans[i].end, hi,
                      target, hardMax, overlap);
      }
    }
  }

  // Every character of the spans still to come, or of the open chunk, ends up in
  // a chunk.
  lemma {:induction false} AssembleCovers(spans: seq<Span>, i: nat, start: nat, material: nat, end: nat, hi: nat,
                                          target: nat, hardMax: nat, overlap: nat, k: nat)
    requires GoodAtoms(spans, hi, target) && i <= |spans| && Open(spans, i, start, end) && target <= hardMax
    requires start <= k < end || Inside(spans[i..], k)
    ensures Inside(Assemble(spans, i, start, material, end, target, hardMax, overlap), k)
    decreases |spans| - i
  {
    var chunks := Assemble(spans, i, start, material, end, target, hardMax, overlap);
    if i == |spans| {
      assert chunks[0].start <= k < chunks[0].end;
    } else {
      assert spans[i..][0] == spans[i] && spans[i..][1..] == spans[i + 1..];
      if !(start <= k < end) && !(spans[i].start <= k < spans[i].end) {
        var j :| 0 <= j < |spans[i..]| && spans[i..][j].start <= k < spans[i..][j].end;
        assert spans[i + 1..][j - 1].start <= k < spans[i + 1..][j - 1].end;
      }
      if spans[i].end - material <= target {
        AssembleCovers(spans, i + 1, start, material, spans[i].end, hi, target, hardMax, overlap, k);
      } else {
        var prev := Span(start, end);
        StartIsGood(Some(prev), spans, i, hi, target, hardMax, overlap);
        var next := ChunkStart(Some(prev), spans[i], overlap, hardMax);
        if start <= k < end {
          assert chunks[0].start <= k < chunks[0].end;
        } else {
          AssembleCovers(spans, i + 1, next, end, spans[i].end, hi, target, hardMax, overlap, k);
          InsideOf([prev], Assemble(spans, i + 1, next, end, spans[i].end, target, hardMax, overlap), k);
        }
      }
    }
  }

  // Every second chunk end is more than `target` further on.
  ghost predicate Advances(chunks: seq<Span>, target: nat) {
    && (|chunks| > 1 ==> target < chunks[1].end)
    && (forall i :: 0 <= i < |chunks| - 2 ==> chunks[i].end + target < chunks[i + 2].end)
  }

  lemma {:induction false} AssembleAdvances(spans: seq<Span>, i: nat, start: nat, material: nat, end: nat, hi: nat,
                                            target: nat, hardMax: nat, overlap: nat)
    requires GoodAtoms(spans, hi, target) && i <= |spans| && Open(spans, i, start, end)
    ensures var chunks := Assemble(spans, i, start, material, end, target, hardMax, overlap);
            && (|chunks| > 1 ==> material + target < chunks[1].end)
            && Advances(chunks, target)
    decreases |spans| - i
  {
    if i < |spans| {
      if spans[i].end - material <= target {
        AssembleAdvances(spans, i + 1, start, material, spans[i].end, hi, target, hardMax, overlap);
      } else {
        var prev := Span(start, end);
        StartIsGood(Some(prev), spans, i, hi, target, hardMax, overlap);
        var next := ChunkStart(Some(prev), spans[i], overlap, hardMax);
        AssembleAdvances(spans, i + 1, next, end, spans[i].end, hi, target, hardMax, overlap);
        AssembleSteady(spans, i + 1, next, end, spans[i].end, hi, target, hardMax, overlap);
      }
    }
  }

  // -- chunk_text -------------------------------------------------------------

  // A chunk is closed only when the next span does not fit its new material.
  function ChunkSpans(text: string, target: nat, hardMax: nat, overlap: nat, minimum: nat): seq<Span>
    requires 0 < target
  {
    var atoms := AtomicSpans(text, target);
    if atoms == [] then []
    else
      RawIsSteady(text, target, hardMax, overlap);
      Finish(text, RawChunks(atoms, target, hardMax, overlap), hardMax, minimum)
  }

  lemma AtomsAreGood(text: string, target: nat)
    requires 0 < target
    ensures GoodAtoms(AtomicSpans(text, target), |text|, target)
  {
    ParagraphsOrdered(text, 0);
    AtomsOrdered(text, Paragraphs(text, 0), 0, target);
  }

  lemma RawIsSteady(text: string, target: nat, hardMax: nat, overlap: nat)
    requires 0 < target && AtomicSpans(text, target) != []
    ensures var raw := RawChunks(AtomicSpans(text, target), target, hardMax, overlap);
            raw != [] && Steady(raw, |text|, hardMax, overlap)
  {
    var atoms := AtomicSpans(text, target);
    AtomsAreGood(text, target);
    StartIsGood(None, atoms, 0, |text|, target, hardMax, overlap);
    AssembleSteady(atoms, 1, ChunkStart(None, atoms[0], overlap, hardMax), atoms[0].start, atoms[0].end, |text|,
                   target, hardMax, overlap);
  }

  lemma FinishKeepsSteady(text: string, raw: seq<Span>, hardMax: nat, overlap: nat, minimum: nat)
    requires raw != [] && Steady(raw, |text|, hardMax, overlap)
    ensures Steady(Finish(text, raw, hardMax, minimum), |text|, hardMax, overlap)
    ensures Short(raw, hardMax) ==> Short(Finish(text, raw, hardMax, minimum), hardMax)
  {
  }

  // For all parameters: chunks are slices of the text; ends strictly increase,
  // starts never decrease, and consecutive chunks share at most `overlap`
  // characters.
  lemma ChunksAreSteady(text: string, target: nat, hardMax: nat, overlap: nat, minimum: nat)
    requires 0 < target
    ensures Steady(ChunkSpans(text, target, hardMax, overlap, minimum), |text|, hardMax, overlap)
  {
    if AtomicSpans(text, target) != [] {
      RawIsSteady(text, target, hardMax, overlap);
      FinishKeepsSteady(text, RawChunks(AtomicSpans(text, target), target, hardMax, overlap), hardMax, overlap, minimum);
    }
  }

  // The hard ceiling is absolute when target and overlap leave room for each
  // other under it, as the defaults (1000 + 200 <= 1200) just do.
  lemma ChunksAreShort(text: string, target: nat, hardMax: nat, overlap: nat, minimum: nat)
    requires 0 < target && target + overlap <= hardMax
    ensures Short(ChunkSpans(text, target, hardMax, overlap, minimum), hardMax)
  {
    var atoms := AtomicSpans(text, target);
    if atoms != [] {
      AtomsAreGood(text, target);
      StartIsGood(None, atoms, 0, |text|, target, hardMax, overlap);
      AssembleShort(atoms, 1, ChunkStart(None, atoms[0], overlap, hardMax), atoms[0].start, atoms[0].end, |text|,
                    target, hardMax, overlap);
      RawIsSteady(text, target, hardMax, overlap);
      FinishKeepsSteady(text, RawChunks(atoms, target, hardMax, overlap), hardMax, overlap, minimum);
    }
  }

  lemma FinishKeepsInside(text: string, raw: seq<Span>, hardMax: nat, overlap: nat, minimum: nat, k: nat)
    requires raw != [] && Steady(raw, |text|, hardMax, overlap) && Inside(raw, k)
    ensures var chunks := Finish(text, raw, hardMax, minimum); chunks != [] ==> Inside(chunks, k)
  {
    var chunks := Finish(text, raw, hardMax, minimum);
    var n := |raw|;
    if chunks != [] && chunks != raw {
      var i :| 0 <= i < n && raw[i].start <= k < raw[i].end;
      if i < n - 2 {
        assert chunks[i].start <= k < chunks[i].end;
      } else {
        assert Follows(raw[n - 2], raw[n - 1], overlap, hardMax);
        assert chunks[n - 2].start <= k < chunks[n - 2].end;
      }
    }
  }

  // Unless the text yields no chunk at all, every non-whitespace character is in
  // some chunk, the tail merge included.
  lemma NothingIsLost(text: string, target: nat, hardMax: nat, overlap: nat, minimum: nat, k: nat)
    requires 0 < target <= hardMax && k < |text| && !IsSpace(text[k])
    ensures var chunks := ChunkSpans(text, target, hardMax, overlap, minimum); chunks != [] ==> Inside(chunks, k)
  {
    ParagraphsOrdered(text, 0);
    ParagraphsCover(text, 0, k);
    AtomsCover(text, Paragraphs(text, 0), 0, target, k);
    var atoms := AtomicSpans(text, target);
    AtomsAreGood(text, target);
    StartIsGood(None, atoms, 0, |text|, target, hardMax, overlap);
    var start := ChunkStart(None, atoms[0], overlap, hardMax);
    var j :| 0 <= j < |atoms| && atoms[j].start <= k < atoms[j].end;
    if j > 0 {
      assert atoms[1..][j - 1] == atoms[j];
    } else {
      assert start <= k < atoms[0].end;
    }
    AssembleCovers(atoms, 1, start, atoms[0].start, atoms[0].end, |text|, target, hardMax, overlap, k);
    RawIsSteady(text, target, hardMax, overlap);
    FinishKeepsInside(text, RawChunks(atoms, target, hardMax, overlap), hardMax, overlap, minimum, k);
  }

  lemma {:induction false} AdvancesFar(chunks: seq<Span>, target: nat, m: nat)
    requires Advances(chunks, target) && 0 < m && 2 * m <= |chunks|
    ensures m * (target + 1) <= chunks[2 * m - 1].end
  {
    if m > 1 {
      AdvancesFar(chunks, target, m - 1);
      assert chunks[2 * m - 3].end + target < chunks[2 * m - 1].end;
      assert m * (target + 1) == (m - 1) * (target + 1) + (target + 1);
    }
  }

  lemma RawCountBound(text: string, target: nat, hardMax: nat, overlap: nat, m: nat)
    requires 0 < target && AtomicSpans(text, target) != []
    requires 2 * m <= |RawChunks(AtomicSpans(text, target), target, hardMax, overlap)|
    ensures m * (target + 1) <= |text|
  {
    var atoms := AtomicSpans(text, target);
    AtomsAreGood(text, target);
    StartIsGood(None, atoms, 0, |text|, target, hardMax, overlap);
    AssembleAdvances(atoms, 1, ChunkStart(None, atoms[0], overlap, hardMax), atoms[0].start, atoms[0].end, |text|,
                     target, hardMax, overlap);
    RawIsSteady(text, target, hardMax, overlap);
    if m > 0 {
      AdvancesFar(RawChunks(atoms, target, hardMax, overlap), target, m);
    }
  }

  // n chunks need a text of at least floor(n / 2) * (target + 1) characters.
  lemma ChunkCountBound(text: string, target: nat, hardMax: nat, overlap: nat, minimum: nat)
    requires 0 < target
    ensures var n := |ChunkSpans(text, target, hardMax, overlap, minimum)|; (n / 2) * (target + 1) <= |text|
  {
    var n := |ChunkSpans(text, target, hardMax, overlap, minimum)|;
    if AtomicSpans(text, target) != [] {
      RawIsSteady(text, target, hardMax, overlap);
      RawCountBound(text, target, hardMax, overlap, n / 2);
    }
  }
}
