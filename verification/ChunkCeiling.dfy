// Exactly when the chunker's hard ceiling holds, and when it loses nothing, for every
// text.

module ChunkCeiling {
  import opened Common
  import opened Chunker
  import opened ChunkerTheorems

  ghost predicate UnderCeiling(chunks: seq<Span>, hardMax: nat) {
    forall i :: 0 <= i < |chunks| ==> chunks[i].end - chunks[i].start <= hardMax
  }

  // -- One-character spans ------------------------------------------------------

  // With a target of one, no chunk ever takes a second span.
  lemma {:induction false} SinglesStayShort(spans: seq<Span>, i: nat, start: nat, material: nat, end: nat, hi: nat,
                                            hardMax: nat, overlap: nat)
    requires GoodAtoms(spans, hi, 1) && i <= |spans| && Open(spans, i, start, end)
    requires material <= spans[i - 1].start && end - start <= hardMax
    ensures UnderCeiling(Assemble(spans, i, start, material, end, 1, hardMax, overlap), hardMax)
    decreases |spans| - i
  {
    if i < |spans| {
      assert spans[i - 1].end <= spans[i].start;
      var prev := Span(start, end);
      StartIsGood(Some(prev), spans, i, hi, 1, hardMax, overlap);
      SinglesStayShort(spans, i + 1, ChunkStart(Some(prev), spans[i], overlap, hardMax), end, spans[i].end, hi,
                       hardMax, overlap);
    }
  }

  lemma SinglesAreUnder(text: string, hardMax: nat, overlap: nat, minimum: nat)
    ensures UnderCeiling(ChunkSpans(text, 1, hardMax, overlap, minimum), hardMax)
  {
    var atoms := AtomicSpans(text, 1);
    if atoms != [] {
      AtomsAreGood(text, 1);
      StartIsGood(None, atoms, 0, |text|, 1, hardMax, overlap);
      SinglesStayShort(atoms, 1, ChunkStart(None, atoms[0], overlap, hardMax), atoms[0].start, atoms[0].end, |text|,
                       hardMax, overlap);
      RawIsSteady(text, 1, hardMax, overlap);
    }
  }

  // -- A text that breaks the ceiling ----------------------------------------------

  function Mark(i: nat, target: nat): nat {
    if i == 0 then 0 else Mark(i - 1, target) + target
  }

  lemma {:induction false} MarksGrow(i: nat, j: nat, target: nat)
    requires i <= j && 0 < target
    ensures Mark(i, target) + (j - i) <= Mark(j, target)
    ensures i < j ==> Mark(i, target) + target <= Mark(j, target)
    decreases j
  {
    if i < j {
      MarksGrow(i, j - 1, target);
    }
  }

  function Xs(n: nat): (s: string)
    ensures |s| == n && forall k :: 0 <= k < n ==> s[k] == 'x'
  {
    seq(n, k => 'x')
  }

  // hardMax + 1 full pieces, a sentence end one character later, and the rest of one
  // more piece.
  function Overflowing(target: nat, hardMax: nat): (text: string)
    requires 2 <= target
    ensures |text| == Mark(hardMax + 1, target) + target
  {
    MarksGrow(0, hardMax + 1, target);
    Xs(Mark(hardMax + 1, target) - 1) + ". " + Xs(target - 1)
  }

  lemma OverflowingIsOneSentence(target: nat, hardMax: nat)
    requires 2 <= target
    ensures var text := Overflowing(target, hardMax); OneSentence(text, 0, |text|, Mark(hardMax + 1, target))
  {
    MarksGrow(0, hardMax + 1, target);
  }

  // n full pieces up to the mark, then one character, then the rest.
  ghost predicate Laid(spans: seq<Span>, k: nat, n: nat, target: nat) {
    && k <= n && |spans| == n - k + 2
    && (forall i: nat {:trigger spans[i]} :: i < n - k ==> spans[i] == Span(Mark(k + i, target), Mark(k + i + 1, target)))
    && spans[n - k] == Span(Mark(n, target), Mark(n, target) + 1)
    && spans[n - k + 1] == Span(Mark(n, target) + 1, Mark(n, target) + target)
  }

  lemma LastPieces(n: nat, target: nat)
    requires 2 <= target
    ensures var m := Mark(n, target);
            Pieces([m + 1], m, m + target, target) == [Span(m, m + 1), Span(m + 1, m + target)]
  {
    var m := Mark(n, target);
    var breaks := [m + 1];
    assert breaks[1..] == [];
    assert BestBreak(breaks, m, m + target) == Some(m + 1);
    assert PieceEnd(breaks, m + 1, m + target, target) == m + target;
    assert Pieces(breaks, m + target, m + target, target) == [];
    assert Pieces(breaks, m + 1, m + target, target) == [Span(m + 1, m + target)];
  }

  lemma {:induction false} PiecesAreLaid(k: nat, n: nat, target: nat)
    requires 2 <= target && k <= n
    ensures var m := Mark(n, target);
            Laid(Pieces([m + 1], Mark(k, target), m + target, target), k, n, target)
    decreases n - k
  {
    var m := Mark(n, target);
    var breaks := [m + 1];
    LastPieces(n, target);
    if k < n {
      MarksGrow(k, n, target);
      MarksGrow(k + 1, n, target);
      assert breaks[1..] == [];
      assert PieceEnd(breaks, Mark(k, target), m + target, target) == Mark(k + 1, target);
      PiecesAreLaid(k + 1, n, target);
      var rest := Pieces(breaks, Mark(k + 1, target), m + target, target);
      LaidCons(rest, k, n, target);
    }
  }

  lemma LaidCons(rest: seq<Span>, k: nat, n: nat, target: nat)
    requires k < n && Laid(rest, k + 1, n, target)
    ensures Laid([Span(Mark(k, target), Mark(k + 1, target))] + rest, k, n, target)
  {
    var spans := [Span(Mark(k, target), Mark(k + 1, target))] + rest;
    forall i: nat | i < n - k ensures spans[i] == Span(Mark(k + i, target), Mark(k + i + 1, target)) {
      if i > 0 {
        assert spans[i] == rest[i - 1];
      }
    }
  }

  lemma OverflowingAtoms(target: nat, hardMax: nat)
    requires 2 <= target
    ensures Laid(AtomicSpans(Overflowing(target, hardMax), target), 0, hardMax + 1, target)
  {
    var n := hardMax + 1;
    var text, m := Overflowing(target, hardMax), Mark(n, target);
    OverflowingIsOneSentence(target, hardMax);
    NoBlankLine(text, 0);
    OneEnd(text, 0, |text|, m);
    var all := Span(0, |text|);
    assert Paragraphs(text, 0) == [all];
    assert Breakpoints(text, 0, |text|) == [m + 1];
    MarksGrow(0, n, target);
    PiecesAreLaid(0, n, target);
    ParagraphsOrdered(text, 0);
    assert SplitIfLong(text, all, target) == Pieces([m + 1], 0, m + target, target);
    OneParagraph(text, all, target);
  }

  lemma OneParagraph(text: string, all: Span, target: nat)
    requires 0 < target && all.start < all.end <= |text|
    ensures Atoms(text, [all], target) == SplitIfLong(text, all, target)
  {
    assert [all][1..] == [];
    assert Atoms(text, [], target) == [];
  }

  // The overlong chunk that ends the assembly.
  ghost predicate Overflows(chunks: seq<Span>, hardMax: nat) {
    |chunks| >= 2 && chunks[|chunks| - 1].end - chunks[|chunks| - 1].start > hardMax
  }

  // The chunks grow until they fill the ceiling; then a whole piece of new material in
  // two spans comes on top of the overlap.
  lemma {:induction false} AssembleOverflows(spans: seq<Span>, i: nat, n: nat, start: nat, target: nat, hardMax: nat,
                                             overlap: nat)
    requires Laid(spans, 0, n, target) && 0 < i <= n && hardMax < n
    requires 2 <= target && target + overlap > hardMax
    requires start <= Max(0, Mark(i, target) - hardMax)
    ensures Overflows(Assemble(spans, i, start, Mark(i - 1, target), Mark(i, target), target, hardMax, overlap), hardMax)
    decreases n - i
  {
    var m, prev := Mark(n, target), Span(start, Mark(i, target));
    var next := ChunkStart(Some(prev), spans[i], overlap, hardMax);
    MarksGrow(0, n, target);
    if i == n {
      var last := Span(next, m + target);
      assert Assemble(spans, n + 2, next, m, m + target, target, hardMax, overlap) == [last];
      assert Assemble(spans, n + 1, next, m, m + 1, target, hardMax, overlap) == [last];
      assert Assemble(spans, n, start, Mark(n - 1, target), m, target, hardMax, overlap) == [prev, last];
    } else {
      assert spans[i] == Span(Mark(0 + i, target), Mark(0 + i + 1, target));
      AssembleOverflows(spans, i + 1, n, next, target, hardMax, overlap);
    }
  }

  // Without room for target and overlap, and unless every span is one character, this
  // text of x's and one sentence end gets a chunk over the ceiling, whatever `minimum`.
  lemma CeilingNeedsRoom(target: nat, hardMax: nat, overlap: nat, minimum: nat)
    requires 2 <= target && target + overlap > hardMax
    ensures !UnderCeiling(ChunkSpans(Overflowing(target, hardMax), target, hardMax, overlap, minimum), hardMax)
  {
    var text := Overflowing(target, hardMax);
    var atoms := AtomicSpans(text, target);
    OverflowingAtoms(target, hardMax);
    assert atoms[0] == Span(Mark(0 + 0, target), Mark(0 + 0 + 1, target));
    assert Mark(0, target) == 0 && Mark(1, target) == target;
    var raw := RawChunks(atoms, target, hardMax, overlap);
    AssembleOverflows(atoms, 1, hardMax + 1, ChunkStart(None, atoms[0], overlap, hardMax), target, hardMax, overlap);
    RawIsSteady(text, target, hardMax, overlap);
    FinishKeepsOverflow(text, raw, hardMax, overlap, minimum);
  }

  // The tail is not merged: the merged chunk would be longer still.
  lemma FinishKeepsOverflow(text: string, raw: seq<Span>, hardMax: nat, overlap: nat, minimum: nat)
    requires Overflows(raw, hardMax) && Steady(raw, |text|, hardMax, overlap)
    ensures Finish(text, raw, hardMax, minimum) == raw && !UnderCeiling(raw, hardMax)
  {
    var n := |raw|;
    assert Follows(raw[n - 2], raw[n - 1], overlap, hardMax);
  }

  // The ceiling is absolute exactly when target and overlap leave room for each other
  // under it, as the defaults (1000 + 200 <= 1200) just do, or the target is a single
  // character.
  lemma CeilingHoldsIff(target: nat, hardMax: nat, overlap: nat, minimum: nat)
    requires 0 < target
    ensures (forall text: string :: UnderCeiling(ChunkSpans(text, target, hardMax, overlap, minimum), hardMax))
            <==> target == 1 || target + overlap <= hardMax
  {
    if target == 1 {
      forall text: string ensures UnderCeiling(ChunkSpans(text, target, hardMax, overlap, minimum), hardMax) {
        SinglesAreUnder(text, hardMax, overlap, minimum);
      }
    } else if target + overlap <= hardMax {
      forall text: string ensures UnderCeiling(ChunkSpans(text, target, hardMax, overlap, minimum), hardMax) {
        ChunksAreShort(text, target, hardMax, overlap, minimum);
      }
    } else {
      CeilingNeedsRoom(target, hardMax, overlap, minimum);
    }
  }

  // -- Nothing is lost --------------------------------------------------------------------

  // Unless there is no chunk, every character but whitespace lies in one.
  ghost predicate LosesNothing(text: string, target: nat, hardMax: nat, overlap: nat, minimum: nat)
    requires 0 < target
  {
    var chunks := ChunkSpans(text, target, hardMax, overlap, minimum);
    chunks != [] ==> forall k :: 0 <= k < |text| && !IsSpace(text[k]) ==> Inside(chunks, k)
  }

  lemma TwoPieces(target: nat)
    requires 0 < target
    ensures AtomicSpans(Xs(2 * target), target) == [Span(0, target), Span(target, 2 * target)]
  {
    var text := Xs(2 * target);
    var all := Span(0, |text|);
    NoBlankLine(text, 0);
    NoStopsNoEnds(text, 0, |text|);
    assert Paragraphs(text, 0) == [all] && Breakpoints(text, 0, |text|) == [];
    assert Pieces([], 2 * target, 2 * target, target) == [];
    assert Pieces([], target, 2 * target, target) == [Span(target, 2 * target)];
    ParagraphsOrdered(text, 0);
    OneParagraph(text, all, target);
  }

  // A first piece over the ceiling loses its beginning.
  lemma BeginningIsLost(target: nat, hardMax: nat, overlap: nat, minimum: nat)
    requires hardMax < target
    ensures !LosesNothing(Xs(2 * target), target, hardMax, overlap, minimum)
  {
    var text, atoms := Xs(2 * target), [Span(0, target), Span(target, 2 * target)];
    TwoPieces(target);
    RawIsSteady(text, target, hardMax, overlap);
    var raw := RawChunks(atoms, target, hardMax, overlap);
    var first := Span(target - hardMax, target);
    var next := ChunkStart(Some(first), atoms[1], overlap, hardMax);
    assert Assemble(atoms, 2, next, target, 2 * target, target, hardMax, overlap) == [Span(next, 2 * target)];
    assert raw == [first, Span(next, 2 * target)];
    assert Finish(text, raw, hardMax, minimum) == raw;
    assert !Inside(raw, 0);
  }

  // Nothing is lost from any text exactly when the target is within the ceiling.
  lemma NothingLostIff(target: nat, hardMax: nat, overlap: nat, minimum: nat)
    requires 0 < target
    ensures (forall text: string :: LosesNothing(text, target, hardMax, overlap, minimum)) <==> target <= hardMax
  {
    if target <= hardMax {
      forall text: string ensures LosesNothing(text, target, hardMax, overlap, minimum) {
        forall k | 0 <= k < |text| && !IsSpace(text[k])
          ensures var chunks := ChunkSpans(text, target, hardMax, overlap, minimum); chunks != [] ==> Inside(chunks, k)
        {
          NothingIsLost(text, target, hardMax, overlap, minimum, k);
        }
      }
    } else {
      BeginningIsLost(target, hardMax, overlap, minimum);
    }
  }
}
