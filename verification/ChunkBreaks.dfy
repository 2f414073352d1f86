// Exactly when long paragraphs are cut at their sentence ends.

module ChunkBreaks {
  import opened Common
  import opened Chunker
  import opened ChunkerTheorems

  // Every piece of a span ends at the last sentence end in reach, and is cut hard only
  // when there is none.
  ghost predicate CutsWell(text: string, start: nat, end: nat, target: nat)
    requires start <= end <= |text| && 0 < target
  {
    forall piece <- Pieces(Breakpoints(text, start, end), start, end, target) ::
      WellCut(SentenceEnds(text, start, end), piece, end, target)
  }

  // -- When it holds -----------------------------------------------------------------

  lemma FirstSpanCutsWell(text: string, end: nat, target: nat)
    requires end <= |text| && 0 < target
    ensures CutsWell(text, 0, end, target)
  {
    BreakpointsAreShifted(text, 0, end);
    forall piece | piece in Pieces(Breakpoints(text, 0, end), 0, end, target)
      ensures WellCut(SentenceEnds(text, 0, end), piece, end, target)
    {
      PiecesWellCut(Breakpoints(text, 0, end), 0, end, target, piece);
    }
  }

  // Pieces of one character end where any sentence end in reach is.
  lemma SinglesCutWell(text: string, start: nat, end: nat)
    requires start <= end <= |text|
    ensures CutsWell(text, start, end, 1)
  {
    var breaks := Breakpoints(text, start, end);
    PiecesTile(breaks, start, end, 1);
    TilesOrdered(Pieces(breaks, start, end, 1), start, end, 1);
  }

  lemma {:induction false} EndsAreLate(text: string, pos: nat, end: nat)
    requires pos <= end <= |text|
    ensures forall e <- SentenceEnds(text, pos, end) :: pos + 2 <= e
    decreases end - pos
  {
    if pos < end {
      if !IsStop(text[pos]) {
        EndsAreLate(text, pos + 1, end);
      } else {
        var stop := StopEnd(text, pos + 1, end);
        var space := SpaceEnd(text, stop, end);
        EndsAreLate(text, if space > stop then space else stop, end);
      }
    }
  }

  // Three characters, two at a time: the one cut between them is where it would be.
  lemma ThreeByTwoCutWell(text: string, start: nat)
    requires 0 < start && start + 3 <= |text|
    ensures CutsWell(text, start, start + 3, 2)
  {
    var end, ends, breaks := start + 3, SentenceEnds(text, start, start + 3), Breakpoints(text, start, start + 3);
    EndsAreLate(text, start, end);
    forall i | 0 <= i < |breaks| ensures breaks[i] >= 2 * start + 2 {
      assert ends[i] in ends;
    }
    assert PieceEnd(breaks, start, end, 2) == start + 2;
    assert PieceEnd(breaks, start + 2, end, 2) == end;
    assert Pieces(breaks, end, end, 2) == [];
    assert Pieces(breaks, start + 2, end, 2) == [Span(start + 2, end)];
    assert Pieces(breaks, start, end, 2) == [Span(start, start + 2), Span(start + 2, end)];
    forall i | 0 <= i < |ends| ensures start + 2 <= ends[i] {
      assert ends[i] in ends;
    }
  }

  // -- When it fails -----------------------------------------------------------------

  // Where the sentence that is cut ends: two characters on, or three when the pieces are
  // of two characters.
  function EndOf(start: nat, target: nat): nat {
    start + if target == 2 then 3 else 2
  }

  // The piece in which that end lies.
  function MidWord(start: nat, target: nat): Span {
    if target == 2 then Span(start + 2, start + 4)
    else Span(start, if 2 * start + 2 <= start + target then 2 * start + 2 else start + target)
  }

  lemma IsCutMidWord(text: string, start: nat, end: nat, target: nat)
    requires 0 < start && 2 <= target && start + target < end <= |text| && (target == 2 ==> start + 4 <= end)
    requires OneSentence(text, start, end, EndOf(start, target) - 1)
    ensures MidWord(start, target) in Pieces(Breakpoints(text, start, end), start, end, target)
    ensures !WellCut(SentenceEnds(text, start, end), MidWord(start, target), end, target)
  {
    var e, breaks := EndOf(start, target), Breakpoints(text, start, end);
    OneEnd(text, start, end, e - 1);
    assert breaks == [start + e] && breaks[1..] == [];
    assert SentenceEnds(text, start, end)[0] == e;
    if target == 2 {
      assert PieceEnd(breaks, start, end, 2) == start + 2;
      assert PieceEnd(breaks, start + 2, end, 2) == start + 4;
      assert Pieces(breaks, start, end, 2)[1..] == Pieces(breaks, start + 2, end, 2);
      assert Pieces(breaks, start + 2, end, 2)[0] == MidWord(start, 2);
    } else {
      assert PieceEnd(breaks, start, end, target) == MidWord(start, target).end;
      assert Pieces(breaks, start, end, target)[0] == MidWord(start, target);
    }
  }

  function Dotted(n: nat, m: nat): (text: string)
    requires 0 < m < n
    ensures |text| == n && text[m - 1] == '.' && text[m] == ' '
    ensures forall k :: 0 <= k < n && k != m - 1 && k != m ==> text[k] == 'x'
  {
    seq(n, k => if k == m - 1 then '.' else if k == m then ' ' else 'x')
  }

  // A span longer than the target is cut at its sentence ends in every text exactly when
  // it begins the text, the pieces are of one character, or three characters are cut in
  // two.
  lemma CutsWellIff(start: nat, end: nat, target: nat)
    requires 0 < target && start + target < end
    ensures (forall text: string :: end <= |text| ==> CutsWell(text, start, end, target))
            <==> start == 0 || target == 1 || (target == 2 && end == start + 3)
  {
    if start == 0 || target == 1 || (target == 2 && end == start + 3) {
      forall text: string | end <= |text| ensures CutsWell(text, start, end, target) {
        if start == 0 {
          FirstSpanCutsWell(text, end, target);
        } else if target == 1 {
          SinglesCutWell(text, start, end);
        } else {
          ThreeByTwoCutWell(text, start);
        }
      }
    } else {
      var m := EndOf(start, target) - 1;
      IsCutMidWord(Dotted(end, m), start, end, target);
      assert !CutsWell(Dotted(end, m), start, end, target);
    }
  }

  // -- In whole texts -----------------------------------------------------------------

  ghost predicate CutsAtSentences(text: string, target: nat)
    requires 0 < target
  {
    forall span <- Paragraphs(text, 0) ::
      span.start <= span.end <= |text| && (span.end - span.start > target ==> CutsWell(text, span.start, span.end, target))
  }

  // A one-letter paragraph, a blank line, and a paragraph with one sentence end.
  function LaterText(target: nat): (text: string)
    requires 2 <= target
    ensures |text| == target + 6
  {
    "x\n\n" + Dotted(target + 3, EndOf(0, target) - 1)
  }

  lemma LaterParagraphs(target: nat)
    requires 2 <= target
    ensures var text := LaterText(target);
            && OneSentence(text, 3, |text|, EndOf(3, target) - 1)
            && Paragraphs(text, 0) == [Span(0, 1), Span(3, |text|)]
  {
    var text := LaterText(target);
    assert text[0] == 'x' && text[1] == '\n' && text[2] == '\n';
    assert OneSentence(text, 3, |text|, EndOf(3, target) - 1);
    NoBlankLine(text, 3);
    assert SpaceEnd(text, 3, |text|) == 3 && SpaceEnd(text, 2, |text|) == 3;
    assert BlankLineAt(text, 1) == Some(3);
    assert NextBlankLine(text, 1) == Some(Span(1, 3)) && NextBlankLine(text, 0) == Some(Span(1, 3));
    assert Paragraphs(text, 3) == [Span(3, |text|)];
  }

  // In this text the second paragraph is cut inside a word although a sentence end is in
  // reach, and the piece is one of the spans chunks are made of.
  lemma LaterParagraphCutMidWord(target: nat)
    requires 2 <= target
    ensures var text, piece := LaterText(target), MidWord(3, target);
            && Span(3, |text|) in Paragraphs(text, 0) && piece in AtomicSpans(text, target)
            && piece in Pieces(Breakpoints(text, 3, |text|), 3, |text|, target)
            && !WellCut(SentenceEnds(text, 3, |text|), piece, |text|, target)
  {
    var text := LaterText(target);
    LaterParagraphs(target);
    IsCutMidWord(text, 3, |text|, target);
    ParagraphsOrdered(text, 0);
    var first, second := Span(0, 1), Span(3, |text|);
    assert [first, second][1..] == [second] && [second][1..] == [];
    assert Atoms(text, [second], target) == SplitIfLong(text, second, target) + [];
    assert Atoms(text, [first, second], target) == [first] + Atoms(text, [second], target);
  }

  // So for whole texts the rule holds exactly when pieces are of one character.
  lemma SentenceCutsIff(target: nat)
    requires 0 < target
    ensures (forall text: string :: CutsAtSentences(text, target)) <==> target == 1
  {
    if target == 1 {
      forall text: string ensures CutsAtSentences(text, 1) {
        ParagraphsOrdered(text, 0);
        forall span | span in Paragraphs(text, 0) && span.end - span.start > 1
          ensures span.start <= span.end <= |text| && CutsWell(text, span.start, span.end, 1)
        {
          SinglesCutWell(text, span.start, span.end);
        }
      }
    } else {
      LaterParagraphCutMidWord(target);
      assert !CutsAtSentences(LaterText(target), target);
    }
  }
}
