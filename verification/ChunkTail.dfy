// What the chunker does at the end of a text: when it yields no chunk at all, and when a
// short tail is merged into the chunk before it.

module ChunkTail {
  import opened Common
  import opened Chunker
  import opened ChunkerTheorems

  lemma {:induction false} NonwhitespaceAppend(a: string, b: string)
    ensures Nonwhitespace(a + b) == Nonwhitespace(a) + Nonwhitespace(b)
  {
    if a == [] {
      assert a + b == b;
    } else {
      NonwhitespaceAppend(a[1..], b);
      assert (a + b)[1..] == a[1..] + b && (a + b)[0] == a[0];
    }
  }

  lemma {:induction false} AllSpace(s: string)
    requires forall k :: 0 <= k < |s| ==> IsSpace(s[k])
    ensures Nonwhitespace(s) == 0
  {
    if s != [] {
      AllSpace(s[1..]);
    }
  }

  lemma OnlyInside(text: string, lo: nat, hi: nat)
    requires lo <= hi <= |text| && forall k :: 0 <= k < |text| && !(lo <= k < hi) ==> IsSpace(text[k])
    ensures Nonwhitespace(text) == Nonwhitespace(text[lo..hi])
  {
    AllSpace(text[..lo]);
    AllSpace(text[hi..]);
    NonwhitespaceAppend(text[..lo], text[lo..hi]);
    NonwhitespaceAppend(text[..hi], text[hi..]);
    assert text == text[..hi] + text[hi..] && text[..hi] == text[..lo] + text[lo..hi];
  }

  // From the first atomic span to the last.
  ghost predicate FitsOne(atoms: seq<Span>, target: nat) {
    atoms != [] ==> atoms[|atoms| - 1].end - atoms[0].start <= target
  }

  lemma {:induction false} AtomEndsGrow(atoms: seq<Span>, hi: nat, target: nat, i: nat, j: nat)
    requires GoodAtoms(atoms, hi, target) && i <= j < |atoms|
    ensures atoms[i].end <= atoms[j].end
    decreases j
  {
    if i < j {
      AtomEndsGrow(atoms, hi, target, i, j - 1);
    }
  }

  // One chunk is made exactly when no span ends past the target from where it began.
  lemma {:induction false} OneChunkIff(atoms: seq<Span>, i: nat, start: nat, material: nat, end: nat, hi: nat,
                                       target: nat, hardMax: nat, overlap: nat)
    requires GoodAtoms(atoms, hi, target) && 0 < i <= |atoms| && end == atoms[i - 1].end && end - material <= target
    ensures var chunks := Assemble(atoms, i, start, material, end, target, hardMax, overlap);
            && chunks != []
            && (|chunks| == 1 <==> atoms[|atoms| - 1].end - material <= target)
            && (|chunks| == 1 ==> chunks[0] == Span(start, atoms[|atoms| - 1].end))
    decreases |atoms| - i
  {
    if i < |atoms| {
      AtomEndsGrow(atoms, hi, target, i, |atoms| - 1);
      if atoms[i].end - material <= target {
        OneChunkIff(atoms, i + 1, start, material, atoms[i].end, hi, target, hardMax, overlap);
      } else {
        RestIsChunk(atoms, i + 1, ChunkStart(Some(Span(start, end)), atoms[i], overlap, hardMax), end, atoms[i].end,
                    target, hardMax, overlap);
      }
    }
  }

  lemma {:induction false} RestIsChunk(atoms: seq<Span>, i: nat, start: nat, material: nat, end: nat,
                                       target: nat, hardMax: nat, overlap: nat)
    requires i <= |atoms|
    ensures Assemble(atoms, i, start, material, end, target, hardMax, overlap) != []
    decreases |atoms| - i
  {
    if i < |atoms| && atoms[i].end - material <= target {
      RestIsChunk(atoms, i + 1, start, material, atoms[i].end, target, hardMax, overlap);
    }
  }

  lemma AtomsHoldAll(text: string, target: nat, k: nat)
    requires 0 < target && k < |text| && !IsSpace(text[k])
    ensures var atoms := AtomicSpans(text, target);
            atoms != [] && atoms[0].start <= k < atoms[|atoms| - 1].end <= |text|
  {
    ParagraphsOrdered(text, 0);
    ParagraphsCover(text, 0, k);
    AtomsCover(text, Paragraphs(text, 0), 0, target, k);
    var atoms := AtomicSpans(text, target);
    AtomsAreGood(text, target);
    var j :| 0 <= j < |atoms| && atoms[j].start <= k < atoms[j].end;
    AtomEndsGrow(atoms, |text|, target, j, |atoms| - 1);
    AtomEndsGrow(atoms, |text|, target, 0, j);
    assert j > 0 ==> atoms[0].end <= atoms[j].start by {
      if j > 0 {
        AtomEndsGrow(atoms, |text|, target, 0, j - 1);
      }
    }
  }

  lemma AllInExtent(text: string, target: nat)
    requires 0 < target && AtomicSpans(text, target) != []
    ensures var atoms := AtomicSpans(text, target);
            && atoms[0].start <= atoms[|atoms| - 1].end <= |text|
            && Nonwhitespace(text) == Nonwhitespace(text[atoms[0].start..atoms[|atoms| - 1].end])
  {
    var atoms := AtomicSpans(text, target);
    AtomsAreGood(text, target);
    AtomEndsGrow(atoms, |text|, target, 0, |atoms| - 1);
    var lo, hi := atoms[0].start, atoms[|atoms| - 1].end;
    forall k | 0 <= k < |text| && !(lo <= k < hi) ensures IsSpace(text[k]) {
      if !IsSpace(text[k]) {
        AtomsHoldAll(text, target, k);
        assert false;
      }
    }
    OnlyInside(text, lo, hi);
  }

  lemma BlankHasNone(text: string, target: nat)
    requires 0 < target && AtomicSpans(text, target) == []
    ensures Nonwhitespace(text) == 0
  {
    forall k | 0 <= k < |text| ensures IsSpace(text[k]) {
      if !IsSpace(text[k]) {
        AtomsHoldAll(text, target, k);
        assert false;
      }
    }
    AllSpace(text);
  }

  // A text yields no chunk exactly when it has fewer than twenty non-whitespace characters
  // and its spans fit one chunk; so a text no longer than the target, exactly when it has
  // fewer than twenty.
  lemma NoChunkIff(text: string, target: nat, hardMax: nat, overlap: nat, minimum: nat)
    requires 0 < target <= hardMax
    ensures ChunkSpans(text, target, hardMax, overlap, minimum) == []
            <==> Nonwhitespace(text) < ONE_CHUNK_FLOOR && FitsOne(AtomicSpans(text, target), target)
    ensures |text| <= target ==>
              (ChunkSpans(text, target, hardMax, overlap, minimum) == [] <==> Nonwhitespace(text) < ONE_CHUNK_FLOOR)
  {
    var atoms := AtomicSpans(text, target);
    if atoms == [] {
      BlankHasNone(text, target);
    } else {
      AtomsAreGood(text, target);
      RawIsSteady(text, target, hardMax, overlap);
      OneChunkIff(atoms, 1, ChunkStart(None, atoms[0], overlap, hardMax), atoms[0].start, atoms[0].end, |text|,
                  target, hardMax, overlap);
      AllInExtent(text, target);
      FinishIsEmptyIff(text, RawChunks(atoms, target, hardMax, overlap), hardMax, minimum);
    }
  }

  lemma FinishIsEmptyIff(text: string, raw: seq<Span>, hardMax: nat, minimum: nat)
    requires raw != [] && Within(raw, |text|)
    ensures Finish(text, raw, hardMax, minimum) == []
            <==> |raw| == 1 && Nonwhitespace(text[raw[0].start..raw[0].end]) < ONE_CHUNK_FLOOR
  {
  }

  // The chunks of a text, before and after the tail is looked at: the tail goes into the
  // chunk before it exactly when it is short and the two fit under the ceiling together;
  // what comes before is untouched.
  lemma ShortTailIsMerged(text: string, target: nat, hardMax: nat, overlap: nat, minimum: nat)
    requires 0 < target && AtomicSpans(text, target) != []
    ensures var raw := RawChunks(AtomicSpans(text, target), target, hardMax, overlap);
            var chunks := ChunkSpans(text, target, hardMax, overlap, minimum);
            |raw| > 1 && Within(raw, |text|) ==>
              && var n := |raw|; var tail := raw[n - 1];
              && chunks != [] && chunks[|chunks| - 1].end == tail.end
              && raw[..n - 2] <= chunks
              && (|chunks| < n <==>
                    Nonwhitespace(text[tail.start..tail.end]) < minimum && tail.end - raw[n - 2].start <= hardMax)
              && (|chunks| < n <==> chunks[|chunks| - 1].start == raw[n - 2].start && |chunks| == n - 1)
              && (|chunks| == n ==> chunks == raw)
  {
    RawIsSteady(text, target, hardMax, overlap);
  }
}
