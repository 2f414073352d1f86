// The offset-based chunker of documents.py: paragraph spans, sentence-bounded
// splitting of long ones, greedy assembly with overlap under a hard ceiling, and
// the tail merge.

module Chunker {
  import opened Common

  datatype Span = Span(start: nat, end: nat)

  const TARGET: nat := 1000
  const HARD_MAX: nat := 1200
  const OVERLAP: nat := 200
  const MINIMUM: nat := 50
  const ONE_CHUNK_FLOOR: nat := 20

  function Max(a: int, b: int): int {
    if a > b then a else b
  }

  function Min(a: int, b: int): int {
    if a < b then a else b
  }

  function Nonwhitespace(s: string): nat {
    if s == [] then 0 else (if IsSpace(s[0]) then 0 else 1) + Nonwhitespace(s[1..])
  }

  // -- \n\s*\n ----------------------------------------------------------------

  // Where the whitespace run from i ends.
  function SpaceEnd(text: string, i: nat, end: nat): (j: nat)
    requires i <= end <= |text|
    ensures i <= j <= end
    decreases end - i
  {
    if i < end && IsSpace(text[i]) then SpaceEnd(text, i + 1, end) else i
  }

  // The greedy \s* gives back characters until a newline follows.
  function AfterLastNewline(text: string, lo: nat, hi: nat): (r: Option<nat>)
    requires lo <= hi <= |text|
    ensures r.Some? ==> lo < r.value <= hi && text[r.value - 1] == '\n'
    ensures forall k :: (if r.Some? then r.value else lo) <= k < hi ==> text[k] != '\n'
    decreases hi - lo
  {
    if lo == hi then None
    else if text[hi - 1] == '\n' then Some(hi)
    else AfterLastNewline(text, lo, hi - 1)
  }

  // Where a match starting at i ends.
  function BlankLineAt(text: string, i: nat): (r: Option<nat>)
    requires i < |text|
    ensures r.Some? ==> i < r.value <= |text|
  {
    if text[i] == '\n' then AfterLastNewline(text, i + 1, SpaceEnd(text, i + 1, |text|)) else None
  }

  // The leftmost match from pos on.
  function NextBlankLine(text: string, pos: nat): (m: Option<Span>)
    requires pos <= |text|
    ensures m.Some? ==> pos <= m.value.start < m.value.end <= |text|
    decreases |text| - pos
  {
    if pos == |text| then None
    else
      var end := BlankLineAt(text, pos);
      if end.Some? then Some(Span(pos, end.value)) else NextBlankLine(text, pos + 1)
  }

  // The spans between the blank lines.
  function Paragraphs(text: string, pos: nat): seq<Span>
    requires pos <= |text|
    decreases |text| - pos
  {
    var m := NextBlankLine(text, pos);
    if m.None? then
      if pos < |text| then [Span(pos, |text|)] else []
    else
      (if m.value.start > pos then [Span(pos, m.value.start)] else []) + Paragraphs(text, m.value.end)
  }

  method ParagraphSpans(text: string) returns (spans: seq<Span>)
    ensures spans == Paragraphs(text, 0)
  {
    ghost var all := Paragraphs(text, 0);
    spans := [];
    var pos := 0;
    var m := NextBlankLine(text, 0);
    while m.Some?
      invariant pos <= |text| && m == NextBlankLine(text, pos)
      invariant spans + Paragraphs(text, pos) == all
      decreases |text| - pos
    {
      ghost var rest := Paragraphs(text, m.value.end);
      if m.value.start > pos {
        assert spans + ([Span(pos, m.value.start)] + rest) == (spans + [Span(pos, m.value.start)]) + rest;
        spans := spans + [Span(pos, m.value.start)];
      } else {
        assert [] + rest == rest;
      }
      pos := m.value.end;
      m := NextBlankLine(text, pos);
    }
    if pos < |text| {
      spans := spans + [Span(pos, |text|)];
    }
  }

  // -- [.!?]+\s+ --------------------------------------------------------------

  predicate IsStop(c: char) {
    c == '.' || c == '!' || c == '?'
  }

  function StopEnd(text: string, i: nat, end: nat): (j: nat)
    requires i <= end <= |text|
    ensures i <= j <= end
    decreases end - i
  {
    if i < end && IsStop(text[i]) then StopEnd(text, i + 1, end) else i
  }

  // The ends of all matches within text[pos..end], as absolute positions.
  function SentenceEnds(text: string, pos: nat, end: nat): (ends: seq<nat>)
    requires pos <= end <= |text|
    ensures forall i :: 0 <= i < |ends| ==> pos < ends[i] <= end
    decreases end - pos
  {
    if pos == end then []
    else if !IsStop(text[pos]) then SentenceEnds(text, pos + 1, end)
    else
      var stop := StopEnd(text, pos + 1, end);
      var space := SpaceEnd(text, stop, end);
      if space > stop then [space] + SentenceEnds(text, space, end) else SentenceEnds(text, stop, end)
  }

  // `start + m.end()`, although m.end() is already absolute.
  function Breakpoints(text: string, start: nat, end: nat): (breaks: seq<nat>)
    requires start <= end <= |text|
    ensures |breaks| == |SentenceEnds(text, start, end)|
  {
    var ends := SentenceEnds(text, start, end);
    seq(|ends|, i requires 0 <= i < |ends| => start + ends[i])
  }

  // The largest breakpoint in (pos, hi].
  function BestBreak(breaks: seq<nat>, pos: nat, hi: nat): (r: Option<nat>)
    ensures r.Some? ==> r.value in breaks && pos < r.value <= hi
    ensures forall i :: 0 <= i < |breaks| && pos < breaks[i] <= hi ==> r.Some? && breaks[i] <= r.value
  {
    if breaks == [] then None
    else
      var rest := BestBreak(breaks[1..], pos, hi);
      assert forall i :: 1 <= i < |breaks| ==> breaks[i] == breaks[1..][i - 1];
      if pos < breaks[0] <= hi && (rest.None? || rest.value < breaks[0]) then Some(breaks[0]) else rest
  }

  function PieceEnd(breaks: seq<nat>, pos: nat, end: nat, target: nat): nat {
    var best := BestBreak(breaks, pos, Min(pos + target, end));
    if best.Some? then best.value else Min(pos + target, end)
  }

  function Pieces(breaks: seq<nat>, pos: nat, end: nat, target: nat): seq<Span>
    requires 0 < target
    decreases end - pos
  {
    if pos >= end then []
    else
      var cut := PieceEnd(breaks, pos, end, target);
      [Span(pos, cut)] + Pieces(breaks, cut, end, target)
  }

  method SplitLongSpan(text: string, start: nat, end: nat, target: nat) returns (pieces: seq<Span>)
    requires start <= end <= |text| && 0 < target
    ensures pieces == Pieces(Breakpoints(text, start, end), start, end, target)
  {
    var breakpoints := Breakpoints(text, start, end);
    pieces := [];
    var pos := start;
    while pos < end
      invariant pieces + Pieces(breakpoints, pos, end, target) == Pieces(breakpoints, start, end, target)
      decreases end - pos
    {
      var cut := PieceEnd(breakpoints, pos, end, target);
      pieces := pieces + [Span(pos, cut)];
      pos := cut;
    }
  }

  function SplitIfLong(text: string, span: Span, target: nat): seq<Span>
    requires span.start <= span.end <= |text| && 0 < target
  {
    if span.end - span.start <= target then [span]
    else Pieces(Breakpoints(text, span.start, span.end), span.start, span.end, target)
  }

  // Spans that follow one another inside the text.
  ghost predicate Ordered(spans: seq<Span>, lo: nat, hi: nat) {
    && (forall i :: 0 <= i < |spans| ==> lo <= spans[i].start < spans[i].end <= hi)
    && (forall i :: 0 <= i < |spans| - 1 ==> spans[i].end <= spans[i + 1].start)
  }

  function Atoms(text: string, spans: seq<Span>, target: nat): seq<Span>
    requires Ordered(spans, 0, |text|) && 0 < target
  {
    if spans == [] then [] else SplitIfLong(text, spans[0], target) + Atoms(text, spans[1..], target)
  }

  // -- Assembly ---------------------------------------------------------------

  // `_start_new_chunk`: where a chunk whose first span is `span` begins.
  function ChunkStart(prev: Option<Span>, span: Span, overlap: nat, hardMax: nat): (start: nat)
  {
    var reach := if prev.Some? then Max(prev.value.start, prev.value.end - overlap) else span.start;
    Max(reach, span.end - hardMax)
  }

  // The chunks made of spans[i..] when one is open: it began at `start`, its new
  // material at `material`, and reaches `end` so far.
  function Assemble(spans: seq<Span>, i: nat, start: nat, material: nat, end: nat,
                    target: nat, hardMax: nat, overlap: nat): seq<Span>
    requires i <= |spans|
    decreases |spans| - i
  {
    if i == |spans| then [Span(start, end)]
    else if spans[i].end - material <= target then
      Assemble(spans, i + 1, start, material, spans[i].end, target, hardMax, overlap)
    else
      [Span(start, end)]
      + Assemble(spans, i + 1, ChunkStart(Some(Span(start, end)), spans[i], overlap, hardMax), end, spans[i].end,
                 target, hardMax, overlap)
  }

  function RawChunks(spans: seq<Span>, target: nat, hardMax: nat, overlap: nat): seq<Span>
    requires spans != []
  {
    Assemble(spans, 1, ChunkStart(None, spans[0], overlap, hardMax), spans[0].start, spans[0].end, target, hardMax, overlap)
  }

  ghost predicate Within(spans: seq<Span>, hi: nat) {
    forall i :: 0 <= i < |spans| ==> spans[i].start <= spans[i].end <= hi
  }

  function Text(text: string, span: Span): string
    requires span.start <= span.end <= |text|
  {
    text[span.start..span.end]
  }

  // The floor for a single chunk and the merge of a short tail.
  function Finish(text: string, raw: seq<Span>, hardMax: nat, minimum: nat): seq<Span>
    requires raw != [] && Within(raw, |text|)
  {
    var n := |raw|;
    if n == 1 then
      if Nonwhitespace(Text(text, raw[0])) >= ONE_CHUNK_FLOOR then raw else []
    else
      var prev, last := raw[n - 2], raw[n - 1];
      if Nonwhitespace(Text(text, last)) < minimum && last.end - prev.start <= hardMax
      then raw[..n - 2] + [Span(prev.start, last.end)]
      else raw
  }
}
