// The head and tail windows, the marker between them, and what survives.

module CompactionWindow {
  import opened Common
  import opened Compaction
  import opened TextLines
  import Decimal
  import R = Redaction

  // -- Windows ------------------------------------------------------------------

  // How many of the first n lines fit the budget.
  function PrefixWithin(lines: seq<string>, n: nat, budget: nat, h: nat): (r: nat)
    requires h <= n <= |lines| && Cost(lines, 0, h) <= budget
    ensures h <= r <= n && Cost(lines, 0, r) <= budget
    ensures r < n ==> Cost(lines, 0, r + 1) > budget
    decreases n - h
  {
    if h == n || Cost(lines, 0, h + 1) > budget then h else PrefixWithin(lines, n, budget, h + 1)
  }

  // Where the longest tail that fits the budget begins, not before `from`.
  function SuffixWithin(lines: seq<string>, from: nat, budget: nat, s: nat): (r: nat)
    requires from <= s <= |lines| && Cost(lines, s, |lines|) <= budget
    ensures from <= r <= s && Cost(lines, r, |lines|) <= budget
    ensures r > from ==> Cost(lines, r - 1, |lines|) > budget
    decreases s - from
  {
    if s == from || Cost(lines, s - 1, |lines|) > budget then s else SuffixWithin(lines, from, budget, s - 1)
  }

  lemma {:induction false} CostShrinks(lines: seq<string>, a: nat, b: nat, n: nat)
    requires a <= b <= n <= |lines|
    ensures Cost(lines, b, n) <= Cost(lines, a, n)
  {
    CostSplits(lines, a, b, n);
  }

  method PrefixLines(lines: seq<string>, n: nat, budget: nat) returns (h: nat)
    requires n <= |lines|
    ensures h == PrefixWithin(lines, n, budget, 0)
  {
    var taken := 0;
    h := 0;
    while h < n
      invariant h <= n && taken == Cost(lines, 0, h) <= budget
      invariant PrefixWithin(lines, n, budget, 0) == PrefixWithin(lines, n, budget, h)
    {
      taken := taken + |lines[h]| + 1;
      if taken > budget {
        return;
      }
      h := h + 1;
    }
  }

  lemma {:induction false} CostFromFront(lines: seq<string>, from: nat, upTo: nat)
    requires from < upTo <= |lines|
    ensures Cost(lines, from, upTo) == |lines[from]| + 1 + Cost(lines, from + 1, upTo)
  {
    CostSplits(lines, from, from + 1, upTo);
  }

  method SuffixLines(lines: seq<string>, from: nat, budget: nat) returns (s: nat)
    requires from <= |lines|
    ensures s == SuffixWithin(lines, from, budget, |lines|)
  {
    var taken := 0;
    s := |lines|;
    while s > from
      invariant from <= s <= |lines| && taken == Cost(lines, s, |lines|) <= budget
      invariant SuffixWithin(lines, from, budget, |lines|) == SuffixWithin(lines, from, budget, s)
    {
      CostFromFront(lines, s - 1, |lines|);
      taken := taken + |lines[s - 1]| + 1;
      if taken > budget {
        return;
      }
      s := s - 1;
    }
  }

  lemma {:induction false} SuffixIsFirstThatFits(lines: seq<string>, from: nat, budget: nat, s: nat, r: nat)
    requires from <= r <= s <= |lines| && Cost(lines, s, |lines|) <= budget
    requires Cost(lines, r, |lines|) <= budget && (r > from ==> Cost(lines, r - 1, |lines|) > budget)
    ensures SuffixWithin(lines, from, budget, s) == r
    decreases s - from
  {
    if r < s {
      CostShrinks(lines, r, s - 1, |lines|);
      SuffixIsFirstThatFits(lines, from, budget, s - 1, r);
    }
  }

  // The tail reaches back to line i exactly when the lines from i on fit.
  lemma SuffixReachesIff(lines: seq<string>, from: nat, budget: nat, i: nat)
    requires from <= i <= |lines|
    ensures SuffixWithin(lines, from, budget, |lines|) <= i <==> Cost(lines, i, |lines|) <= budget
  {
    var r := SuffixWithin(lines, from, budget, |lines|);
    if r <= i {
      CostShrinks(lines, r, i, |lines|);
    } else {
      CostShrinks(lines, i, r - 1, |lines|);
    }
  }

  // The re-anchored tail is found from the other side, by dropping lines from the
  // front while it costs too much.
  method PopUntilFits(lines: seq<string>, start: nat, budget: nat) returns (s: nat)
    requires start <= |lines|
    ensures s == SuffixWithin(lines, start, budget, |lines|)
  {
    s := start;
    while s < |lines| && Cost(lines, s, |lines|) > budget
      invariant start <= s <= |lines|
      invariant s > start ==> Cost(lines, s - 1, |lines|) > budget
    {
      s := s + 1;
    }
    SuffixIsFirstThatFits(lines, start, budget, |lines|, s);
  }

  function LastError(lines: seq<string>, isError: string -> bool, n: nat): (r: Option<nat>)
    requires n <= |lines|
    ensures r.Some? ==> r.value < n && isError(lines[r.value]) && forall i :: r.value < i < n ==> !isError(lines[i])
    ensures r.None? ==> forall i :: 0 <= i < n ==> !isError(lines[i])
  {
    if n == 0 then None else if isError(lines[n - 1]) then Some(n - 1) else LastError(lines, isError, n - 1)
  }

  // The kept head is lines[..head], the kept tail lines[tail..].
  datatype Window = Window(head: nat, tail: nat)

  function HeadBudget(maxChars: nat): nat {
    if maxChars < MARKER_RESERVE then 0 else (maxChars - MARKER_RESERVE) * 40 / 100
  }

  function Budget(maxChars: nat): (b: nat)
    ensures HeadBudget(maxChars) <= b
  {
    if maxChars < MARKER_RESERVE then 0 else maxChars - MARKER_RESERVE
  }

  function PlainWindow(lines: seq<string>, maxChars: nat): (w: Window)
    ensures w.head <= w.tail <= |lines|
  {
    var head := PrefixWithin(lines, |lines|, HeadBudget(maxChars), 0);
    Window(head, SuffixWithin(lines, head, Budget(maxChars) - HeadBudget(maxChars), |lines|))
  }

  function ErrorStart(anchor: nat): nat {
    if anchor < ERROR_CONTEXT_LINES then 0 else anchor - ERROR_CONTEXT_LINES
  }

  function AnchoredWindow(lines: seq<string>, maxChars: nat, anchor: nat): (w: Window)
    requires anchor < |lines|
    ensures w.head <= ErrorStart(anchor) <= w.tail <= |lines|
  {
    var start, budget := ErrorStart(anchor), Budget(maxChars);
    var tail := SuffixWithin(lines, start, budget, |lines|);
    Window(PrefixWithin(lines, start, budget - Cost(lines, tail, |lines|), 0), tail)
  }

  function Anchor(lines: seq<string>, isError: string -> bool, errorContext: bool): (r: Option<nat>)
    ensures r.Some? ==> r.value < |lines| && isError(lines[r.value])
  {
    if errorContext then LastError(lines, isError, |lines|) else None
  }

  function Chosen(lines: seq<string>, maxChars: nat, isError: string -> bool, errorContext: bool): (w: Window)
    ensures w.head <= w.tail <= |lines|
  {
    var plain, anchor := PlainWindow(lines, maxChars), Anchor(lines, isError, errorContext);
    if anchor.Some? && plain.head <= anchor.value < plain.tail then AnchoredWindow(lines, maxChars, anchor.value)
    else plain
  }

  // -- The output ---------------------------------------------------------------

  function Marker(chars: nat, count: nat): string {
    "[… " + Decimal.Render(chars) + " chars / " + Decimal.Render(count) + " lines omitted …]"
  }

  function Omitted(lines: seq<string>, w: Window): seq<string>
    requires w.head <= w.tail <= |lines|
  {
    lines[w.head..w.tail]
  }

  function MarkerOf(lines: seq<string>, w: Window): string
    requires w.head <= w.tail <= |lines|
  {
    Marker(|Join(Omitted(lines, w))|, |Omitted(lines, w)|)
  }

  function Pieces(secrets: set<string>, lines: seq<string>, w: Window): seq<string>
    requires w.head <= w.tail <= |lines|
  {
    (if w.head > 0 then [R.StripFragment(secrets, Join(lines[..w.head]))] else [])
      + [MarkerOf(lines, w)] + lines[w.tail..]
  }

  // `collapsed` are the lines after duplicate runs have collapsed.
  function Compact(collapsed: seq<string>, maxChars: nat, isError: string -> bool, errorContext: bool,
                   secrets: set<string>): string
    requires maxChars >= MIN_OUTPUT_CHARS
  {
    var text := Join(collapsed);
    if |text| <= maxChars then text
    else Around(collapsed, Chosen(collapsed, maxChars, isError, errorContext), maxChars, secrets)
  }

  // The marker between the kept lines or, when no whole line is kept, inline
  // between the two ends of the text.
  function Around(lines: seq<string>, w: Window, maxChars: nat, secrets: set<string>): string
    requires w.head <= w.tail <= |lines| && Budget(maxChars) <= |Join(lines)|
  {
    if w.head > 0 || w.tail < |lines| then R.StripFragment(secrets, Join(Pieces(secrets, lines, w)))
    else
      var text, headBudget := Join(lines), HeadBudget(maxChars);
      var headPart := R.StripFragment(secrets, text[..headBudget]);
      R.StripFragment(secrets, headPart + MarkerOf(lines, w) + text[|text| - (Budget(maxChars) - headBudget)..])
  }

  // `text` has its escape sequences already removed.
  method CompactOutput(text: string, maxChars: nat, isError: string -> bool, errorContext: bool,
                       secrets: set<string>)
    returns (result: string)
    requires maxChars >= MIN_OUTPUT_CHARS
    ensures result == Compact(RenderAll(RunsOf(Split(text))), maxChars, isError, errorContext, secrets)
  {
    var collapsed := CollapseDuplicateLines(Split(text));
    result := Join(collapsed);
    if |result| > maxChars {
      var w := ChooseWindow(collapsed, maxChars, isError, errorContext);
      result := Around(collapsed, w, maxChars, secrets);
    }
  }

  method ChooseWindow(collapsed: seq<string>, maxChars: nat, isError: string -> bool, errorContext: bool)
    returns (w: Window)
    requires maxChars >= MIN_OUTPUT_CHARS
    ensures w == Chosen(collapsed, maxChars, isError, errorContext)
  {
    var head := PrefixLines(collapsed, |collapsed|, HeadBudget(maxChars));
    var tail := SuffixLines(collapsed, head, Budget(maxChars) - HeadBudget(maxChars));
    w := Window(head, tail);
    var anchor := if errorContext then LastError(collapsed, isError, |collapsed|) else None;
    if anchor.Some? && head <= anchor.value < tail {
      w := Reanchor(collapsed, maxChars, anchor.value);
    }
  }

  method Reanchor(collapsed: seq<string>, maxChars: nat, anchor: nat) returns (w: Window)
    requires anchor < |collapsed|
    ensures w == AnchoredWindow(collapsed, maxChars, anchor)
  {
    var start := ErrorStart(anchor);
    var tail := PopUntilFits(collapsed, start, Budget(maxChars));
    var head := PrefixLines(collapsed, start, Budget(maxChars) - Cost(collapsed, tail, |collapsed|));
    w := Window(head, tail);
  }

  // -- Size -----------------------------------------------------------------------

  lemma WindowFits(lines: seq<string>, maxChars: nat, isError: string -> bool, errorContext: bool)
    ensures var w := Chosen(lines, maxChars, isError, errorContext);
            Cost(lines, 0, w.head) + Cost(lines, w.tail, |lines|) <= Budget(maxChars)
  {
  }

  lemma HeadCost(secrets: set<string>, lines: seq<string>, h: nat)
    requires 0 < h <= |lines|
    ensures |R.StripFragment(secrets, Join(lines[..h]))| + 1 <= Cost(lines, 0, h)
  {
    JoinLength(lines[..h]);
    CostOfPrefix(lines[..h], lines, h);
  }

  lemma TailCost(lines: seq<string>, t: nat)
    requires t <= |lines|
    ensures Cost(lines[t..], 0, |lines[t..]|) == Cost(lines, t, |lines|)
  {
    assert lines[t..|lines|] == lines[t..];
    CostOfSlice(lines, t, |lines|);
  }

  lemma PiecesLength(secrets: set<string>, lines: seq<string>, w: Window)
    requires w.head <= w.tail <= |lines|
    ensures |Join(Pieces(secrets, lines, w))| <=
            Cost(lines, 0, w.head) + |MarkerOf(lines, w)| + Cost(lines, w.tail, |lines|)
  {
    TailCost(lines, w.tail);
    if w.head > 0 {
      var head := R.StripFragment(secrets, Join(lines[..w.head]));
      HeadCost(secrets, lines, w.head);
      assert Cost([head], 0, 1) == |head| + 1;
      ThreeParts([head], MarkerOf(lines, w), lines[w.tail..]);
    } else {
      ThreeParts([], MarkerOf(lines, w), lines[w.tail..]);
    }
  }

  lemma ThreeParts(head: seq<string>, marker: string, tail: seq<string>)
    ensures |Join(head + [marker] + tail)| == Cost(head, 0, |head|) + |marker| + Cost(tail, 0, |tail|)
  {
    CostOfAppend(head, [marker]);
    CostOfAppend(head + [marker], tail);
    assert Cost([marker], 0, 1) == |marker| + 1;
    JoinLength(head + [marker] + tail);
  }

  // The output is at most the limit plus whatever the marker takes beyond the fifty
  // characters reserved for it: nothing, while its two counts have at most 21
  // digits between them.
  lemma OutputFits(collapsed: seq<string>, maxChars: nat, isError: string -> bool, errorContext: bool,
                   secrets: set<string>)
    requires maxChars >= MIN_OUTPUT_CHARS
    requires var w := Chosen(collapsed, maxChars, isError, errorContext);
             |Decimal.Render(|Join(Omitted(collapsed, w))|)| + |Decimal.Render(|Omitted(collapsed, w)|)| <= 21
    ensures |Compact(collapsed, maxChars, isError, errorContext, secrets)| <= maxChars
  {
    var w := Chosen(collapsed, maxChars, isError, errorContext);
    assert |MarkerOf(collapsed, w)| <= MARKER_RESERVE;
    WindowFits(collapsed, maxChars, isError, errorContext);
    PiecesLength(secrets, collapsed, w);
  }

  lemma OmittedIsSmall(lines: seq<string>, w: Window)
    requires lines != [] && w.head <= w.tail <= |lines|
    ensures |Join(Omitted(lines, w))| <= |Join(lines)| + 1 && |Omitted(lines, w)| <= |Join(lines)| + 1
  {
    CostSplits(lines, 0, w.head, |lines|);
    CostSplits(lines, w.head, w.tail, |lines|);
    CostOfSlice(lines, w.head, w.tail);
    JoinLength(lines);
    ManyCosts(Omitted(lines, w), |Omitted(lines, w)|);
    if Omitted(lines, w) != [] {
      JoinLength(Omitted(lines, w));
    }
  }

  lemma {:induction false} ManyCosts(lines: seq<string>, n: nat)
    requires n <= |lines|
    ensures n <= Cost(lines, 0, n)
  {
    if n > 0 {
      ManyCosts(lines, n - 1);
    }
  }

  // -- What the window keeps ----------------------------------------------------------

  ghost predicate Kept(w: Window, i: nat) {
    i < w.head || i >= w.tail
  }

  // With error context the last error line is in the window exactly when it already lies
  // in the plain head, or the lines from it to the end fit the whole budget.
  lemma ErrorLineKeptIff(lines: seq<string>, maxChars: nat, isError: string -> bool)
    requires LastError(lines, isError, |lines|).Some?
    ensures var anchor := LastError(lines, isError, |lines|).value;
            Kept(Chosen(lines, maxChars, isError, true), anchor)
            <==> anchor < PlainWindow(lines, maxChars).head || Cost(lines, anchor, |lines|) <= Budget(maxChars)
  {
    var anchor := LastError(lines, isError, |lines|).value;
    var plain := PlainWindow(lines, maxChars);
    if anchor >= plain.tail {
      CostShrinks(lines, plain.tail, anchor, |lines|);
    } else if anchor >= plain.head {
      SuffixReachesIff(lines, ErrorStart(anchor), Budget(maxChars), anchor);
    }
  }

  // The error line and the twenty lines before it.
  ghost predicate ContextKept(w: Window, anchor: nat) {
    forall i :: ErrorStart(anchor) <= i <= anchor ==> Kept(w, i)
  }

  // The room its context has: the plain tail's when the error line lies in it, since the
  // window is then not moved, and the whole budget otherwise.
  function ContextBudget(lines: seq<string>, maxChars: nat, anchor: nat): nat {
    if anchor >= PlainWindow(lines, maxChars).tail then Budget(maxChars) - HeadBudget(maxChars) else Budget(maxChars)
  }

  // Of a text that is cut, the error line and its twenty lines of context are all in the
  // window exactly when it lies in the plain head or they fit that room.
  lemma ContextKeptIff(lines: seq<string>, maxChars: nat, isError: string -> bool)
    requires |Join(lines)| > maxChars && LastError(lines, isError, |lines|).Some?
    ensures var anchor := LastError(lines, isError, |lines|).value;
            ContextKept(Chosen(lines, maxChars, isError, true), anchor)
            <==> || anchor < PlainWindow(lines, maxChars).head
                 || Cost(lines, ErrorStart(anchor), |lines|) <= ContextBudget(lines, maxChars, anchor)
  {
    var anchor := LastError(lines, isError, |lines|).value;
    var start, plain := ErrorStart(anchor), PlainWindow(lines, maxChars);
    JoinLength(lines);
    CostSplits(lines, 0, plain.head, |lines|);
    if anchor >= plain.tail {
      assert Chosen(lines, maxChars, isError, true) == plain;
      if start >= plain.head {
        SuffixReachesIff(lines, plain.head, Budget(maxChars) - HeadBudget(maxChars), start);
      } else {
        CostShrinks(lines, start, plain.head, |lines|);
        assert !Kept(plain, plain.head);
      }
      assert plain.tail <= start ==> forall i :: start <= i <= anchor ==> Kept(plain, i);
      assert plain.head <= start < plain.tail ==> !Kept(plain, start);
    } else if anchor >= plain.head {
      var w := AnchoredWindow(lines, maxChars, anchor);
      assert Chosen(lines, maxChars, isError, true) == w;
      SuffixReachesIff(lines, start, Budget(maxChars), start);
      assert w.tail <= start ==> forall i :: start <= i <= anchor ==> Kept(w, i);
      assert start < w.tail ==> !Kept(w, start);
    } else {
      assert Chosen(lines, maxChars, isError, true) == plain;
      assert forall i :: start <= i <= anchor ==> Kept(plain, i);
    }
  }
}
