// What the compacted text shows: its lines, the marker's numbers, and whether the last
// error line and its context are among them.

module CompactionOutput {
  import opened Common
  import opened Compaction
  import opened CompactionWindow
  import opened TextLines
  import Decimal
  import R = Redaction

  // -- Lines of what is collapsed ---------------------------------------------------

  ghost predicate OneLineEach(lines: seq<string>) {
    forall i :: 0 <= i < |lines| ==> '\n' !in lines[i]
  }

  lemma {:induction false} RenderedAreLines(runs: seq<Run>)
    requires OneLineEach(Expand(runs)) && forall i :: 0 <= i < |runs| ==> runs[i].count > 0
    ensures OneLineEach(RenderAll(runs))
    decreases |runs|
  {
    if runs != [] {
      var n := |runs| - 1;
      var before, copies := Expand(runs[..n]), Copies(runs[n].line, runs[n].count);
      assert forall i :: 0 <= i < |before| ==> Expand(runs)[i] == before[i];
      assert Expand(runs)[|before|] == copies[0] == runs[n].line;
      RenderedAreLines(runs[..n]);
    }
  }

  // compact_output hands such lines to the window: they are never empty and hold no
  // newline.
  lemma CollapsedAreLines(text: string)
    ensures var lines := RenderAll(RunsOf(Split(text))); lines != [] && OneLineEach(lines)
  {
    SplitThenJoin(text);
    RunsAreMaximal(Split(text));
    RenderedAreLines(RunsOf(Split(text)));
    assert RunsOf(Split(text)) != [];
  }

  // -- Cutting off the end of a text --------------------------------------------------

  lemma {:induction false} ShorterHasFewerLines(text: string, k: nat)
    requires k <= |text|
    ensures |Split(text[..k])| <= |Split(text)|
    decreases |text|
  {
    if k < |text| {
      var n := |text| - 1;
      ShorterHasFewerLines(text[..n], k);
      assert text[..n][..k] == text[..k] && text == text[..n] + [text[n]];
      SplitSnoc(text[..n], text[n]);
    } else {
      assert text[..k] == text;
    }
  }

  // -- No secret fragment at a cut ------------------------------------------------------

  ghost predicate NoFragment(secrets: set<string>, text: string) {
    forall n: nat :: !R.IsFragment(secrets, text, n)
  }

  lemma NothingStripped(secrets: set<string>, text: string)
    requires NoFragment(secrets, text)
    ensures R.StripFragment(secrets, text) == text
  {
    var kept := R.StripFragment(secrets, text);
    assert |kept| <= |text| && !R.IsFragment(secrets, text, |text| - |kept|);
  }

  predicate KeepsALine(lines: seq<string>, w: Window) {
    w.head > 0 || w.tail < |lines|
  }

  // The kept lines with the marker between them.
  function Shown(lines: seq<string>, w: Window): seq<string>
    requires w.head <= w.tail <= |lines|
  {
    lines[..w.head] + [MarkerOf(lines, w)] + lines[w.tail..]
  }

  // The text with the marker inline, when no whole line is kept.
  function Inline(lines: seq<string>, w: Window, maxChars: nat): string
    requires w.head <= w.tail <= |lines| && Budget(maxChars) <= |Join(lines)|
  {
    var text, headBudget := Join(lines), HeadBudget(maxChars);
    text[..headBudget] + MarkerOf(lines, w) + text[|text| - (Budget(maxChars) - headBudget)..]
  }

  // No fragment of a secret ends the head or the assembled text.
  ghost predicate Unstripped(lines: seq<string>, w: Window, maxChars: nat, secrets: set<string>)
    requires w.head <= w.tail <= |lines| && Budget(maxChars) <= |Join(lines)|
  {
    if KeepsALine(lines, w) then
      && (w.head > 0 ==> NoFragment(secrets, Join(lines[..w.head])))
      && NoFragment(secrets, Join(Shown(lines, w)))
    else
      && NoFragment(secrets, Join(lines)[..HeadBudget(maxChars)])
      && NoFragment(secrets, Inline(lines, w, maxChars))
  }

  // -- The output ---------------------------------------------------------------------

  lemma JoinFront(a: seq<string>, b: seq<string>)
    requires a != [] && b != []
    ensures Join([Join(a)] + b) == Join(a + b)
    decreases |b|
  {
    var n := |b| - 1;
    assert ([Join(a)] + b)[..1 + n] == [Join(a)] + b[..n] && (a + b)[..|a| + n] == a + b[..n];
    if n > 0 {
      JoinFront(a, b[..n]);
    } else {
      assert [Join(a)] + b[..n] == [Join(a)] && a + b[..n] == a;
    }
  }

  lemma PiecesJoin(lines: seq<string>, w: Window, secrets: set<string>)
    requires 0 < w.head <= w.tail <= |lines| && NoFragment(secrets, Join(lines[..w.head]))
    ensures Join(Pieces(secrets, lines, w)) == Join(Shown(lines, w))
  {
    var front, rest := lines[..w.head], [MarkerOf(lines, w)] + lines[w.tail..];
    NothingStripped(secrets, Join(front));
    JoinFront(front, rest);
    assert Pieces(secrets, lines, w) == [Join(front)] + rest;
    assert Shown(lines, w) == front + rest;
  }

  lemma NoHeadPieces(lines: seq<string>, w: Window, secrets: set<string>)
    requires w.head == 0 && w.tail <= |lines|
    ensures Pieces(secrets, lines, w) == Shown(lines, w)
  {
  }

  lemma ShownIsJoined(lines: seq<string>, w: Window, maxChars: nat, secrets: set<string>)
    requires w.head <= w.tail <= |lines| && Budget(maxChars) <= |Join(lines)| && KeepsALine(lines, w)
    requires w.head > 0 ==> NoFragment(secrets, Join(lines[..w.head]))
    ensures Around(lines, w, maxChars, secrets) == R.StripFragment(secrets, Join(Shown(lines, w)))
  {
    if w.head > 0 {
      PiecesJoin(lines, w, secrets);
    } else {
      NoHeadPieces(lines, w, secrets);
    }
  }

  lemma MarkerIsOneLine(lines: seq<string>, w: Window)
    requires w.head <= w.tail <= |lines|
    ensures '\n' !in MarkerOf(lines, w)
  {
  }

  lemma ShownAreLines(lines: seq<string>, w: Window)
    requires OneLineEach(lines) && w.head <= w.tail <= |lines|
    ensures OneLineEach(Shown(lines, w))
  {
    MarkerIsOneLine(lines, w);
  }

  // With a line kept and no fragment at a cut, the output's lines are the kept ones with
  // the marker between them.
  lemma OutputLines(lines: seq<string>, maxChars: nat, w: Window, secrets: set<string>)
    requires OneLineEach(lines) && w.head <= w.tail <= |lines| && Budget(maxChars) <= |Join(lines)|
    requires KeepsALine(lines, w) && Unstripped(lines, w, maxChars, secrets)
    ensures Split(Around(lines, w, maxChars, secrets)) == Shown(lines, w)
  {
    ShownIsJoined(lines, w, maxChars, secrets);
    NothingStripped(secrets, Join(Shown(lines, w)));
    ShownAreLines(lines, w);
    JoinThenSplit(Shown(lines, w));
  }

  // -- The marker reads back -------------------------------------------------------------

  function Digits(s: string): (n: nat)
    ensures n <= |s| && Decimal.AllDigits(s[..n])
  {
    if s == "" || !Decimal.IsDigit(s[0]) then 0
    else
      var n := 1 + Digits(s[1..]);
      assert s[..n] == [s[0]] + s[1..][..n - 1];
      n
  }

  lemma {:induction false} DigitsOfNumber(number: string, rest: string)
    requires Decimal.AllDigits(number) && rest != "" && !Decimal.IsDigit(rest[0])
    ensures Digits(number + rest) == |number|
  {
    if number == "" {
      assert number + rest == rest;
    } else {
      assert (number + rest)[1..] == number[1..] + rest;
      DigitsOfNumber(number[1..], rest);
    }
  }

  const OPENING := "[… "
  const BETWEEN := " chars / "
  const CLOSING := " lines omitted …]"

  // The two numbers a reader finds in a marker.
  function MarkerNumbers(marker: string): Option<(nat, nat)> {
    if !(OPENING <= marker) then None
    else
      var a := marker[|OPENING|..];
      var b := a[Digits(a)..];
      if !(BETWEEN <= b) then None
      else
        var c := b[|BETWEEN|..];
        if c[Digits(c)..] == CLOSING then Some((Decimal.Value(a[..Digits(a)]), Decimal.Value(c[..Digits(c)]))) else None
  }

  lemma NumberThen(n: nat, rest: string)
    requires rest != "" && !Decimal.IsDigit(rest[0])
    ensures var text := Decimal.Render(n) + rest;
            var k := Digits(text);
            Decimal.Value(text[..k]) == n && text[k..] == rest
  {
    var digits := Decimal.Render(n);
    DigitsOfNumber(digits, rest);
    assert (digits + rest)[..|digits|] == digits && (digits + rest)[|digits|..] == rest;
    Decimal.RenderThenValue(n);
  }

  lemma PrefixThen(prefix: string, rest: string)
    ensures prefix <= prefix + rest && (prefix + rest)[|prefix|..] == rest
  {
  }

  lemma MarkerParts(chars: nat, count: nat)
    ensures Marker(chars, count) == OPENING + (Decimal.Render(chars) + (BETWEEN + (Decimal.Render(count) + CLOSING)))
  {
  }

  lemma MarkerReadsBack(chars: nat, count: nat)
    ensures MarkerNumbers(Marker(chars, count)) == Some((chars, count))
  {
    var c := Decimal.Render(count) + CLOSING;
    var b := BETWEEN + c;
    MarkerParts(chars, count);
    PrefixThen(OPENING, Decimal.Render(chars) + b);
    NumberThen(chars, b);
    PrefixThen(BETWEEN, c);
    NumberThen(count, CLOSING);
  }

  // What a reader sees of a text cut between lines: its first and last lines around a line
  // whose two numbers are the characters and the count of the lines missing.
  ghost predicate CutBetween(out: string, lines: seq<string>, head: nat, tail: nat) {
    && head <= tail <= |lines| && |Split(out)| == |lines| - (tail - head) + 1
    && Split(out)[..head] == lines[..head] && Split(out)[head + 1..] == lines[tail..]
    && MarkerNumbers(Split(out)[head]) == Some((|Join(lines[head..tail])|, tail - head))
  }

  // And of one cut inside its lines: both ends around the numbers of the whole text.
  ghost predicate CutInside(out: string, text: string, front: nat, back: nat, lineCount: nat) {
    && front <= |text| && back <= |text|
    && exists marker :: out == text[..front] + marker + text[|text| - back..]
                        && MarkerNumbers(marker) == Some((|text|, lineCount))
  }

  // The marker of a text that is cut: with a line kept it counts exactly the lines missing
  // from the output; with none kept, the whole text although both ends of it are shown.
  lemma MarkerIsExact(lines: seq<string>, maxChars: nat, isError: string -> bool, errorContext: bool,
                      secrets: set<string>)
    requires OneLineEach(lines) && maxChars >= MIN_OUTPUT_CHARS && |Join(lines)| > maxChars
    requires Unstripped(lines, Chosen(lines, maxChars, isError, errorContext), maxChars, secrets)
    ensures var w := Chosen(lines, maxChars, isError, errorContext);
            var out := Compact(lines, maxChars, isError, errorContext, secrets);
            if KeepsALine(lines, w) then CutBetween(out, lines, w.head, w.tail)
            else CutInside(out, Join(lines), HeadBudget(maxChars), Budget(maxChars) - HeadBudget(maxChars), |lines|)
  {
    var w := Chosen(lines, maxChars, isError, errorContext);
    if KeepsALine(lines, w) {
      OutputLines(lines, maxChars, w, secrets);
      ShownIsCutBetween(Around(lines, w, maxChars, secrets), lines, w);
    } else {
      InlineOutput(lines, maxChars, w, secrets);
      InlineIsCutInside(lines, w, maxChars);
    }
  }

  lemma ShownIsCutBetween(out: string, lines: seq<string>, w: Window)
    requires w.head <= w.tail <= |lines| && Split(out) == Shown(lines, w)
    ensures CutBetween(out, lines, w.head, w.tail)
  {
    MarkerReadsBack(|Join(Omitted(lines, w))|, |Omitted(lines, w)|);
    assert Shown(lines, w)[w.head] == MarkerOf(lines, w);
  }

  lemma InlineIsCutInside(lines: seq<string>, w: Window, maxChars: nat)
    requires w.head == 0 && w.tail == |lines| && Budget(maxChars) <= |Join(lines)|
    ensures CutInside(Inline(lines, w, maxChars), Join(lines), HeadBudget(maxChars),
                      Budget(maxChars) - HeadBudget(maxChars), |lines|)
  {
    MarkerReadsBack(|Join(lines)|, |lines|);
    assert Omitted(lines, w) == lines;
    MarkedInside(Inline(lines, w, maxChars), Join(lines), HeadBudget(maxChars), Budget(maxChars) - HeadBudget(maxChars),
                 |lines|, MarkerOf(lines, w));
  }

  lemma MarkedInside(out: string, text: string, front: nat, back: nat, lineCount: nat, marker: string)
    requires front <= |text| && back <= |text| && out == text[..front] + marker + text[|text| - back..]
    requires MarkerNumbers(marker) == Some((|text|, lineCount))
    ensures CutInside(out, text, front, back, lineCount)
  {
  }

  lemma InlineOutput(lines: seq<string>, maxChars: nat, w: Window, secrets: set<string>)
    requires w.head <= w.tail <= |lines| && Budget(maxChars) <= |Join(lines)|
    requires !KeepsALine(lines, w) && Unstripped(lines, w, maxChars, secrets)
    ensures Around(lines, w, maxChars, secrets) == Inline(lines, w, maxChars)
  {
    NothingStripped(secrets, Join(lines)[..HeadBudget(maxChars)]);
    NothingStripped(secrets, Inline(lines, w, maxChars));
  }

  // -- What survives -----------------------------------------------------------------------

  // Line i of a text is shown in its place: the output begins with the lines up to it, or
  // ends with the lines from it on.
  ghost predicate Survives(shown: seq<string>, lines: seq<string>, i: nat)
    requires i < |lines|
  {
    || lines[..i + 1] <= shown
    || (|lines| - i <= |shown| && shown[|shown| - (|lines| - i)..] == lines[i..])
  }

  // The line of the output that is none of the text's: the marker, or the line it is in.
  function Inserted(lines: seq<string>, w: Window, maxChars: nat): string
    requires w.head <= w.tail <= |lines| && Budget(maxChars) <= |Join(lines)|
  {
    if KeepsALine(lines, w) then MarkerOf(lines, w)
    else
      var shown := Split(Inline(lines, w, maxChars));
      shown[|shown| - 1]
  }

  lemma MissingFromFront(shown: seq<string>, lines: seq<string>, i: nat, p: nat)
    requires p <= i < |lines| && p < |shown| && shown[p] !in lines
    ensures !(lines[..i + 1] <= shown)
  {
    assert lines[..i + 1][p] == lines[p] && lines[p] in lines;
  }

  lemma MissingFromBack(shown: seq<string>, lines: seq<string>, i: nat, p: nat)
    requires i < |lines| <= |shown| + i && |shown| - (|lines| - i) <= p < |shown| && shown[p] !in lines
    ensures shown[|shown| - (|lines| - i)..] != lines[i..]
  {
    var from := |shown| - (|lines| - i);
    assert shown[from..][p - from] == shown[p];
    assert lines[i..][p - from] == lines[i + p - from] && lines[i + p - from] in lines;
  }

  lemma ShownSurvives(lines: seq<string>, w: Window, i: nat)
    requires w.head <= w.tail <= |lines| && i < |lines| && MarkerOf(lines, w) !in lines
    ensures Survives(Shown(lines, w), lines, i) <==> Kept(w, i)
  {
    var shown := Shown(lines, w);
    assert shown[w.head] == MarkerOf(lines, w);
    if i < w.head {
      assert shown[..i + 1] == lines[..i + 1];
    } else if i >= w.tail {
      assert shown[|shown| - (|lines| - i)..] == lines[i..];
    } else {
      MissingFromFront(shown, lines, i, w.head);
      if |lines| - i <= |shown| {
        MissingFromBack(shown, lines, i, w.head);
      }
    }
  }

  // The two ends of a text cut inside its lines make at most as many lines as there are
  // up to where the first end lies, the last of them with the marker in it.
  lemma InlineShowsFew(lines: seq<string>, marker: string, front: nat, back: nat, a: nat, out: string)
    requires OneLineEach(lines) && '\n' !in marker && a < |lines|
    requires front < Cost(lines, 0, a + 1) && front <= |Join(lines)|
    requires back < Cost(lines, |lines| - 1, |lines|) && back <= |Join(lines)|
    requires out == Join(lines)[..front] + marker + Join(lines)[|Join(lines)| - back..]
    ensures |Split(out)| <= a + 1
  {
    var text := Join(lines);
    EndOfLastLine(lines, back);
    SameLineCount(text[..front], marker, text[|text| - back..]);
    FrontOfLines(lines, a, front);
  }

  lemma SameLineCount(text: string, a: string, b: string)
    requires '\n' !in a && '\n' !in b
    ensures |Split(text + a + b)| == |Split(text)|
  {
    SplitAppend(text, a);
    SplitAppend(text + a, b);
  }

  lemma EndOfLastLine(lines: seq<string>, tail: nat)
    requires OneLineEach(lines) && lines != [] && tail < Cost(lines, |lines| - 1, |lines|)
    ensures tail <= |Join(lines)| && '\n' !in Join(lines)[|Join(lines)| - tail..]
  {
    var n := |lines| - 1;
    assert Cost(lines, n, n) == 0 && tail <= |lines[n]|;
    var text := Join(lines);
    assert text[|text| - |lines[n]|..] == lines[n];
    assert text[|text| - tail..] == lines[n][|lines[n]| - tail..];
  }

  lemma FrontOfLines(lines: seq<string>, a: nat, k: nat)
    requires OneLineEach(lines) && a < |lines| && k < Cost(lines, 0, a + 1) && k <= |Join(lines)|
    ensures |Split(Join(lines)[..k])| <= a + 1
  {
    var front := lines[..a + 1];
    CostOfPrefix(front, lines, a + 1);
    JoinLength(front);
    JoinOfFront(lines, a + 1);
    assert Join(lines)[..k] == Join(front)[..k];
    JoinThenSplit(front);
    ShorterHasFewerLines(Join(front), k);
  }

  lemma {:induction false} JoinOfFront(lines: seq<string>, n: nat)
    requires 0 < n <= |lines|
    ensures Join(lines[..n]) <= Join(lines)
    decreases |lines|
  {
    if n < |lines| {
      var m := |lines| - 1;
      JoinOfFront(lines[..m], n);
      assert lines[..m][..n] == lines[..n];
    } else {
      assert lines[..n] == lines;
    }
  }

  // When no line is kept, the first end lies before the end of the error line and the
  // second inside the last line.
  lemma InlineEnds(lines: seq<string>, maxChars: nat, isError: string -> bool)
    requires LastError(lines, isError, |lines|).Some? && !KeepsALine(lines, Chosen(lines, maxChars, isError, true))
    ensures HeadBudget(maxChars) < Cost(lines, 0, LastError(lines, isError, |lines|).value + 1)
    ensures Budget(maxChars) - HeadBudget(maxChars) < Cost(lines, |lines| - 1, |lines|)
  {
    var a, plain := LastError(lines, isError, |lines|).value, PlainWindow(lines, maxChars);
    if plain.head <= a {
      CostShrinksUp(lines, plain.head + 1, a + 1);
    }
  }

  lemma InlineIsFew(lines: seq<string>, w: Window, maxChars: nat, a: nat)
    requires OneLineEach(lines) && w.head <= w.tail <= |lines| && Budget(maxChars) <= |Join(lines)| && a < |lines|
    requires HeadBudget(maxChars) < Cost(lines, 0, a + 1)
    requires Budget(maxChars) - HeadBudget(maxChars) < Cost(lines, |lines| - 1, |lines|)
    ensures |Split(Inline(lines, w, maxChars))| <= a + 1
  {
    MarkerIsOneLine(lines, w);
    InlineShowsFew(lines, MarkerOf(lines, w), HeadBudget(maxChars), Budget(maxChars) - HeadBudget(maxChars), a,
                   Inline(lines, w, maxChars));
  }

  // So the last error line is not shown.
  lemma InlineLosesError(lines: seq<string>, maxChars: nat, isError: string -> bool)
    requires OneLineEach(lines) && maxChars >= MIN_OUTPUT_CHARS && |Join(lines)| > maxChars
    requires LastError(lines, isError, |lines|).Some? && !KeepsALine(lines, Chosen(lines, maxChars, isError, true))
    requires Inserted(lines, Chosen(lines, maxChars, isError, true), maxChars) !in lines
    ensures var w := Chosen(lines, maxChars, isError, true);
            !Survives(Split(Inline(lines, w, maxChars)), lines, LastError(lines, isError, |lines|).value)
  {
    var w, a := Chosen(lines, maxChars, isError, true), LastError(lines, isError, |lines|).value;
    InlineEnds(lines, maxChars, isError);
    InlineIsFew(lines, w, maxChars, a);
    FewDoNotSurvive(Split(Inline(lines, w, maxChars)), lines, a);
  }

  lemma FewDoNotSurvive(shown: seq<string>, lines: seq<string>, a: nat)
    requires a < |lines| && 0 < |shown| <= a + 1 && shown[|shown| - 1] !in lines
    ensures !Survives(shown, lines, a)
  {
    if |shown| == a + 1 {
      MissingFromFront(shown, lines, a, a);
    }
    if |lines| - a <= |shown| {
      MissingFromBack(shown, lines, a, |shown| - 1);
    }
  }

  lemma CostShrinksUp(lines: seq<string>, a: nat, b: nat)
    requires a <= b <= |lines|
    ensures Cost(lines, 0, a) <= Cost(lines, 0, b)
  {
    CostSplits(lines, 0, a, b);
  }

  // What the two theorems below need of a text that is cut: no fragment of a secret at a
  // cut, and no line that reads like the inserted one.
  ghost predicate CleanCut(lines: seq<string>, maxChars: nat, isError: string -> bool, secrets: set<string>) {
    var w := Chosen(lines, maxChars, isError, true);
    |Join(lines)| > maxChars ==>
      Unstripped(lines, w, maxChars, secrets) && Inserted(lines, w, maxChars) !in lines
  }

  ghost function OutputOf(lines: seq<string>, maxChars: nat, isError: string -> bool, secrets: set<string>): seq<string>
    requires maxChars >= MIN_OUTPUT_CHARS
  {
    Split(Compact(lines, maxChars, isError, true, secrets))
  }

  lemma AllSurvive(lines: seq<string>, i: nat)
    requires i < |lines|
    ensures Survives(lines, lines, i)
  {
  }

  // With error context, the last error line is shown exactly when the text is not cut, the
  // line lies in the plain head, or the lines from it to the end fit the budget.
  lemma ErrorLineSurvivesIff(lines: seq<string>, maxChars: nat, isError: string -> bool, secrets: set<string>)
    requires OneLineEach(lines) && maxChars >= MIN_OUTPUT_CHARS && CleanCut(lines, maxChars, isError, secrets)
    requires LastError(lines, isError, |lines|).Some?
    ensures var a := LastError(lines, isError, |lines|).value;
            Survives(OutputOf(lines, maxChars, isError, secrets), lines, a)
            <==> || |Join(lines)| <= maxChars
                 || a < PlainWindow(lines, maxChars).head
                 || Cost(lines, a, |lines|) <= Budget(maxChars)
  {
    var w, a := Chosen(lines, maxChars, isError, true), LastError(lines, isError, |lines|).value;
    if |Join(lines)| <= maxChars {
      JoinThenSplit(lines);
      AllSurvive(lines, a);
    } else {
      ErrorLineKeptIff(lines, maxChars, isError);
      if KeepsALine(lines, w) {
        OutputLines(lines, maxChars, w, secrets);
        ShownSurvives(lines, w, a);
      } else {
        InlineOutput(lines, maxChars, w, secrets);
        InlineLosesError(lines, maxChars, isError);
      }
    }
  }

  // The error line and the twenty lines before it.
  ghost predicate ContextSurvives(shown: seq<string>, lines: seq<string>, a: nat)
    requires a < |lines|
  {
    forall i :: ErrorStart(a) <= i <= a ==> Survives(shown, lines, i)
  }

  lemma AllContextSurvives(lines: seq<string>, a: nat)
    requires a < |lines|
    ensures ContextSurvives(lines, lines, a)
  {
    forall i | ErrorStart(a) <= i <= a ensures Survives(lines, lines, i) {
      AllSurvive(lines, i);
    }
  }

  lemma ContextOfShown(lines: seq<string>, w: Window, a: nat)
    requires w.head <= w.tail <= |lines| && a < |lines| && MarkerOf(lines, w) !in lines
    ensures ContextSurvives(Shown(lines, w), lines, a) <==> ContextKept(w, a)
  {
    forall i | ErrorStart(a) <= i <= a ensures Survives(Shown(lines, w), lines, i) <==> Kept(w, i) {
      ShownSurvives(lines, w, i);
    }
  }

  lemma NoContextWithoutLine(shown: seq<string>, lines: seq<string>, w: Window, a: nat)
    requires a < |lines| && !Survives(shown, lines, a) && !Kept(w, a)
    ensures !ContextSurvives(shown, lines, a) && !ContextKept(w, a)
  {
  }

  // It is shown with all its twenty lines of context exactly when the text is not cut, the
  // line lies in the plain head, or context, line and the rest fit the room they have:
  // the plain tail's when the error line lies in it already, else the whole budget.
  lemma ContextSurvivesIff(lines: seq<string>, maxChars: nat, isError: string -> bool, secrets: set<string>)
    requires OneLineEach(lines) && maxChars >= MIN_OUTPUT_CHARS && CleanCut(lines, maxChars, isError, secrets)
    requires LastError(lines, isError, |lines|).Some?
    ensures var a := LastError(lines, isError, |lines|).value;
            ContextSurvives(OutputOf(lines, maxChars, isError, secrets), lines, a)
            <==> || |Join(lines)| <= maxChars
                 || a < PlainWindow(lines, maxChars).head
                 || Cost(lines, ErrorStart(a), |lines|) <= ContextBudget(lines, maxChars, a)
  {
    var w, a := Chosen(lines, maxChars, isError, true), LastError(lines, isError, |lines|).value;
    if |Join(lines)| <= maxChars {
      JoinThenSplit(lines);
      AllContextSurvives(lines, a);
    } else {
      ContextKeptIff(lines, maxChars, isError);
      ContextShown(lines, maxChars, isError, secrets);
    }
  }

  lemma ContextShown(lines: seq<string>, maxChars: nat, isError: string -> bool, secrets: set<string>)
    requires OneLineEach(lines) && maxChars >= MIN_OUTPUT_CHARS && CleanCut(lines, maxChars, isError, secrets)
    requires LastError(lines, isError, |lines|).Some? && |Join(lines)| > maxChars
    ensures var w, a := Chosen(lines, maxChars, isError, true), LastError(lines, isError, |lines|).value;
            ContextSurvives(OutputOf(lines, maxChars, isError, secrets), lines, a) <==> ContextKept(w, a)
  {
    var w, a := Chosen(lines, maxChars, isError, true), LastError(lines, isError, |lines|).value;
    var shown := OutputOf(lines, maxChars, isError, secrets);
    if KeepsALine(lines, w) {
      OutputLines(lines, maxChars, w, secrets);
      ContextOfShown(lines, w, a);
    } else {
      InlineOutput(lines, maxChars, w, secrets);
      InlineLosesError(lines, maxChars, isError);
      NoContextWithoutLine(shown, lines, w, a);
    }
  }

  // -- What does not survive -------------------------------------------------------------

  lemma {:induction false} EqualCosts(lines: seq<string>, from: nat, k: nat)
    requires from <= |lines| && forall i :: from <= i < |lines| ==> |lines[i]| == k
    ensures Cost(lines, from, |lines|) == (|lines| - from) * (k + 1)
    decreases |lines| - from
  {
    if from < |lines| {
      CostFromFront(lines, from, |lines|);
      EqualCosts(lines, from + 1, k);
    }
  }

  lemma LastLineFails(lines: seq<string>, isError: string -> bool)
    requires lines != [] && isError(lines[|lines| - 1])
    ensures LastError(lines, isError, |lines|) == Some(|lines| - 1)
  {
  }

  // One long line and twenty-one short ones, the error in the last of them.
  ghost predicate EndsInError(lines: seq<string>, k: nat, isError: string -> bool) {
    && |lines| == 22 && 96 <= |lines[0]| <= 800 && 4 <= k <= 6 && (forall i :: 1 <= i < 22 ==> |lines[i]| == k)
    && OneLineEach(lines) && isError(lines[21])
  }

  lemma ContextCost(lines: seq<string>, k: nat, isError: string -> bool)
    requires EndsInError(lines, k, isError)
    ensures Cost(lines, 1, |lines|) == 21 * k + 21
  {
    EqualCosts(lines, 1, k);
    assert (|lines| - 1) * (k + 1) == 21 * (k + 1);
  }

  lemma ErrorCost(lines: seq<string>, k: nat, isError: string -> bool)
    requires EndsInError(lines, k, isError)
    ensures Cost(lines, |lines| - 1, |lines|) == k + 1
  {
    CostFromFront(lines, |lines| - 1, |lines|);
  }

  lemma FrontCost(lines: seq<string>)
    requires lines != []
    ensures Cost(lines, 0, 1) == |lines[0]| + 1
    ensures |Join(lines)| == |lines[0]| + Cost(lines, 1, |lines|)
  {
    CostFromFront(lines, 0, |lines|);
    JoinLength(lines);
    assert Cost(lines, 0, 0) == 0;
  }

  // The plain tail holds the error but not all its context.
  lemma EndsInErrorWindow(lines: seq<string>, k: nat, isError: string -> bool)
    requires EndsInError(lines, k, isError)
    ensures var plain := PlainWindow(lines, 200); plain.head == 0 && 1 < plain.tail < |lines|
    ensures LastError(lines, isError, |lines|) == Some(|lines| - 1)
    ensures Chosen(lines, 200, isError, true) == PlainWindow(lines, 200)
  {
    var plain := PlainWindow(lines, 200);
    ContextCost(lines, k, isError);
    ErrorCost(lines, k, isError);
    FrontCost(lines);
    LastLineFails(lines, isError);
    assert HeadBudget(200) == 60 && Budget(200) == 150;
    assert plain.head == 0;
    SuffixReachesIff(lines, 0, 90, 1);
    SuffixReachesIff(lines, 0, 90, |lines| - 1);
  }

  lemma OtherLength(text: string, lines: seq<string>)
    requires forall i :: 0 <= i < |lines| ==> |lines[i]| != |text|
    ensures text !in lines
  {
  }

  lemma SmallMarkerIsNew(lines: seq<string>, w: Window)
    requires lines != [] && w.head <= w.tail <= |lines| && |Join(lines)| < 998
    requires forall i :: 0 <= i < |lines| ==> |lines[i]| < 29 || |lines[i]| > 60
    ensures MarkerOf(lines, w) !in lines
  {
    OmittedIsSmall(lines, w);
    MarkerLength(|Join(Omitted(lines, w))|, |Omitted(lines, w)|);
    OtherLength(MarkerOf(lines, w), lines);
  }

  lemma EndsInErrorSizes(lines: seq<string>, k: nat, isError: string -> bool)
    requires EndsInError(lines, k, isError)
    ensures |Join(lines)| < 998 && forall i :: 0 <= i < |lines| ==> |lines[i]| < 29 || |lines[i]| > 60
  {
    ContextCost(lines, k, isError);
    FrontCost(lines);
  }

  lemma EndsInErrorMarker(lines: seq<string>, k: nat, isError: string -> bool, w: Window)
    requires EndsInError(lines, k, isError) && w.head <= w.tail <= |lines|
    ensures MarkerOf(lines, w) !in lines
  {
    EndsInErrorSizes(lines, k, isError);
    SmallMarkerIsNew(lines, w);
  }

  lemma EndsInErrorIsClean(lines: seq<string>, k: nat, isError: string -> bool)
    requires EndsInError(lines, k, isError)
    ensures CleanCut(lines, 200, isError, {})
  {
    EndsInErrorWindow(lines, k, isError);
    EndsInErrorMarker(lines, k, isError, PlainWindow(lines, 200));
  }

  lemma MarkerLength(chars: nat, count: nat)
    requires chars < 1000 && count < 1000
    ensures 29 <= |Marker(chars, count)| <= 60
  {
    assert Decimal.Pow10(3) == 1000 by {
      assert Decimal.Pow10(1) == 10;
    }
    Decimal.RenderLength(chars, 3);
    Decimal.RenderLength(count, 3);
  }

  lemma EndsInErrorFits(lines: seq<string>, k: nat, isError: string -> bool)
    requires EndsInError(lines, k, isError)
    ensures var a := |lines| - 1;
            && LastError(lines, isError, |lines|) == Some(a) && PlainWindow(lines, 200).head == 0 && |Join(lines)| > 200
            && Cost(lines, a, |lines|) <= Budget(200)
            && ContextBudget(lines, 200, a) < Cost(lines, ErrorStart(a), |lines|) <= Budget(200)
  {
    ContextCost(lines, k, isError);
    ErrorCost(lines, k, isError);
    FrontCost(lines);
    EndsInErrorWindow(lines, k, isError);
    assert ErrorStart(|lines| - 1) == 1;
    assert HeadBudget(200) == 60 && Budget(200) == 150;
  }

  // The error and its context would fit the budget, but not the plain tail, which holds
  // the error: the window is not moved, and the error is shown without all its context.
  lemma ContextCanBeLost(lines: seq<string>, k: nat, isError: string -> bool)
    requires EndsInError(lines, k, isError)
    ensures LastError(lines, isError, |lines|) == Some(|lines| - 1)
    ensures Cost(lines, ErrorStart(|lines| - 1), |lines|) <= Budget(200)
    ensures var shown := OutputOf(lines, 200, isError, {});
            Survives(shown, lines, |lines| - 1) && !ContextSurvives(shown, lines, |lines| - 1)
  {
    EndsInErrorFits(lines, k, isError);
    EndsInErrorIsClean(lines, k, isError);
    ErrorLineSurvivesIff(lines, 200, isError, {});
    ContextSurvivesIff(lines, 200, isError, {});
  }

  // A failing command whose error line is followed by one long line: no line is kept, and
  // the error is not shown.
  lemma ErrorLineCanBeLost(first: string, last: string)
    requires |first| >= 60 && |last| >= 150 && '[' !in first && '[' !in last
    requires first != "error" && last != "error" && OneLineEach([first, "error", last])
    ensures var lines, isError := [first, "error", last], (line: string) => line == "error";
            LastError(lines, isError, |lines|) == Some(1) && !Survives(OutputOf(lines, 200, isError, {}), lines, 1)
  {
    var lines, isError := [first, "error", last], (line: string) => line == "error";
    var w := Chosen(lines, 200, isError, true);
    LostCosts(first, last);
    assert LastError(lines, isError, |lines|) == Some(1) by {
      assert LastError(lines, isError, 2) == Some(1);
    }
    ErrorLineKeptIff(lines, 200, isError);
    BracketInserted(lines, w, 200);
    NothingToStrip(lines, w);
    ErrorLineSurvivesIff(lines, 200, isError, {});
  }

  lemma NothingToStrip(lines: seq<string>, w: Window)
    requires w.head <= w.tail <= |lines| && Budget(200) <= |Join(lines)|
    ensures Unstripped(lines, w, 200, {})
  {
  }

  lemma LostCosts(first: string, last: string)
    requires |first| >= 60 && |last| >= 150
    ensures var lines := [first, "error", last];
            Cost(lines, 1, |lines|) > 150 && |Join(lines)| > 200 && PlainWindow(lines, 200).head == 0
  {
    var lines := [first, "error", last];
    CostFromFront(lines, 0, |lines|);
    CostFromFront(lines, 1, |lines|);
    CostFromFront(lines, 2, |lines|);
    JoinLength(lines);
    assert Cost(lines, 0, 1) == |first| + 1;
  }

  lemma BracketIsNew(text: string, lines: seq<string>)
    requires '[' in text && forall i :: 0 <= i < |lines| ==> '[' !in lines[i]
    ensures text !in lines
  {
  }

  // The inserted line holds the marker, whose bracket is in none of these lines.
  lemma BracketInserted(lines: seq<string>, w: Window, maxChars: nat)
    requires lines != [] && OneLineEach(lines) && forall i :: 0 <= i < |lines| ==> '[' !in lines[i]
    requires w.head <= w.tail <= |lines| && Budget(maxChars) <= |Join(lines)|
    requires KeepsALine(lines, w) || Budget(maxChars) - HeadBudget(maxChars) < Cost(lines, |lines| - 1, |lines|)
    ensures Inserted(lines, w, maxChars) !in lines
  {
    MarkerHasBracket(lines, w);
    if !KeepsALine(lines, w) {
      InlineHasBracket(lines, w, maxChars);
    }
    BracketIsNew(Inserted(lines, w, maxChars), lines);
  }

  lemma MarkerHasBracket(lines: seq<string>, w: Window)
    requires w.head <= w.tail <= |lines|
    ensures '[' in MarkerOf(lines, w)
  {
    assert MarkerOf(lines, w)[0] == '[';
  }

  lemma InlineHasBracket(lines: seq<string>, w: Window, maxChars: nat)
    requires lines != [] && OneLineEach(lines) && w.head <= w.tail <= |lines| && Budget(maxChars) <= |Join(lines)|
    requires Budget(maxChars) - HeadBudget(maxChars) < Cost(lines, |lines| - 1, |lines|)
    ensures var shown := Split(Inline(lines, w, maxChars)); '[' in shown[|shown| - 1]
  {
    MarkerIsOneLine(lines, w);
    MarkerHasBracket(lines, w);
    LastLineIsMarked(lines, MarkerOf(lines, w), HeadBudget(maxChars), Budget(maxChars) - HeadBudget(maxChars),
                     Inline(lines, w, maxChars));
  }

  lemma LastLineIsMarked(lines: seq<string>, marker: string, front: nat, back: nat, out: string)
    requires lines != [] && OneLineEach(lines) && '\n' !in marker && '[' in marker
    requires front <= |Join(lines)| && back < Cost(lines, |lines| - 1, |lines|) && back <= |Join(lines)|
    requires out == Join(lines)[..front] + marker + Join(lines)[|Join(lines)| - back..]
    ensures '[' in Split(out)[|Split(out)| - 1]
  {
    EndOfLastLine(lines, back);
    LastLineHas(Join(lines)[..front], marker, Join(lines)[|Join(lines)| - back..]);
  }

  lemma LastLineHas(front: string, marker: string, back: string)
    requires '\n' !in marker && '\n' !in back && '[' in marker
    ensures var shown := Split(front + marker + back); '[' in shown[|shown| - 1]
  {
    SplitAppend(front, marker);
    SplitAppend(front + marker, back);
  }

  // -- What stripping a fragment cuts ----------------------------------------------------

  lemma SlicedJoin(lines: seq<string>, n: nat)
    requires 0 < n < |lines|
    ensures Join(lines[..n + 1]) == Join(lines[..n]) + "\n" + lines[n]
  {
    assert lines[..n + 1][..n] == lines[..n];
  }

  // Line q is shown in its place.
  ghost predicate Stands(shown: seq<string>, lines: seq<string>, q: nat)
    requires q < |lines|
  {
    q < |shown| && shown[q] == lines[q]
  }

  lemma OneLineStands(line: string, k: nat)
    requires '\n' !in line && k <= |line|
    ensures Stands(Split(line[..k]), [line], 0) <==> |line| <= k
  {
    SplitAppend("", line[..k]);
    assert "" + line[..k] == line[..k];
  }

  // A cut after the lines before the last one: they stand, and the last if all of it is there.
  lemma LateCutBefore(lines: seq<string>, q: nat, k: nat)
    requires OneLineEach(lines) && q < |lines| - 1 && |Join(lines[..|lines| - 1])| < k <= |Join(lines)|
    ensures Stands(Split(Join(lines)[..k]), lines, q) && |Join(lines[..q + 1])| <= k
  {
    var n := |lines| - 1;
    LastLineShortened(lines, k);
    JoinOfFront(lines[..n], q + 1);
    assert lines[..n][..q + 1] == lines[..q + 1];
  }

  lemma LateCutLast(lines: seq<string>, k: nat)
    requires OneLineEach(lines) && |lines| > 1 && |Join(lines[..|lines| - 1])| < k <= |Join(lines)|
    ensures Stands(Split(Join(lines)[..k]), lines, |lines| - 1) <==> |Join(lines)| <= k
  {
    var n := |lines| - 1;
    var j := k - |Join(lines[..n])| - 1;
    LastLineShortened(lines, k);
    SlicedJoin(lines, n);
    assert lines[..n + 1] == lines;
    assert |Join(lines)| == |Join(lines[..n])| + 1 + |lines[n]|;
    assert j == |lines[n]| ==> lines[n][..j] == lines[n];
  }

  // A cut before the last line: it does not stand.
  lemma EarlyCut(lines: seq<string>, k: nat)
    requires OneLineEach(lines) && |lines| > 1 && k <= |Join(lines[..|lines| - 1])|
    ensures k <= |Join(lines)| && Join(lines)[..k] == Join(lines[..|lines| - 1])[..k]
    ensures !Stands(Split(Join(lines)[..k]), lines, |lines| - 1) && |Join(lines[..|lines|])| > k
  {
    var n := |lines| - 1;
    assert lines[..n + 1] == lines;
    SlicedJoin(lines, n);
    JoinThenSplit(lines[..n]);
    ShorterHasFewerLines(Join(lines[..n]), k);
  }

  // The first k characters of joined lines show line q exactly when they reach its end.
  lemma {:induction false} ShortenedShowsIff(lines: seq<string>, q: nat, k: nat)
    requires OneLineEach(lines) && q < |lines| && k <= |Join(lines)|
    ensures Stands(Split(Join(lines)[..k]), lines, q) <==> |Join(lines[..q + 1])| <= k
    decreases |lines|
  {
    var n := |lines| - 1;
    if n == 0 {
      OneLineStands(lines[0], k);
      assert lines[..1] == lines == [lines[0]];
    } else if k > |Join(lines[..n])| {
      if q < n {
        LateCutBefore(lines, q, k);
      } else {
        LateCutLast(lines, k);
        assert lines[..q + 1] == lines;
      }
    } else {
      EarlyCut(lines, k);
      if q < n {
        ShortenedShowsIff(lines[..n], q, k);
        assert lines[..n][..q + 1] == lines[..q + 1];
      }
    }
  }

  lemma LastLineShortened(lines: seq<string>, k: nat)
    requires OneLineEach(lines) && |lines| > 1 && |Join(lines[..|lines| - 1])| < k <= |Join(lines)|
    ensures var n := |lines| - 1;
            var j := k - |Join(lines[..n])| - 1;
            j <= |lines[n]| && Split(Join(lines)[..k]) == lines[..n] + [lines[n][..j]]
  {
    var n := |lines| - 1;
    var front, last := Join(lines[..n]), lines[n];
    var j := k - |front| - 1;
    JoinThenSplit(lines[..n]);
    assert Join(lines)[..k] == front + "\n" + last[..j];
    SplitOneMore(front, lines[..n], last[..j]);
  }

  lemma ShortenedStandsIff(lines: seq<string>, q: nat, out: string)
    requires OneLineEach(lines) && q < |lines| && out <= Join(lines)
    ensures Stands(Split(out), lines, q) <==> |Join(lines)| - |out| <= Cost(lines, q + 1, |lines|)
  {
    assert out == Join(lines)[..|out|];
    ShortenedShowsIff(lines, q, |out|);
    AfterPlace(lines, q);
  }

  lemma PlaceInShown(lines: seq<string>, w: Window, i: nat)
    requires w.head <= w.tail <= i < |lines|
    ensures var shown, place := Shown(lines, w), w.head + 1 + (i - w.tail);
            && place < |shown| && shown[place] == lines[i]
            && Cost(shown, place + 1, |shown|) == Cost(lines, i + 1, |lines|)
  {
    var shown, place := Shown(lines, w), w.head + 1 + (i - w.tail);
    assert shown[place + 1..] == lines[i + 1..];
    TailCost(shown, place + 1);
    TailCost(lines, i + 1);
  }

  lemma StandsInTail(shown: seq<string>, lines: seq<string>, place: nat, i: nat, out: string)
    requires OneLineEach(shown) && out <= Join(shown) && place < |shown| && i < |lines| && shown[place] == lines[i]
    requires Cost(shown, place + 1, |shown|) == Cost(lines, i + 1, |lines|)
    ensures (place < |Split(out)| && Split(out)[place] == lines[i])
            <==> |Join(shown)| - |out| <= Cost(lines, i + 1, |lines|)
  {
    ShortenedStandsIff(shown, place, out);
  }

  lemma OutIsShortened(lines: seq<string>, w: Window, maxChars: nat, secrets: set<string>)
    requires w.head <= w.tail < |lines| && Budget(maxChars) <= |Join(lines)|
    requires w.head > 0 ==> NoFragment(secrets, Join(lines[..w.head]))
    ensures Around(lines, w, maxChars, secrets) <= Join(Shown(lines, w))
  {
    ShownIsJoined(lines, w, maxChars, secrets);
  }

  // Line i of the tail stands in its place in the output exactly when no more is stripped
  // off the end than the lines after it.
  ghost predicate TailShown(out: string, lines: seq<string>, w: Window, i: nat)
    requires w.head <= w.tail <= i < |lines|
  {
    var place := w.head + 1 + (i - w.tail);
    (place < |Split(out)| && Split(out)[place] == lines[i])
    <==> |Join(Shown(lines, w))| - |out| <= Cost(lines, i + 1, |lines|)
  }

  lemma TailIsShown(out: string, lines: seq<string>, w: Window, i: nat)
    requires OneLineEach(lines) && w.head <= w.tail <= i < |lines| && out <= Join(Shown(lines, w))
    ensures TailShown(out, lines, w, i)
  {
    ShownAreLines(lines, w);
    PlaceInShown(lines, w, i);
    StandsInTail(Shown(lines, w), lines, w.head + 1 + (i - w.tail), i, out);
  }

  lemma TailLineIsShownIff(lines: seq<string>, maxChars: nat, isError: string -> bool, errorContext: bool,
                           secrets: set<string>, i: nat)
    requires OneLineEach(lines) && maxChars >= MIN_OUTPUT_CHARS && |Join(lines)| > maxChars
    requires var w := Chosen(lines, maxChars, isError, errorContext);
             w.tail <= i < |lines| && (w.head > 0 ==> NoFragment(secrets, Join(lines[..w.head])))
    ensures TailShown(Compact(lines, maxChars, isError, errorContext, secrets), lines,
                      Chosen(lines, maxChars, isError, errorContext), i)
  {
    var w := Chosen(lines, maxChars, isError, errorContext);
    OutIsShortened(lines, w, maxChars, secrets);
    TailIsShown(Around(lines, w, maxChars, secrets), lines, w, i);
  }

  lemma AfterPlace(lines: seq<string>, q: nat)
    requires q < |lines|
    ensures |Join(lines)| - |Join(lines[..q + 1])| == Cost(lines, q + 1, |lines|)
  {
    JoinLength(lines);
    JoinLength(lines[..q + 1]);
    CostOfPrefix(lines[..q + 1], lines, q + 1);
    CostSplits(lines, 0, q + 1, |lines|);
  }

  const FAILURE := "error abcdefgh"
  const CUT_SECRET := "abcdefghij"

  lemma LongestFragmentOf(text: string)
    requires |text| >= 14 && text[|text| - 14..] == FAILURE
    ensures R.StripFragment({CUT_SECRET}, text) == text[..|text| - 8]
  {
    var kept := R.StripFragment({CUT_SECRET}, text);
    assert text[|text| - 8..] == FAILURE[6..] == CUT_SECRET[..8];
    assert R.IsFragment({CUT_SECRET}, text, 8);
    assert text[|text| - 9..][0] == FAILURE[5] == ' ';
    assert CUT_SECRET[..9][0] == 'a';
    assert !R.IsFragment({CUT_SECRET}, text, 9);
  }

  // An error line that is kept and fits, but ends like a registered secret begins, is
  // shown without that end.
  lemma KeptErrorLineCanBeCut(first: string)
    requires |first| >= 200 && '\n' !in first
    ensures var lines, isError := [first, FAILURE], (line: string) => line == FAILURE;
            && LastError(lines, isError, |lines|) == Some(1) && Kept(Chosen(lines, 200, isError, true), 1)
            && Cost(lines, 1, |lines|) <= Budget(200)
            && OutputOf(lines, 200, isError, {CUT_SECRET}) == [Marker(|first|, 1), "error "]
  {
    var lines, isError := [first, FAILURE], (line: string) => line == FAILURE;
    var w := Window(0, 1);
    LastLineFails(lines, isError);
    FrontCost(lines);
    CostFromFront(lines, 1, |lines|);
    SuffixIsFirstThatFits(lines, 0, 90, 2, 1);
    assert Chosen(lines, 200, isError, true) == w;
    ShownIsJoined(lines, w, 200, {CUT_SECRET});
    ShownWithoutHead(first);
    LongestFragmentOf(Join(Shown(lines, w)));
    JoinThenSplit([Marker(|first|, 1), "error "]);
  }

  lemma ShownWithoutHead(first: string)
    ensures var lines, w := [first, FAILURE], Window(0, 1);
            var text := Join(Shown(lines, w));
            && |text| >= 14 && text[|text| - 14..] == FAILURE
            && text[..|text| - 8] == Join([Marker(|first|, 1), "error "])
    ensures '\n' !in Marker(|first|, 1)
  {
    var lines, w := [first, FAILURE], Window(0, 1);
    var marker := Marker(|first|, 1);
    assert Omitted(lines, w) == [first] && Join([first]) == first;
    assert Shown(lines, w) == [marker, FAILURE] && [marker, FAILURE][..1] == [marker];
    assert Join([marker, FAILURE]) == marker + "\n" + FAILURE;
    assert [marker, "error "][..1] == [marker];
    assert Join([marker, "error "]) == marker + "\n" + "error ";
    assert FAILURE[..6] == "error ";
    MarkerIsOneLine(lines, w);
  }
}
