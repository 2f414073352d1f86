// How collapsing duplicate lines changes the length of a text.

module CollapseLength {
  import Decimal
  import opened TextLines
  import opened Compaction

  // -- One run ------------------------------------------------------------------

  function RunCost(lines: seq<string>): nat {
    Cost(lines, 0, |lines|)
  }

  lemma {:induction false} CostOfCopies(line: string, count: nat)
    ensures RunCost(Copies(line, count)) == count * (|line| + 1)
  {
    if count > 0 {
      CostOfCopies(line, count - 1);
      CostOfPrefix(Copies(line, count), Copies(line, count - 1), count - 1);
    }
  }

  // What collapsing adds to a run.
  function GrowthOf(run: Run): int {
    if run.count < DUPLICATE_RUN_MIN then 0
    else |run.line| + 5 + |Decimal.Render(run.count)| - run.count * (|run.line| + 1)
  }

  lemma CostOfOne(line: string)
    ensures RunCost([line]) == |line| + 1
  {
    assert Cost([line], 0, 0) == 0;
  }

  lemma RenderedCost(run: Run)
    ensures RunCost(Rendered(run)) == RunCost(Copies(run.line, run.count)) + GrowthOf(run)
  {
    CostOfCopies(run.line, run.count);
    if run.count >= DUPLICATE_RUN_MIN {
      var line := run.line + " [×" + Decimal.Render(run.count) + "]";
      assert Rendered(run) == [line];
      CostOfOne(line);
    }
  }

  // Three to five empty lines, or three lines of one character.
  predicate Lengthens(run: Run) {
    || (run.line == "" && 3 <= run.count <= 5)
    || (|run.line| == 1 && run.count == 3)
  }

  lemma {:induction false} PowersGrow(k: nat)
    requires 0 < k
    ensures k + 6 <= Decimal.Pow10(k)
  {
    if k > 1 {
      PowersGrow(k - 1);
    }
  }

  lemma FewDigits(n: nat)
    ensures n < 10 ==> |Decimal.Render(n)| == 1
    ensures n >= 6 ==> |Decimal.Render(n)| + 5 <= n
  {
    if n >= 6 {
      PowersGrow(n - 5);
      Decimal.RenderLength(n, n - 5);
    }
    assert Decimal.Pow10(1) == 10;
    Decimal.RenderLength(n, 1);
  }

  // n lines of k - 1 characters against one of k + 4 + d.
  lemma WhenLonger(n: nat, k: nat, d: nat)
    requires n >= 3 && k > 0 && (if n < 6 then d == 1 else d + 5 <= n)
    ensures k + 4 + d > n * k <==> (k == 1 && n <= 5) || (k == 2 && n == 3)
    ensures k + 4 + d - n * k <= 3
  {
    assert n * k == (n - 1) * k + k;
    if k == 1 {
      assert (n - 1) * k == n - 1;
    } else if k == 2 {
      assert (n - 1) * k == 2 * n - 2;
    } else {
      TimesAtLeast(n - 1, k);
    }
  }

  lemma TimesAtLeast(a: nat, b: nat)
    requires b >= 3
    ensures 3 * a <= a * b
  {
  }

  // Those are the only runs that collapsing makes longer, by at most three characters.
  lemma GrowsIff(run: Run)
    requires run.count > 0
    ensures GrowthOf(run) > 0 <==> Lengthens(run)
    ensures GrowthOf(run) <= 3
  {
    FewDigits(run.count);
    if run.count >= DUPLICATE_RUN_MIN {
      WhenLonger(run.count, |run.line| + 1, |Decimal.Render(run.count)|);
    }
  }

  lemma RunsOfCopies(line: string, count: nat)
    requires count > 0
    ensures RunsOf(Copies(line, count)) == [Run(line, count)]
  {
    var run, lines := Run(line, count), Copies(line, count);
    ExpandSnoc([], run);
    assert [] + [run] == [run];
    RunsAreMaximal(lines);
    RunsAreUnique(lines, RunsOf(lines), [run]);
  }

  // Collapsing lengthens the text of equal lines exactly when they are three to five
  // empty ones or three of one character.
  lemma CollapseLengthensIff(line: string, count: nat)
    requires count > 0
    ensures |Join(RenderAll(RunsOf(Copies(line, count))))| > |Join(Copies(line, count))|
            <==> Lengthens(Run(line, count))
  {
    var run := Run(line, count);
    RunsOfCopies(line, count);
    ExpandSnoc([], run);
    assert [] + [run] == [run] && [] + Rendered(run) == Rendered(run);
    RenderedCost(run);
    GrowsIff(run);
    JoinLength(Rendered(run));
    JoinLength(Copies(line, count));
  }

  // -- A whole text ----------------------------------------------------------------

  function Growth(runs: seq<Run>): int {
    if runs == [] then 0 else Growth(runs[..|runs| - 1]) + GrowthOf(runs[|runs| - 1])
  }

  lemma RunCostAppend(a: seq<string>, b: seq<string>)
    ensures RunCost(a + b) == RunCost(a) + RunCost(b)
  {
    CostOfAppend(a, b);
  }

  lemma {:induction false} RenderAllCost(runs: seq<Run>)
    ensures RunCost(RenderAll(runs)) == RunCost(Expand(runs)) + Growth(runs)
    decreases |runs|
  {
    if runs != [] {
      var n := |runs| - 1;
      RenderAllCost(runs[..n]);
      RunCostAppend(RenderAll(runs[..n]), Rendered(runs[n]));
      RunCostAppend(Expand(runs[..n]), Copies(runs[n].line, runs[n].count));
      RenderedCost(runs[n]);
    }
  }

  ghost predicate NoneEmpty(runs: seq<Run>) {
    forall i :: 0 <= i < |runs| ==> runs[i].count > 0
  }

  lemma {:induction false} ManyLines(runs: seq<Run>)
    requires NoneEmpty(runs)
    ensures |runs| <= |Expand(runs)| && |runs| <= |RenderAll(runs)| && Growth(runs) <= 3 * |runs|
    decreases |runs|
  {
    if runs != [] {
      ManyLines(runs[..|runs| - 1]);
      GrowsIff(runs[|runs| - 1]);
    }
  }

  function Collapse(lines: seq<string>): seq<string> {
    RenderAll(RunsOf(lines))
  }

  // The length of a collapsed text, exactly.
  lemma CollapsedLength(lines: seq<string>)
    requires lines != []
    ensures Collapse(lines) != []
    ensures |Join(Collapse(lines))| == |Join(lines)| + Growth(RunsOf(lines))
    ensures Growth(RunsOf(lines)) <= 3 * |lines|
  {
    var runs := RunsOf(lines);
    RunsAreMaximal(lines);
    ManyLines(runs);
    RenderAllCost(runs);
    assert runs != [];
    JoinLength(lines);
    JoinLength(Collapse(lines));
  }

  // -- When no run lengthens ----------------------------------------------------------

  // A maximal run of n lines from line i on that collapsing makes longer.
  ghost predicate ShortRunAt(lines: seq<string>, i: nat, n: nat) {
    && 0 < n && i + n <= |lines| && Lengthens(Run(lines[i], n))
    && (forall j :: i <= j < i + n ==> lines[j] == lines[i])
    && (i > 0 ==> lines[i - 1] != lines[i])
    && (i + n < |lines| ==> lines[i + n] != lines[i])
  }

  ghost predicate NoShortRun(lines: seq<string>) {
    forall i: nat, n: nat :: !ShortRunAt(lines, i, n)
  }

  lemma GrowthSnoc(runs: seq<Run>, run: Run)
    ensures Growth(runs + [run]) == Growth(runs) + GrowthOf(run)
  {
    assert (runs + [run])[..|runs|] == runs;
  }

  lemma LastRunIsMaximal(lines: seq<string>, n: nat, k: nat)
    requires NoShortRun(lines) && 0 < n <= |lines| && (n < |lines| ==> lines[n] != lines[n - 1])
    requires k == TrailingRun(lines, n)
    ensures GrowthOf(Run(lines[n - 1], k)) <= 0
  {
    GrowsIff(Run(lines[n - 1], k));
    assert !ShortRunAt(lines, n - k, k);
  }

  lemma {:induction false} NoGrowth(lines: seq<string>, n: nat)
    requires NoShortRun(lines) && n <= |lines| && (0 < n < |lines| ==> lines[n] != lines[n - 1])
    ensures Growth(RunsTo(lines, n)) <= 0
    decreases n
  {
    if n > 0 {
      var k := TrailingRun(lines, n);
      NoGrowth(lines, n - k);
      LastRunIsMaximal(lines, n, k);
      GrowthSnoc(RunsTo(lines, n - k), Run(lines[n - 1], k));
    }
  }

  // Then collapsing never lengthens the text.
  lemma CollapseShrinks(lines: seq<string>)
    requires lines != [] && NoShortRun(lines)
    ensures |Join(Collapse(lines))| <= |Join(lines)|
  {
    NoGrowth(lines, |lines|);
    CollapsedLength(lines);
  }

  ghost predicate Parts(whole: seq<string>, a: seq<string>, b: seq<string>) {
    && |whole| == |a| + |b|
    && (forall j {:trigger whole[j]} :: 0 <= j < |a| ==> whole[j] == a[j])
    && (forall j {:trigger whole[j]} :: |a| <= j < |whole| ==> whole[j] == b[j - |a|])
  }

  lemma ShortRunDoesNotCross(a: seq<string>, b: seq<string>, whole: seq<string>, i: nat, n: nat)
    requires Parts(whole, a, b) && ShortRunAt(whole, i, n)
    requires a != [] && b != [] ==> a[|a| - 1] != b[0] || |b[0]| > 1
    ensures i + n <= |a| || i >= |a|
  {
    if i < |a| && b != [] {
      assert whole[|a| - 1] == a[|a| - 1];
      assert whole[|a|] == b[0];
    }
  }

  lemma ShortRunOnTheLeft(a: seq<string>, b: seq<string>, whole: seq<string>, i: nat, n: nat)
    requires Parts(whole, a, b) && ShortRunAt(whole, i, n) && i + n <= |a|
    ensures ShortRunAt(a, i, n)
  {
    forall j | i <= j < i + n ensures a[j] == a[i] {
      assert whole[j] == whole[i];
    }
    assert i > 0 ==> whole[i - 1] == a[i - 1];
    assert i + n < |a| ==> whole[i + n] == a[i + n];
  }

  lemma ShortRunOnTheRight(a: seq<string>, b: seq<string>, whole: seq<string>, i: nat, n: nat)
    requires Parts(whole, a, b) && ShortRunAt(whole, i, n) && i >= |a|
    ensures ShortRunAt(b, i - |a|, n)
  {
    var k := i - |a|;
    forall j | k <= j < k + n ensures b[j] == b[k] {
      assert whole[|a| + j] == whole[i];
    }
    assert k > 0 ==> whole[i - 1] == b[k - 1];
    assert k + n < |b| ==> whole[i + n] == b[k + n];
  }

  // Two stretches without a short run have none together, unless short lines meet.
  lemma NoShortRunAppend(a: seq<string>, b: seq<string>)
    requires NoShortRun(a) && NoShortRun(b)
    requires a != [] && b != [] ==> a[|a| - 1] != b[0] || |b[0]| > 1
    ensures NoShortRun(a + b)
  {
    forall i: nat, n: nat ensures !ShortRunAt(a + b, i, n) {
      if ShortRunAt(a + b, i, n) {
        ShortRunDoesNotCross(a, b, a + b, i, n);
        if i >= |a| {
          ShortRunOnTheRight(a, b, a + b, i, n);
        } else {
          ShortRunOnTheLeft(a, b, a + b, i, n);
        }
      }
    }
  }

  lemma OneLineIsPlain(line: string)
    ensures NoShortRun([line])
  {
  }
}
