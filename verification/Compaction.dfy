// Shrinking one stream of tool output to a character limit: duplicate lines
// collapse, then a head and a tail window stay around a marker.

module Compaction {
  import Decimal
  import opened TextLines

  const MARKER_RESERVE: nat := 50
  const DUPLICATE_RUN_MIN: nat := 3
  const ERROR_CONTEXT_LINES: nat := 20
  const MIN_OUTPUT_CHARS: nat := 200

  // -- Lines and their size ------------------------------------------------------

  // Characters of lines[from..upTo], each with the newline that joins it.
  function Cost(lines: seq<string>, from: nat, upTo: nat): nat
    requires upTo <= |lines|
    decreases upTo
  {
    if upTo <= from then 0 else Cost(lines, from, upTo - 1) + |lines[upTo - 1]| + 1
  }

  lemma {:induction false} CostSplits(lines: seq<string>, from: nat, mid: nat, upTo: nat)
    requires from <= mid <= upTo <= |lines|
    ensures Cost(lines, from, upTo) == Cost(lines, from, mid) + Cost(lines, mid, upTo)
    decreases upTo
  {
    if mid < upTo {
      CostSplits(lines, from, mid, upTo - 1);
    }
  }

  lemma {:induction false} CostOfSlice(lines: seq<string>, from: nat, upTo: nat)
    requires from <= upTo <= |lines|
    ensures Cost(lines[from..upTo], 0, upTo - from) == Cost(lines, from, upTo)
    decreases upTo
  {
    if from < upTo {
      CostOfSlice(lines, from, upTo - 1);
      CostOfPrefix(lines[from..upTo], lines[from..upTo - 1], upTo - 1 - from);
    }
  }

  lemma {:induction false} CostOfPrefix(a: seq<string>, b: seq<string>, n: nat)
    requires n <= |a| && n <= |b| && forall i :: 0 <= i < n ==> a[i] == b[i]
    ensures Cost(a, 0, n) == Cost(b, 0, n)
  {
    if n > 0 {
      CostOfPrefix(a, b, n - 1);
    }
  }

  lemma {:induction false} JoinLength(lines: seq<string>)
    requires lines != []
    ensures |Join(lines)| == Cost(lines, 0, |lines|) - 1
  {
    var n := |lines| - 1;
    if n > 0 {
      JoinLength(lines[..n]);
      CostOfPrefix(lines, lines[..n], n);
    }
  }

  lemma {:induction false} CostOfAppend(a: seq<string>, b: seq<string>)
    ensures Cost(a + b, 0, |a| + |b|) == Cost(a, 0, |a|) + Cost(b, 0, |b|)
    decreases |b|
  {
    if b == [] {
      assert a + b == a;
    } else {
      var n := |b| - 1;
      CostOfAppend(a, b[..n]);
      CostOfPrefix(a + b, a + b[..n], |a| + n);
      CostOfPrefix(b, b[..n], n);
    }
  }

  // -- Collapsing runs -----------------------------------------------------------

  datatype Run = Run(line: string, count: nat)

  function Copies(line: string, count: nat): seq<string> {
    seq(count, _ => line)
  }

  function Rendered(run: Run): seq<string> {
    if run.count >= DUPLICATE_RUN_MIN then [run.line + " [×" + Decimal.Render(run.count) + "]"]
    else Copies(run.line, run.count)
  }

  function Expand(runs: seq<Run>): seq<string> {
    if runs == [] then [] else Expand(runs[..|runs| - 1]) + Copies(runs[|runs| - 1].line, runs[|runs| - 1].count)
  }

  function RenderAll(runs: seq<Run>): seq<string> {
    if runs == [] then [] else RenderAll(runs[..|runs| - 1]) + Rendered(runs[|runs| - 1])
  }

  // The maximal runs of the lines: they spell the lines out, none is empty, and
  // neighbours differ.
  ghost predicate MaximalRuns(lines: seq<string>, runs: seq<Run>) {
    && Expand(runs) == lines
    && (forall i :: 0 <= i < |runs| ==> runs[i].count > 0)
    && (forall i :: 0 < i < |runs| ==> runs[i - 1].line != runs[i].line)
  }

  lemma ExpandSnoc(runs: seq<Run>, run: Run)
    ensures Expand(runs + [run]) == Expand(runs) + Copies(run.line, run.count)
    ensures RenderAll(runs + [run]) == RenderAll(runs) + Rendered(run)
  {
    assert (runs + [run])[..|runs|] == runs;
  }

  // The runs of a text are determined by it.
  lemma {:induction false} RunsAreUnique(lines: seq<string>, a: seq<Run>, b: seq<Run>)
    requires MaximalRuns(lines, a) && MaximalRuns(lines, b)
    ensures a == b
    decreases |a|
  {
    if a == [] || b == [] {
      if a != [] { LastLineOf(a); }
      if b != [] { LastLineOf(b); }
    } else {
      var m, n := |a| - 1, |b| - 1;
      LastRunLength(lines, a);
      LastRunLength(lines, b);
      assert a[m].line == b[n].line && a[m].count == b[n].count;
      var rest := |lines| - a[m].count;
      assert Expand(a[..m]) == lines[..rest] == Expand(b[..n]);
      RunsAreUnique(lines[..rest], a[..m], b[..n]);
      assert a == a[..m] + [a[m]] && b == b[..n] + [b[n]];
    }
  }

  lemma LastLineOf(runs: seq<Run>)
    requires runs != [] && runs[|runs| - 1].count > 0
    ensures Expand(runs) != [] && Expand(runs)[|Expand(runs)| - 1] == runs[|runs| - 1].line
  {
  }

  // The length of the last run: how far back the last line repeats.
  function TrailingRun(lines: seq<string>, n: nat): (k: nat)
    requires 0 < n <= |lines|
    ensures 1 <= k <= n
    ensures forall i :: n - k <= i < n ==> lines[i] == lines[n - 1]
    ensures k < n ==> lines[n - k - 1] != lines[n - 1]
  {
    if n == 1 || lines[n - 2] != lines[n - 1] then 1 else 1 + TrailingRun(lines, n - 1)
  }

  lemma LastRunLength(lines: seq<string>, runs: seq<Run>)
    requires MaximalRuns(lines, runs) && runs != []
    ensures lines != [] && runs[|runs| - 1] == Run(lines[|lines| - 1], TrailingRun(lines, |lines|))
  {
    var m := |runs| - 1;
    var k := runs[m].count;
    assert lines == Expand(runs[..m]) + Copies(runs[m].line, k);
    if m > 0 {
      LastLineOf(runs[..m]);
    }
    var t := TrailingRun(lines, |lines|);
    assert forall i :: |lines| - k <= i < |lines| ==> lines[i] == runs[m].line;
    assert k < |lines| ==> lines[|lines| - k - 1] != runs[m].line;
  }

  // The runs themselves, from the last one back.
  function RunsTo(lines: seq<string>, n: nat): seq<Run>
    requires n <= |lines|
  {
    if n == 0 then []
    else
      var k := TrailingRun(lines, n);
      RunsTo(lines, n - k) + [Run(lines[n - 1], k)]
  }

  function RunsOf(lines: seq<string>): seq<Run> {
    RunsTo(lines, |lines|)
  }

  lemma MaximalAppend(lines: seq<string>, runs: seq<Run>, run: Run)
    requires MaximalRuns(lines, runs) && run.count > 0
    requires runs != [] ==> runs[|runs| - 1].line != run.line
    ensures MaximalRuns(lines + Copies(run.line, run.count), runs + [run])
    ensures RenderAll(runs + [run]) == RenderAll(runs) + Rendered(run)
  {
    ExpandSnoc(runs, run);
  }

  lemma EqualStretch(lines: seq<string>, n: nat, m: nat)
    requires n < m <= |lines| && forall k :: n <= k < m ==> lines[k] == lines[n]
    ensures lines[n..m] == Copies(lines[n], m - n) && lines[..m] == lines[..n] + Copies(lines[n], m - n)
  {
  }

  lemma {:induction false} RunsToSpell(lines: seq<string>, n: nat)
    requires n <= |lines|
    ensures MaximalRuns(lines[..n], RunsTo(lines, n))
    ensures n > 0 ==> RunsTo(lines, n) != [] && RunsTo(lines, n)[|RunsTo(lines, n)| - 1].line == lines[n - 1]
    decreases n
  {
    if n > 0 {
      var k := TrailingRun(lines, n);
      RunsToSpell(lines, n - k);
      EqualStretch(lines, n - k, n);
      MaximalAppend(lines[..n - k], RunsTo(lines, n - k), Run(lines[n - 1], k));
    }
  }

  // They are the maximal runs of the lines.
  lemma RunsAreMaximal(lines: seq<string>)
    ensures MaximalRuns(lines, RunsOf(lines))
  {
    RunsToSpell(lines, |lines|);
    assert lines[..|lines|] == lines;
  }

  method CollapseDuplicateLines(lines: seq<string>) returns (collapsed: seq<string>)
    ensures collapsed == RenderAll(RunsOf(lines))
  {
    collapsed := [];
    ghost var runs: seq<Run> := [];
    var index := 0;
    while index < |lines|
      invariant index <= |lines| && MaximalRuns(lines[..index], runs) && collapsed == RenderAll(runs)
      invariant runs != [] && index < |lines| ==> runs[|runs| - 1].line != lines[index]
    {
      var run := index + 1;
      while run < |lines| && lines[run] == lines[index]
        invariant index < run <= |lines|
        invariant forall k :: index <= k < run ==> lines[k] == lines[index]
      {
        run := run + 1;
      }
      var count := run - index;
      EqualStretch(lines, index, run);
      MaximalAppend(lines[..index], runs, Run(lines[index], count));
      if count >= DUPLICATE_RUN_MIN {
        collapsed := collapsed + [lines[index] + " [×" + Decimal.Render(count) + "]"];
      } else {
        collapsed := collapsed + lines[index..run];
      }
      runs := runs + [Run(lines[index], count)];
      index := run;
    }
    assert lines[..index] == lines;
    RunsAreMaximal(lines);
    RunsAreUnique(lines, runs, RunsOf(lines));
  }
}
