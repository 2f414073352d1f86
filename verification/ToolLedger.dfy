// What one user message may spend on tools: executions, refusals of a call that
// keeps failing, and the cap per response.

module ToolLedger {
  import opened AgentMessages

  const TOOL_EXECUTION_LIMIT: nat := 12
  const MAX_TOOL_CALLS_PER_RESPONSE: nat := 3
  const TOOL_REPEAT_REFUSAL_THRESHOLD: nat := 2

  const BUDGET_EXHAUSTED_RESULT := "tool budget exhausted"
  const EXCESS_CALL_RESULT := "too many tool calls in one response"
  const REFUSED_REPEAT_RESULT := "refused: this exact tool call already failed twice"

  // The tools as the harness meets them: the result of the n-th execution for
  // this message, whether a result is an error envelope and of which class, and
  // the canonical key of a call.
  datatype Tools = Tools(
    execute: (nat, Call) -> string,
    isError: string -> bool,
    errorClass: string -> string,
    keyOf: Call -> string)

  // One call that reached execute_tool.
  datatype Run = Run(key: string, failed: bool)

  datatype Ledger = Ledger(runs: seq<Run>, used: nat)

  const FRESH: Ledger := Ledger([], 0)

  function Fails(runs: seq<Run>, key: string): nat {
    if runs == [] then 0
    else
      var last := runs[|runs| - 1];
      Fails(runs[..|runs| - 1], key) + if last.failed && last.key == key then 1 else 0
  }

  // One accepted call: refused, executed, or out of budget, decided in that order.
  function One(tools: Tools, ledger: Ledger, call: Call): (Ledger, string) {
    var key := tools.keyOf(call);
    if Fails(ledger.runs, key) >= TOOL_REPEAT_REFUSAL_THRESHOLD then
      (ledger.(used := ledger.used + 1), REFUSED_REPEAT_RESULT)
    else if ledger.used < TOOL_EXECUTION_LIMIT then
      var result := tools.execute(|ledger.runs|, call);
      (Ledger(ledger.runs + [Run(key, tools.isError(result))], ledger.used + 1), result)
    else
      (ledger, BUDGET_EXHAUSTED_RESULT)
  }

  // The ledger after the first n of the calls, in order.
  function After(tools: Tools, ledger: Ledger, calls: seq<Call>, n: nat): Ledger
    requires n <= |calls|
  {
    if n == 0 then ledger else One(tools, After(tools, ledger, calls, n - 1), calls[n - 1]).0
  }

  function Executable(calls: seq<Call>): (n: nat)
    ensures n <= |calls|
  {
    if |calls| <= MAX_TOOL_CALLS_PER_RESPONSE then |calls| else MAX_TOOL_CALLS_PER_RESPONSE
  }

  // One response: its first three calls in order, the rest answered unexecuted.
  function ResultAt(tools: Tools, ledger: Ledger, calls: seq<Call>, i: nat): string
    requires i < |calls|
  {
    if i < MAX_TOOL_CALLS_PER_RESPONSE then One(tools, After(tools, ledger, calls, i), calls[i]).1
    else EXCESS_CALL_RESULT
  }

  function Results(tools: Tools, ledger: Ledger, calls: seq<Call>): seq<string> {
    seq(|calls|, i requires 0 <= i < |calls| => ResultAt(tools, ledger, calls, i))
  }

  function Round(tools: Tools, ledger: Ledger, calls: seq<Call>): Ledger {
    After(tools, ledger, calls, Executable(calls))
  }

  // -- What every message keeps ------------------------------------------------

  ghost predicate Sound(ledger: Ledger) {
    && |ledger.runs| <= ledger.used
    && |ledger.runs| <= TOOL_EXECUTION_LIMIT
    && forall i :: 0 <= i < |ledger.runs| ==>
         Fails(ledger.runs[..i], ledger.runs[i].key) < TOOL_REPEAT_REFUSAL_THRESHOLD
  }

  lemma OneKeepsSound(tools: Tools, ledger: Ledger, call: Call)
    requires Sound(ledger)
    ensures Sound(One(tools, ledger, call).0)
    ensures ledger.runs <= One(tools, ledger, call).0.runs && |One(tools, ledger, call).0.runs| <= |ledger.runs| + 1
    ensures ledger.used <= One(tools, ledger, call).0.used <= ledger.used + 1
  {
    var runs := One(tools, ledger, call).0.runs;
    forall i | 0 <= i < |runs| ensures Fails(runs[..i], runs[i].key) < TOOL_REPEAT_REFUSAL_THRESHOLD {
      assert i < |ledger.runs| ==> ledger.runs[..i] == runs[..i];
      assert i == |ledger.runs| ==> runs[..i] == ledger.runs;
    }
  }

  lemma {:induction false} AfterKeepsSound(tools: Tools, ledger: Ledger, calls: seq<Call>, n: nat)
    requires Sound(ledger) && n <= |calls|
    ensures var after := After(tools, ledger, calls, n);
            && Sound(after) && ledger.runs <= after.runs && |after.runs| <= |ledger.runs| + n
            && ledger.used <= after.used <= ledger.used + n
  {
    if n != 0 {
      AfterKeepsSound(tools, ledger, calls, n - 1);
      OneKeepsSound(tools, After(tools, ledger, calls, n - 1), calls[n - 1]);
    }
  }

  // At most three calls of a response run, whatever it asked for; a response
  // admitted while the budget is open leaves the counter at 14 or less.
  lemma RoundKeepsSound(tools: Tools, ledger: Ledger, calls: seq<Call>)
    requires Sound(ledger)
    ensures var after := Round(tools, ledger, calls);
            && Sound(after) && ledger.runs <= after.runs
            && |after.runs| <= |ledger.runs| + MAX_TOOL_CALLS_PER_RESPONSE
            && ledger.used <= after.used <= ledger.used + MAX_TOOL_CALLS_PER_RESPONSE
            && (ledger.used < TOOL_EXECUTION_LIMIT ==> after.used <= TOOL_EXECUTION_LIMIT + 2)
  {
    AfterKeepsSound(tools, ledger, calls, Executable(calls));
  }

  lemma {:induction false} FailsGrow(runs: seq<Run>, i: nat, key: string)
    requires i <= |runs|
    ensures Fails(runs[..i], key) <= Fails(runs, key)
    decreases |runs|
  {
    if i < |runs| {
      var shorter := runs[..|runs| - 1];
      FailsGrow(shorter, i, key);
      assert shorter[..i] == runs[..i];
    } else {
      assert runs[..i] == runs;
    }
  }

  // One call key fails at most twice, and is never executed again after that.
  lemma NeverRunAfterTwoFailures(ledger: Ledger, i: nat, j: nat, key: string)
    requires Sound(ledger) && i <= j < |ledger.runs|
    requires Fails(ledger.runs[..i], key) >= TOOL_REPEAT_REFUSAL_THRESHOLD
    ensures ledger.runs[j].key != key
  {
    FailsGrow(ledger.runs[..j], i, key);
    assert ledger.runs[..j][..i] == ledger.runs[..i];
  }

  lemma {:induction false} FailsAtMostTwice(ledger: Ledger, key: string)
    requires Sound(ledger)
    ensures Fails(ledger.runs, key) <= TOOL_REPEAT_REFUSAL_THRESHOLD
    decreases |ledger.runs|
  {
    if ledger.runs != [] {
      var n := |ledger.runs| - 1;
      var shorter := Ledger(ledger.runs[..n], ledger.used);
      assert forall i :: 0 <= i < n ==> shorter.runs[..i] == ledger.runs[..i];
      FailsAtMostTwice(shorter, key);
      assert Fails(ledger.runs[..n], ledger.runs[n].key) < TOOL_REPEAT_REFUSAL_THRESHOLD;
    }
  }

  // -- The counter can pass its limit -------------------------------------------

  // Refusals are decided before the budget and still counted, so a key that has
  // failed twice moves the counter without running anything.
  lemma {:induction false} RefusalsCount(tools: Tools, ledger: Ledger, calls: seq<Call>, n: nat)
    requires n <= |calls|
    requires forall c <- calls :: Fails(ledger.runs, tools.keyOf(c)) >= TOOL_REPEAT_REFUSAL_THRESHOLD
    ensures After(tools, ledger, calls, n) == Ledger(ledger.runs, ledger.used + n)
  {
    if n != 0 {
      RefusalsCount(tools, ledger, calls, n - 1);
      assert calls[n - 1] in calls;
    }
  }

  // Asked again after failing twice.
  predicate Refused(tools: Tools, ledger: Ledger, calls: seq<Call>, i: nat)
    requires i < |calls|
  {
    Fails(After(tools, ledger, calls, i).runs, tools.keyOf(calls[i])) >= TOOL_REPEAT_REFUSAL_THRESHOLD
  }

  function Refusals(tools: Tools, ledger: Ledger, calls: seq<Call>, n: nat): nat
    requires n <= |calls|
  {
    if n == 0 then 0
    else Refusals(tools, ledger, calls, n - 1) + if Refused(tools, ledger, calls, n - 1) then 1 else 0
  }

  lemma OneCounts(tools: Tools, ledger: Ledger, call: Call)
    ensures var after := One(tools, ledger, call).0;
            after.used + |ledger.runs| == ledger.used + |after.runs|
              + if Fails(ledger.runs, tools.keyOf(call)) >= TOOL_REPEAT_REFUSAL_THRESHOLD then 1 else 0
  {
  }

  // The counter moves by the executions and by the refusals.
  lemma {:induction false} UsedIsRunsAndRefusals(tools: Tools, ledger: Ledger, calls: seq<Call>, n: nat)
    requires n <= |calls|
    ensures var after := After(tools, ledger, calls, n);
            after.used + |ledger.runs| == ledger.used + |after.runs| + Refusals(tools, ledger, calls, n)
  {
    if n != 0 {
      UsedIsRunsAndRefusals(tools, ledger, calls, n - 1);
      OneCounts(tools, After(tools, ledger, calls, n - 1), calls[n - 1]);
    }
  }

  lemma {:induction false} NoRefusalsIff(tools: Tools, ledger: Ledger, calls: seq<Call>, n: nat)
    requires n <= |calls|
    ensures Refusals(tools, ledger, calls, n) == 0 <==> forall i :: 0 <= i < n ==> !Refused(tools, ledger, calls, i)
  {
    if n != 0 {
      NoRefusalsIff(tools, ledger, calls, n - 1);
    }
  }

  // Refused when the counter had reached the limit.
  predicate RefusedLate(tools: Tools, ledger: Ledger, calls: seq<Call>, i: nat)
    requires i < |calls|
  {
    Refused(tools, ledger, calls, i) && After(tools, ledger, calls, i).used >= TOOL_EXECUTION_LIMIT
  }

  // Only such a refusal takes the counter past the limit.
  lemma {:induction false} PassesLimitIff(tools: Tools, ledger: Ledger, calls: seq<Call>, n: nat)
    requires n <= |calls| && ledger.used <= TOOL_EXECUTION_LIMIT
    ensures After(tools, ledger, calls, n).used > TOOL_EXECUTION_LIMIT
            <==> exists i :: 0 <= i < n && RefusedLate(tools, ledger, calls, i)
  {
    if n != 0 {
      PassesLimitIff(tools, ledger, calls, n - 1);
      if RefusedLate(tools, ledger, calls, n - 1) {
        OneCounts(tools, After(tools, ledger, calls, n - 1), calls[n - 1]);
      }
    }
  }

  // Three calls under one key that fail: two run, the third is refused.
  lemma ThirdIsRefused(tools: Tools, calls: seq<Call>, key: string)
    requires |calls| == 3 && forall c <- calls :: tools.keyOf(c) == key
    requires tools.isError(tools.execute(0, calls[0])) && tools.isError(tools.execute(1, calls[1]))
    ensures Round(tools, FRESH, calls) == Ledger([Run(key, true), Run(key, true)], 3)
    ensures Fails([Run(key, true), Run(key, true)], key) == 2
  {
    var one, two := [Run(key, true)], [Run(key, true), Run(key, true)];
    assert one[..0] == [] && two[..1] == one;
    assert Fails(one, key) == 1;
    assert calls[0] in calls && calls[1] in calls && calls[2] in calls;
    assert After(tools, FRESH, calls, 0) == FRESH;
    assert After(tools, FRESH, calls, 1) == Ledger(one, 1);
    assert After(tools, FRESH, calls, 2) == Ledger(two, 2);
  }

  // -- The dictionary the loop really keeps -----------------------------------

  // The counts of one key, summed over the error classes in a set of entries.
  ghost function Total(counts: map<(string, string), nat>, entries: set<(string, string)>, key: string): nat
    requires entries <= counts.Keys
  {
    if entries == {} then 0
    else
      var e :| e in entries;
      Share(counts, e, key) + Total(counts, entries - {e}, key)
  }

  function Share(counts: map<(string, string), nat>, entry: (string, string), key: string): nat
    requires entry in counts
  {
    if entry.0 == key then counts[entry] else 0
  }

  lemma {:induction false} TotalRemove(counts: map<(string, string), nat>, entries: set<(string, string)>,
                                       e: (string, string), key: string)
    requires e in entries && entries <= counts.Keys
    ensures Total(counts, entries, key) == Share(counts, e, key) + Total(counts, entries - {e}, key)
    decreases entries
  {
    var f :| f in entries && Total(counts, entries, key) == Share(counts, f, key) + Total(counts, entries - {f}, key);
    if f != e {
      TotalRemove(counts, entries - {f}, e, key);
      TotalRemove(counts, entries - {e}, f, key);
      assert entries - {f} - {e} == entries - {e} - {f};
    }
  }

  lemma {:induction false} TotalFrame(counts: map<(string, string), nat>, other: map<(string, string), nat>,
                                      entries: set<(string, string)>, key: string)
    requires entries <= counts.Keys && entries <= other.Keys
    requires forall e <- entries :: counts[e] == other[e]
    ensures Total(counts, entries, key) == Total(other, entries, key)
    decreases entries
  {
    if entries == {} {
      assert Total(counts, entries, key) == 0 == Total(other, entries, key);
    } else {
      var e :| e in entries && Total(counts, entries, key) == Share(counts, e, key) + Total(counts, entries - {e}, key);
      TotalRemove(other, entries, e, key);
      TotalFrame(counts, other, entries - {e}, key);
      assert Share(counts, e, key) == Share(other, e, key);
    }
  }

  // Counting one more failure of an entry adds one to its key and to no other.
  lemma TotalBump(counts: map<(string, string), nat>, entry: (string, string), key: string)
    ensures var before := if entry in counts then counts[entry] else 0;
            var after := counts[entry := before + 1];
            Total(after, after.Keys, key) == Total(counts, counts.Keys, key) + if entry.0 == key then 1 else 0
  {
    var before := if entry in counts then counts[entry] else 0;
    var after := counts[entry := before + 1];
    TotalRemove(after, after.Keys, entry, key);
    assert after.Keys - {entry} == counts.Keys - {entry};
    TotalFrame(counts, after, counts.Keys - {entry}, key);
    if entry in counts {
      TotalRemove(counts, counts.Keys, entry, key);
    } else {
      assert counts.Keys - {entry} == counts.Keys;
    }
  }

  lemma EmptyOrNot(entries: set<(string, string)>)
    ensures entries != {} ==> exists e :: e in entries
  {
    if forall e :: e !in entries {
      assert entries == {};
    }
  }

  // The first n results pair the calls' ids with these texts.
  ghost predicate Paired(results: seq<(string, string)>, calls: seq<Call>, texts: seq<string>, n: nat) {
    && |results| == n <= |calls| && n <= |texts|
    && forall i :: 0 <= i < n ==> results[i] == (calls[i].id, texts[i])
  }

  lemma PairedSnoc(results: seq<(string, string)>, tools: Tools, ledger: Ledger, calls: seq<Call>, n: nat, text: string)
    requires Paired(results, calls, Results(tools, ledger, calls), n) && n < |calls|
    requires text == ResultAt(tools, ledger, calls, n)
    ensures Paired(results + [(calls[n].id, text)], calls, Results(tools, ledger, calls), n + 1)
  {
  }

  class ToolBudget {
    var used: nat
    var executions: nat
    var repeatFailures: map<(string, string), nat>
    ghost var runs: seq<Run>

    ghost predicate Valid()
      reads this
    {
      executions == |runs| && forall key :: Agrees(key)
    }

    ghost predicate Agrees(key: string)
      reads this`repeatFailures, this`runs
    {
      Total(repeatFailures, repeatFailures.Keys, key) == Fails(runs, key)
    }

    ghost function View(): Ledger
      reads this
    {
      Ledger(runs, used)
    }

    constructor ()
      ensures Valid() && View() == FRESH
    {
      used, executions, repeatFailures, runs := 0, 0, map[], [];
    }

    method RepeatFailureCount(key: string) returns (count: nat)
      requires Valid()
      ensures count == Fails(runs, key)
    {
      assert Agrees(key);
      var entries := repeatFailures.Keys;
      count := 0;
      while entries != {}
        invariant entries <= repeatFailures.Keys
        invariant count + Total(repeatFailures, entries, key) == Total(repeatFailures, repeatFailures.Keys, key)
      {
        EmptyOrNot(entries);
        var e :| e in entries;
        TotalRemove(repeatFailures, entries, e, key);
        if e.0 == key {
          count := count + repeatFailures[e];
        }
        entries := entries - {e};
      }
    }

    method Note(key: string, failed: bool, errorClass: string)
      requires Valid()
      modifies this
      ensures Valid() && View() == Ledger(old(runs) + [Run(key, failed)], old(used) + 1)
    {
      ghost var counts := repeatFailures;
      used, executions := used + 1, executions + 1;
      if failed {
        var entry := (key, errorClass);
        repeatFailures := repeatFailures[entry := (if entry in repeatFailures then repeatFailures[entry] else 0) + 1];
      }
      runs := runs + [Run(key, failed)];
      assert runs[..|runs| - 1] == old(runs);
      forall k ensures Agrees(k) {
        assert old(Agrees(k));
        if failed {
          TotalBump(counts, (key, errorClass), k);
        }
      }
    }

    method HandleCall(tools: Tools, call: Call) returns (result: string)
      requires Valid()
      modifies this
      ensures Valid()
      ensures (View(), result) == One(tools, old(View()), call)
    {
      var key := tools.keyOf(call);
      var failures := RepeatFailureCount(key);
      if failures >= TOOL_REPEAT_REFUSAL_THRESHOLD {
        result := REFUSED_REPEAT_RESULT;
        used := used + 1;
      } else if used < TOOL_EXECUTION_LIMIT {
        result := tools.execute(executions, call);
        var failed := tools.isError(result);
        Note(key, failed, if failed then tools.errorClass(result) else "");
      } else {
        result := BUDGET_EXHAUSTED_RESULT;
      }
    }

    // One (call id, result) pair per accepted call, in order.
    method ExecuteToolCalls(tools: Tools, normalized: seq<Call>) returns (results: seq<(string, string)>)
      requires Valid()
      modifies this
      ensures Valid() && View() == Round(tools, old(View()), normalized)
      ensures results == Pairs(normalized, Results(tools, old(View()), normalized))
    {
      ghost var start := View();
      var executable := Executable(normalized);
      results := [];
      for i := 0 to executable
        invariant Valid() && View() == After(tools, start, normalized, i)
        invariant Paired(results, normalized, Results(tools, start, normalized), i)
      {
        var result := HandleCall(tools, normalized[i]);
        PairedSnoc(results, tools, start, normalized, i, result);
        results := results + [(normalized[i].id, result)];
      }
      for i := executable to |normalized|
        invariant Valid() && View() == After(tools, start, normalized, executable)
        invariant Paired(results, normalized, Results(tools, start, normalized), i)
      {
        PairedSnoc(results, tools, start, normalized, i, EXCESS_CALL_RESULT);
        results := results + [(normalized[i].id, EXCESS_CALL_RESULT)];
      }
    }
  }
}
