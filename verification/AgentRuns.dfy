// What holds over a whole user message, and over any sequence of them.

module AgentRuns {
  import opened Common
  import opened AgentMessages
  import opened Conversations
  import opened ContextWindow
  import opened AgentLoop
  import L = ToolLedger

  // -- Safety of one message ---------------------------------------------------------

  // A request without its closing instruction.
  function BaseOf(request: Request): seq<Message> {
    if request.tools || request.messages == [] then request.messages else request.messages[..|request.messages| - 1]
  }

  ghost predicate RequestsOk(t: Turn) {
    && (forall i :: 0 <= i < |t.sent| ==> WellFormed(t.sent[i].messages) && BaseOf(t.sent[i]) <= t.base)
    && (forall i, j :: 0 <= i <= j < |t.sent| ==> BaseOf(t.sent[i]) <= BaseOf(t.sent[j]))
  }

  ghost predicate Safe(t: Turn) {
    && L.Sound(t.ledger) && t.ledger.used <= 14
    && WellFormed(t.base) && Stored(t.rows) && RequestsOk(t)
  }

  lemma RequestIsOk(t: Turn)
    requires Safe(t)
    ensures RequestsOk(t.(sent := t.sent + [NextRequest(t)], attempts := t.attempts + 1))
  {
    var request := NextRequest(t);
    if !request.tools {
      PlainIsWellFormed(System(FINAL_INSTRUCTION));
      WellFormedAppend(t.base, [System(FINAL_INSTRUCTION)]);
    }
    assert BaseOf(request) == t.base;
  }

  lemma BaseGrows(t: Turn, more: seq<Message>)
    requires Safe(t) && WellFormed(more)
    ensures WellFormed(t.base + more) && RequestsOk(t.(base := t.base + more))
  {
    WellFormedAppend(t.base, more);
  }

  // A tool round files one turn whose calls carry the ids minted for it.
  lemma ToolTurnIsTurn(turn: nat, text: string, calls: seq<Call>, results: seq<(string, string)>)
    requires |results| == |calls| && Minted(turn, calls)
    requires forall i :: 0 <= i < |calls| ==> results[i].0 == calls[i].id
    ensures var rows := Filed(turn, TurnMessages(text, calls, results));
            |rows| == 1 + |calls| && IsTurn(rows, 0, |rows|)
  {
    var rows := Filed(turn, TurnMessages(text, calls, results));
    forall k | 0 < k < |rows| ensures IsResult(rows, 0, k) {
      assert rows[k].message == Tool(results[k - 1].0, results[k - 1].1);
    }
  }

  lemma StoringRoundKeepsStored(w: World, t: Turn, content: string, calls: seq<Call>)
    requires Stored(t.rows)
    ensures Stored(UseTools(w, t, content, calls).rows)
  {
    var turn, normalized := NextTurn(t.rows), Normalized(w, t, calls);
    var results := Pairs(normalized, L.Results(w.tools, t.ledger, normalized));
    var guarded, texts := Guarded(w, Wire(w, normalized)), GuardedResults(w, results);
    ToolTurnIsTurn(turn, w.redact(w.redact(content)), guarded, texts);
    FilingKeepsStored(t.rows, TurnMessages(w.redact(w.redact(content)), guarded, texts));
  }

  lemma RoundIsSafe(w: World, t: Turn, content: string, calls: seq<Call>)
    requires Safe(t) && Exposes(t)
    ensures Safe(UseTools(w, t, content, calls))
  {
    var normalized := Normalized(w, t, calls);
    var results := Pairs(normalized, L.Results(w.tools, t.ledger, normalized));
    var wire := Wire(w, normalized);
    L.RoundKeepsSound(w.tools, t.ledger, normalized);
    MintedAreDistinct(NextTurn(t.rows), wire);
    TurnMessagesAreWellFormed(w.redact(content), wire, results);
    BaseGrows(t, TurnMessages(w.redact(content), wire, results));
    StoringRoundKeepsStored(w, t, content, calls);
  }

  lemma StepIsSafe(w: World, t: Turn)
    requires Safe(t)
    ensures Safe(Step(w, t).turn)
  {
    if !w.shouldStop(t.attempts) {
      var request := NextRequest(t);
      RequestIsOk(t);
      ReplyIsSafe(w, t.(attempts := t.attempts + 1, sent := t.sent + [request]), w.complete(t.attempts, request), Exposes(t));
    }
  }

  lemma ReplyIsSafe(w: World, t: Turn, reply: Reply, exposed: bool)
    requires Safe(t) && exposed == Exposes(t)
    ensures Safe(AfterReply(w, t, reply, exposed).turn)
  {
    if reply.Response? && exposed {
      if reply.calls != [] {
        RoundIsSafe(w, t, reply.content, reply.calls);
      } else {
        PlainIsWellFormed(System(EMPTY_REPAIR_INSTRUCTION));
        BaseGrows(t, [System(EMPTY_REPAIR_INSTRUCTION)]);
      }
    }
  }

  // Every request of a message is well formed and extends the one before it; at
  // most twelve calls run, the counter ends at 14 or less, no key fails more than
  // twice; and the transcript keeps its shape.
  lemma {:induction false} MessageIsSafe(w: World, t: Turn)
    requires Safe(t) && InLoop(t)
    ensures Safe(Play(w, t).0)
    decreases ROUND_LIMIT - t.round, EMPTY_REPAIR_LIMIT - t.emptyRepairs, AttemptsLeft(t)
  {
    StepIsSafe(w, t);
    if Step(w, t).Continue? {
      MessageIsSafe(w, Step(w, t).turn);
    }
  }

  // Tools are offered only while calls may still run, so a response never adds
  // more than three executions, and none after the twelfth counted call.
  lemma ExecutionsPerResponse(w: World, t: Turn)
    requires L.Sound(t.ledger) && Step(w, t).Continue?
    ensures var n := Step(w, t).turn;
            && t.ledger.runs <= n.ledger.runs
            && |n.ledger.runs| <= |t.ledger.runs| + L.MAX_TOOL_CALLS_PER_RESPONSE
            && (n.ledger != t.ledger ==> t.ledger.used < L.TOOL_EXECUTION_LIMIT && t.round <= TOOL_ROUND_LIMIT)
  {
    var reply := w.complete(t.attempts, NextRequest(t));
    if !w.shouldStop(t.attempts) && reply.Response? && reply.calls != [] {
      L.RoundKeepsSound(w.tools, t.ledger, Normalized(w, t, reply.calls));
    }
  }

  // -- How tight the bound on model calls is ---------------------------------------------

  const PROBE := Call("", "exec", "")

  // f retryable failures, one empty answer, seven tool rounds, one answer.
  function SlowWorld(f: nat): World {
    World(
      (n, request) => if n < f then Failure(true, false, "") else if n == f then Response("", [], false)
                      else if n < f + 8 then Response("", [PROBE], false) else Response("done", [], false),
      n => false,
      L.Tools((n, call) => "", text => false, text => "", call => ""),
      {}, s => s, s => s == "", s => s)
  }

  lemma {:induction false} SlowRounds(f: nat, t: Turn)
    requires InLoop(t) && 1 <= t.round && t.attempts == |t.sent| == f + t.round && t.emptyRepairs == 1
    requires t.ledger.used == t.round - 1
    ensures var end := Play(SlowWorld(f), t).0; end.attempts == |end.sent| == f + 9
    decreases ROUND_LIMIT - t.round
  {
    var w := SlowWorld(f);
    if t.round < ROUND_LIMIT {
      var next := Step(w, t).turn;
      var sending := t.(attempts := t.attempts + 1, sent := t.sent + [NextRequest(t)]);
      assert next == UseTools(w, sending, "", [PROBE]);
      OneCallCounts(w, sending);
      SlowRounds(f, next);
    }
  }

  lemma OneCallCounts(w: World, t: Turn)
    requires t.ledger.used < L.TOOL_EXECUTION_LIMIT
    ensures L.Round(w.tools, t.ledger, Normalized(w, t, [PROBE])).used == t.ledger.used + 1
  {
    var calls := Normalized(w, t, [PROBE]);
    assert L.After(w.tools, t.ledger, calls, 0) == t.ledger;
  }

  lemma {:induction false} SlowFailures(f: nat, t: Turn)
    requires f < HTTP_ATTEMPT_LIMIT && t.attempts == |t.sent| <= f
    requires t.round == 1 && t.emptyRepairs == 0 && t.ledger == L.FRESH
    ensures var end := Play(SlowWorld(f), t).0; end.attempts == |end.sent| == f + 9
    decreases f - t.attempts
  {
    var next := Step(SlowWorld(f), t).turn;
    if t.attempts < f {
      SlowFailures(f, next);
    } else {
      SlowRounds(f, next);
    }
  }

  lemma {:induction false} SlowFailsFirst(f: nat, sent: seq<Request>, n: nat)
    requires n <= |sent|
    ensures FailedCalls(SlowWorld(f), sent, n) == if n < f then n else f
  {
    if n > 0 {
      SlowFailsFirst(f, sent, n - 1);
    }
  }

  ghost function CallsMade(w: World, base: seq<Message>, rows: seq<Row>): nat {
    |Play(w, Start(base, rows)).0.sent|
  }

  ghost function CallsFailed(w: World, base: seq<Message>, rows: seq<Row>): nat {
    var sent := Play(w, Start(base, rows)).0.sent; FailedCalls(w, sent, |sent|)
  }

  // For every number of failures up to eight there is a world with exactly that many,
  // in which one message makes nine calls more: seventeen when there are eight.
  lemma SeventeenCallsHappen(f: nat, base: seq<Message>, rows: seq<Row>)
    requires f < HTTP_ATTEMPT_LIMIT
    ensures CallsMade(SlowWorld(f), base, rows) == 9 + f && CallsFailed(SlowWorld(f), base, rows) == f
  {
    SlowFailures(f, Start(base, rows));
    SlowFailsFirst(f, Play(SlowWorld(f), Start(base, rows)).0.sent, 9 + f);
  }

  // b bounds the calls of every message whose world fails at most f times.
  ghost predicate Bounds(b: nat, f: nat) {
    forall w: World, base: seq<Message>, rows: seq<Row> :: CallsFailed(w, base, rows) <= f ==> CallsMade(w, base, rows) <= b
  }

  // The least such bound is 9 + f, and 17 from eight failures on; so nine, the
  // documented limit, bounds the calls exactly when no call may fail.
  lemma CallBoundIsTight(b: nat, f: nat)
    ensures Bounds(b, f) <==> b >= 9 + (if f < 8 then f else 8)
    ensures Bounds(9, f) <==> f == 0
  {
    BoundIsLeast(b, f);
    BoundIsLeast(9, f);
  }

  lemma BoundIsLeast(b: nat, f: nat)
    ensures Bounds(b, f) <==> b >= 9 + (if f < 8 then f else 8)
  {
    var least := if f < 8 then f else 8;
    if Bounds(b, f) {
      SeventeenCallsHappen(least, [], []);
    } else {
      var w: World, base, rows :| CallsFailed(w, base, rows) <= f && CallsMade(w, base, rows) > b;
      CallsAreBounded(w, Start(base, rows));
    }
  }

  // -- What the tool counter counts --------------------------------------------------------

  // A response whose calls were handled, and the ledger it met.
  datatype Handled = Handled(ledger: L.Ledger, calls: seq<Call>)

  function HandledBy(w: World, t: Turn): seq<Handled> {
    if w.shouldStop(t.attempts) then []
    else
      var reply := w.complete(t.attempts, NextRequest(t));
      if reply.Response? && reply.calls != [] && Exposes(t) then [Handled(t.ledger, Normalized(w, t, reply.calls))] else []
  }

  // The tool rounds of the whole message.
  function ToolRounds(w: World, t: Turn): seq<Handled>
    requires InLoop(t)
    decreases ROUND_LIMIT - t.round, EMPTY_REPAIR_LIMIT - t.emptyRepairs, AttemptsLeft(t)
  {
    HandledBy(w, t) + if Step(w, t).Continue? then ToolRounds(w, Step(w, t).turn) else []
  }

  function RefusedIn(tools: L.Tools, rounds: seq<Handled>): nat {
    if rounds == [] then 0
    else L.Refusals(tools, rounds[0].ledger, rounds[0].calls, L.Executable(rounds[0].calls)) + RefusedIn(tools, rounds[1..])
  }

  // Some call of these rounds was asked for again after it had failed twice.
  ghost predicate AskedAgain(tools: L.Tools, rounds: seq<Handled>) {
    exists i, j :: 0 <= i < |rounds| && 0 <= j < L.Executable(rounds[i].calls)
                   && L.Refused(tools, rounds[i].ledger, rounds[i].calls, j)
  }

  lemma {:induction false} RefusedIff(tools: L.Tools, rounds: seq<Handled>)
    ensures RefusedIn(tools, rounds) == 0 <==> !AskedAgain(tools, rounds)
  {
    if rounds != [] {
      var first, rest := rounds[0], rounds[1..];
      L.NoRefusalsIff(tools, first.ledger, first.calls, L.Executable(first.calls));
      RefusedIff(tools, rest);
      assert AskedAgain(tools, rest) ==> AskedAgain(tools, rounds) by {
        if i, j :| 0 <= i < |rest| && 0 <= j < L.Executable(rest[i].calls)
                   && L.Refused(tools, rest[i].ledger, rest[i].calls, j) {
          assert rounds[i + 1] == rest[i];
        }
      }
      assert forall i :: 0 < i < |rounds| ==> rounds[i] == rest[i - 1];
    }
  }

  lemma StepCounts(w: World, t: Turn)
    ensures var n := Step(w, t).turn;
            n.ledger.used + |t.ledger.runs| == t.ledger.used + |n.ledger.runs| + RefusedIn(w.tools, HandledBy(w, t))
  {
    var handled := HandledBy(w, t);
    if handled != [] {
      var calls := handled[0].calls;
      L.UsedIsRunsAndRefusals(w.tools, t.ledger, calls, L.Executable(calls));
      assert handled[1..] == [];
    }
  }

  lemma {:induction false} RefusedAppend(tools: L.Tools, a: seq<Handled>, b: seq<Handled>)
    ensures RefusedIn(tools, a + b) == RefusedIn(tools, a) + RefusedIn(tools, b)
  {
    if a == [] {
      assert a + b == b;
    } else {
      RefusedAppend(tools, a[1..], b);
      assert (a + b)[1..] == a[1..] + b;
    }
  }

  lemma {:induction false} PlayCounts(w: World, t: Turn)
    requires InLoop(t)
    ensures var end := Play(w, t).0;
            end.ledger.used + |t.ledger.runs| == t.ledger.used + |end.ledger.runs| + RefusedIn(w.tools, ToolRounds(w, t))
    decreases ROUND_LIMIT - t.round, EMPTY_REPAIR_LIMIT - t.emptyRepairs, AttemptsLeft(t)
  {
    StepCounts(w, t);
    if Step(w, t).Continue? {
      PlayCounts(w, Step(w, t).turn);
      RefusedAppend(w.tools, HandledBy(w, t), ToolRounds(w, Step(w, t).turn));
    } else {
      assert HandledBy(w, t) + [] == HandledBy(w, t);
    }
  }

  lemma {:induction false} PlayKeepsSound(w: World, t: Turn)
    requires InLoop(t) && L.Sound(t.ledger) && t.ledger.used <= 14
    ensures var end := Play(w, t).0; L.Sound(end.ledger) && end.ledger.used <= 14
    decreases ROUND_LIMIT - t.round, EMPTY_REPAIR_LIMIT - t.emptyRepairs, AttemptsLeft(t)
  {
    var handled := HandledBy(w, t);
    if handled != [] {
      L.RoundKeepsSound(w.tools, t.ledger, handled[0].calls);
    }
    if Step(w, t).Continue? {
      PlayKeepsSound(w, Step(w, t).turn);
    }
  }

  // Over a whole message the counter is the executions plus the refusals. So it
  // equals the executions exactly when no call was asked for again after failing
  // twice; executions stay within twelve, the counter within fourteen.
  lemma CounterIsExact(w: World, base: seq<Message>, rows: seq<Row>)
    ensures var end, rounds := Play(w, Start(base, rows)).0, ToolRounds(w, Start(base, rows));
            && end.ledger.used == |end.ledger.runs| + RefusedIn(w.tools, rounds)
            && (end.ledger.used == |end.ledger.runs| <==> !AskedAgain(w.tools, rounds))
            && |end.ledger.runs| <= L.TOOL_EXECUTION_LIMIT && end.ledger.used <= 14
  {
    PlayCounts(w, Start(base, rows));
    RefusedIff(w.tools, ToolRounds(w, Start(base, rows)));
    PlayKeepsSound(w, Start(base, rows));
  }

  // Some call of these rounds was refused when the counter had reached twelve.
  ghost predicate RefusedPastLimit(tools: L.Tools, rounds: seq<Handled>) {
    exists i: nat, j: nat :: i < |rounds| && j < L.Executable(rounds[i].calls)
                             && L.RefusedLate(tools, rounds[i].ledger, rounds[i].calls, j)
  }

  lemma {:induction false} NoMoreRounds(w: World, t: Turn)
    requires InLoop(t) && t.ledger.used >= L.TOOL_EXECUTION_LIMIT
    ensures ToolRounds(w, t) == [] && Play(w, t).0.ledger == t.ledger
    decreases ROUND_LIMIT - t.round, EMPTY_REPAIR_LIMIT - t.emptyRepairs, AttemptsLeft(t)
  {
    if Step(w, t).Continue? {
      NoMoreRounds(w, Step(w, t).turn);
    }
  }

  lemma StepPassesIff(w: World, t: Turn)
    requires t.ledger.used <= L.TOOL_EXECUTION_LIMIT
    ensures Step(w, t).turn.ledger.used > L.TOOL_EXECUTION_LIMIT <==> RefusedPastLimit(w.tools, HandledBy(w, t))
  {
    var handled := HandledBy(w, t);
    if handled != [] {
      var calls := handled[0].calls;
      L.PassesLimitIff(w.tools, t.ledger, calls, L.Executable(calls));
    }
  }

  lemma EitherRounds(tools: L.Tools, a: seq<Handled>, b: seq<Handled>)
    ensures RefusedPastLimit(tools, a + b) <==> RefusedPastLimit(tools, a) || RefusedPastLimit(tools, b)
  {
    if i: nat, j: nat :| i < |a| && j < L.Executable(a[i].calls) && L.RefusedLate(tools, a[i].ledger, a[i].calls, j) {
      assert (a + b)[i] == a[i];
    }
    if i: nat, j: nat :| i < |b| && j < L.Executable(b[i].calls) && L.RefusedLate(tools, b[i].ledger, b[i].calls, j) {
      assert (a + b)[|a| + i] == b[i];
    }
  }

  lemma {:induction false} PlayPassesIff(w: World, t: Turn)
    requires InLoop(t) && t.ledger.used <= L.TOOL_EXECUTION_LIMIT
    ensures Play(w, t).0.ledger.used > L.TOOL_EXECUTION_LIMIT <==> RefusedPastLimit(w.tools, ToolRounds(w, t))
    decreases ROUND_LIMIT - t.round, EMPTY_REPAIR_LIMIT - t.emptyRepairs, AttemptsLeft(t)
  {
    StepPassesIff(w, t);
    if Step(w, t).Continue? {
      var next := Step(w, t).turn;
      EitherRounds(w.tools, HandledBy(w, t), ToolRounds(w, next));
      if next.ledger.used <= L.TOOL_EXECUTION_LIMIT {
        PlayPassesIff(w, next);
      } else {
        NoMoreRounds(w, next);
      }
    } else {
      assert HandledBy(w, t) + [] == HandledBy(w, t);
    }
  }

  // The counter passes the limit of twelve exactly when some call was asked for again,
  // after failing twice, at a moment when it had reached twelve already.
  lemma CounterPassesIff(w: World, base: seq<Message>, rows: seq<Row>)
    ensures Play(w, Start(base, rows)).0.ledger.used > L.TOOL_EXECUTION_LIMIT
            <==> RefusedPastLimit(w.tools, ToolRounds(w, Start(base, rows)))
  {
    PlayPassesIff(w, Start(base, rows));
  }

  // Five responses that ask for one call which keeps failing, then an answer.
  function StubbornWorld(): World {
    World(
      (n, request) => if n < 5 then Response("", if n == 3 then [PROBE, PROBE] else [PROBE, PROBE, PROBE], false)
                      else Response("done", [], false),
      n => false,
      L.Tools((n, call) => "", text => true, text => "", call => ""),
      {}, s => s, s => s == "", s => s)
  }

  const TWO_FAILURES: seq<L.Run> := [L.Run("", true), L.Run("", true)]

  // The counter before the response of a round.
  function StubbornUsed(round: nat): nat
    requires 1 <= round
  {
    if round <= 4 then 3 * (round - 1) else if round == 5 then 11 else 14
  }

  ghost predicate Stubborn(t: Turn) {
    && InLoop(t) && 1 <= t.round <= 6 && t.attempts == t.round - 1
    && t.ledger == (if t.round == 1 then L.FRESH else L.Ledger(TWO_FAILURES, StubbornUsed(t.round)))
  }

  lemma StubbornStep(t: Turn)
    requires Stubborn(t) && t.round < 6
    ensures Step(StubbornWorld(), t).Continue? && Stubborn(Step(StubbornWorld(), t).turn)
    ensures Step(StubbornWorld(), t).turn.round == t.round + 1
  {
    var w := StubbornWorld();
    var sending := t.(attempts := t.attempts + 1, sent := t.sent + [NextRequest(t)]);
    var asked := if t.attempts == 3 then [PROBE, PROBE] else [PROBE, PROBE, PROBE];
    var calls := Normalized(w, sending, asked);
    assert Step(w, t) == Continue(UseTools(w, sending, "", asked));
    if t.round == 1 {
      L.ThirdIsRefused(w.tools, calls, "");
    } else {
      TwoFailures();
      L.RefusalsCount(w.tools, t.ledger, calls, |calls|);
    }
  }

  lemma TwoFailures()
    ensures L.Fails(TWO_FAILURES, "") == 2
  {
    assert TWO_FAILURES[..1] == [L.Run("", true)] && [L.Run("", true)][..0] == [];
    assert L.Fails([L.Run("", true)], "") == 1;
  }

  lemma {:induction false} StubbornPlay(t: Turn)
    requires Stubborn(t)
    ensures Play(StubbornWorld(), t).0.ledger == L.Ledger(TWO_FAILURES, 14)
    decreases 6 - t.round
  {
    if t.round < 6 {
      StubbornStep(t);
      StubbornPlay(Step(StubbornWorld(), t).turn);
    }
  }

  // The counter can end at fourteen, past the limit of twelve: here with only two
  // executions.
  lemma CounterReachesFourteen(base: seq<Message>, rows: seq<Row>)
    ensures var end := Play(StubbornWorld(), Start(base, rows)).0; end.ledger.used == 14 && |end.ledger.runs| == 2
  {
    StubbornPlay(Start(base, rows));
  }

  // -- Any sequence of messages -----------------------------------------------------------

  datatype Action =
    | Say(text: string, redact: string -> string)
    | Serve(world: World, prompt: string, limit: nat, budget: Budget, rules: Option<StubRules>, line: string)

  ghost function Opening(rows: seq<Row>, a: Action): Turn
    requires a.Serve?
  {
    Start([System(a.prompt)] + History(rows, a.limit, a.budget, a.rules, a.line), rows)
  }

  function Answer(rows: seq<Row>, text: string): seq<Row> {
    rows + Filed(NextTurn(rows), [Assistant(text, [])])
  }

  ghost function Apply(rows: seq<Row>, a: Action): seq<Row> {
    match a
    case Say(text, redact) => rows + Filed(NextTurn(rows), [User(redact(text))])
    case Serve(w, _, _, _, _, _) =>
      var (end, outcome) := Play(w, Opening(rows, a));
      Answer(end.rows, w.redact(w.redact(outcome.text)))
  }

  // The transcript after any sequence of user messages and answers.
  ghost function Session(actions: seq<Action>): seq<Row> {
    if actions == [] then [] else Apply(Session(actions[..|actions| - 1]), actions[|actions| - 1])
  }

  lemma PlainKeepsStored(rows: seq<Row>, message: Message)
    requires Stored(rows) && (message.User? || (message.Assistant? && message.calls == []))
    ensures Stored(rows + Filed(NextTurn(rows), [message]))
  {
    FilingKeepsStored(rows, [message]);
  }

  lemma OpeningIsSafe(rows: seq<Row>, a: Action)
    requires Stored(rows) && a.Serve?
    ensures Safe(Opening(rows, a))
  {
    HistoryIsWellFormed(rows, a.limit, a.budget, a.rules, a.line);
    PlainIsWellFormed(System(a.prompt));
    WellFormedAppend([System(a.prompt)], History(rows, a.limit, a.budget, a.rules, a.line));
  }

  lemma ApplyKeepsStored(rows: seq<Row>, a: Action)
    requires Stored(rows)
    ensures Stored(Apply(rows, a))
  {
    match a
    case Say(text, redact) =>
      PlainKeepsStored(rows, User(redact(text)));
    case Serve(w, _, _, _, _, _) =>
      OpeningIsSafe(rows, a);
      MessageIsSafe(w, Opening(rows, a));
      var (end, outcome) := Play(w, Opening(rows, a));
      PlainKeepsStored(end.rows, Assistant(w.redact(w.redact(outcome.text)), []));
  }

  lemma {:induction false} SessionIsStored(actions: seq<Action>)
    ensures Stored(Session(actions))
  {
    if actions != [] {
      SessionIsStored(actions[..|actions| - 1]);
      ApplyKeepsStored(Session(actions[..|actions| - 1]), actions[|actions| - 1]);
    }
  }

  // Over any sequence of user messages and answers, whatever the model and the
  // tools return: every request of the next answer is well formed and extends the
  // earlier ones, and at most twelve tool calls run for it.
  lemma EveryRequestIsWellFormed(actions: seq<Action>, a: Action)
    requires a.Serve?
    ensures var end := Play(a.world, Opening(Session(actions), a)).0;
            RequestsOk(end) && L.Sound(end.ledger) && end.ledger.used <= 14
  {
    SessionIsStored(actions);
    OpeningIsSafe(Session(actions), a);
    MessageIsSafe(a.world, Opening(Session(actions), a));
  }

  // And two tool calls of the transcript share an id only if they are the same.
  lemma SessionIdsAreUnique(actions: seq<Action>, i: nat, c: nat, j: nat, d: nat)
    requires var rows := Session(actions);
             && i < |rows| && rows[i].message.Assistant? && c < |rows[i].message.calls|
             && j < |rows| && rows[j].message.Assistant? && d < |rows[j].message.calls|
    ensures var rows := Session(actions);
            rows[i].message.calls[c].id == rows[j].message.calls[d].id <==> (i, c) == (j, d)
  {
    SessionIsStored(actions);
    if (i, c) != (j, d) {
      CallIdsAreUnique(Session(actions), i, c, j, d);
    }
  }
}
