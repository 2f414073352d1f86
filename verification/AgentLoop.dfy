// One user message through the bounded agent loop: model calls, retries, tool
// rounds, the transcript it writes and the requests it sends.

module AgentLoop {
  import opened AgentMessages
  import opened Conversations
  import L = ToolLedger

  const ROUND_LIMIT: nat := 8
  const TOOL_ROUND_LIMIT: nat := 7
  const HTTP_ATTEMPT_LIMIT: nat := 9
  const MALFORMED_RETRY_LIMIT: nat := 2
  const EMPTY_REPAIR_LIMIT: nat := 1

  const FINAL_INSTRUCTION := "Tool use is finished."
  const EMPTY_REPAIR_INSTRUCTION := "Your previous response was empty."
  const TRUNCATION_NOTICE := "\n\n[answer truncated by the model's output token limit]"
  const FALLBACK_EMPTY := "The model returned an empty answer."
  const FALLBACK_NO_ANSWER := "I could not produce an answer within the allowed number of steps."
  const FALLBACK_LLM_ERROR := "The language model is unavailable right now: "
  const FALLBACK_INTERRUPTED := "The bot is shutting down; this request was interrupted."

  datatype Request = Request(messages: seq<Message>, tools: bool)

  datatype Reply =
    | Failure(retryable: bool, malformed: bool, reason: string)
    | Response(content: string, calls: seq<Call>, cut: bool)

  // Everything the loop meets from outside: the n-th model call for this
  // message, whether shutdown was asked for before it, the tools, and the string
  // helpers it relies on.
  datatype World = World(
    complete: (nat, Request) -> Reply,
    shouldStop: nat -> bool,
    tools: L.Tools,
    known: set<string>,
    strip: string -> string,
    isBlank: string -> bool,
    redact: string -> string)

  datatype Kind = Answered | Empty | NoAnswer | LlmError | Interrupted
  datatype Outcome = Outcome(text: string, kind: Kind)

  // The loop's variables, the transcript so far and the requests already sent.
  datatype Turn = Turn(
    base: seq<Message>,
    rows: seq<Row>,
    ledger: L.Ledger,
    round: nat,
    attempts: nat,
    malformedRetries: nat,
    emptyRepairs: nat,
    sent: seq<Request>)

  function Start(base: seq<Message>, rows: seq<Row>): Turn {
    Turn(base, rows, L.FRESH, 1, 0, 0, 0, [])
  }

  predicate Exposes(t: Turn) {
    t.round <= TOOL_ROUND_LIMIT && t.ledger.used < L.TOOL_EXECUTION_LIMIT
  }

  function NextRequest(t: Turn): Request {
    if Exposes(t) then Request(t.base, true) else Request(t.base + [System(FINAL_INSTRUCTION)], false)
  }

  function Notice(reply: Reply): string
    requires reply.Response?
  {
    if reply.cut then reply.content + TRUNCATION_NOTICE else reply.content
  }

  // Calls as they are stored and sent back: vetted name, redacted arguments.
  function Wire(w: World, calls: seq<Call>): (wire: seq<Call>)
    ensures |wire| == |calls| && forall i :: 0 <= i < |calls| ==> wire[i].id == calls[i].id
  {
    seq(|calls|, i requires 0 <= i < |calls| =>
      Call(calls[i].id, if calls[i].name in w.known then calls[i].name else "unknown", w.redact(calls[i].arguments)))
  }

  // The second redaction, done by the store on what it is handed.
  function Guarded(w: World, calls: seq<Call>): (guarded: seq<Call>)
    ensures |guarded| == |calls| && forall i :: 0 <= i < |calls| ==> guarded[i].id == calls[i].id
  {
    seq(|calls|, i requires 0 <= i < |calls| => calls[i].(arguments := w.redact(calls[i].arguments)))
  }

  function GuardedResults(w: World, results: seq<(string, string)>): (guarded: seq<(string, string)>)
    ensures |guarded| == |results| && forall i :: 0 <= i < |results| ==> guarded[i].0 == results[i].0
  {
    seq(|results|, i requires 0 <= i < |results| => (results[i].0, w.redact(results[i].1)))
  }

  function Normalized(w: World, t: Turn, calls: seq<Call>): seq<Call> {
    Normalize(calls, NextTurn(t.rows), w.strip)
  }

  // A tool round: run the calls, store the turn, extend the next request.
  function UseTools(w: World, t: Turn, content: string, calls: seq<Call>): Turn {
    var normalized := Normalized(w, t, calls);
    var results := Pairs(normalized, L.Results(w.tools, t.ledger, normalized));
    var wire, text := Wire(w, normalized), w.redact(content);
    t.(base := t.base + TurnMessages(text, wire, results),
       rows := t.rows + Filed(NextTurn(t.rows), TurnMessages(w.redact(text), Guarded(w, wire), GuardedResults(w, results))),
       ledger := L.Round(w.tools, t.ledger, normalized),
       round := t.round + 1)
  }

  datatype Next = Continue(turn: Turn) | Done(turn: Turn, outcome: Outcome)

  function AfterReply(w: World, t: Turn, reply: Reply, exposed: bool): Next {
    match reply
    case Failure(retryable, malformed, reason) =>
      if retryable && t.attempts < HTTP_ATTEMPT_LIMIT then Continue(t)
      else if malformed && t.malformedRetries < MALFORMED_RETRY_LIMIT && t.attempts < HTTP_ATTEMPT_LIMIT then
        Continue(t.(malformedRetries := t.malformedRetries + 1))
      else Done(t, Outcome(FALLBACK_LLM_ERROR + reason, LlmError))
    case Response(content, calls, cut) =>
      if calls == [] then
        if !w.isBlank(content) then Done(t, Outcome(Notice(reply), Answered))
        else if !exposed then Done(t, Outcome(FALLBACK_NO_ANSWER, NoAnswer))
        else if t.emptyRepairs < EMPTY_REPAIR_LIMIT then
          Continue(t.(base := t.base + [System(EMPTY_REPAIR_INSTRUCTION)], emptyRepairs := t.emptyRepairs + 1))
        else Done(t, Outcome(FALLBACK_EMPTY, Empty))
      else if !exposed then
        Done(t, if !w.isBlank(content) then Outcome(Notice(reply), Answered) else Outcome(FALLBACK_NO_ANSWER, NoAnswer))
      else Continue(UseTools(w, t, content, calls))
  }

  // One pass of the loop.
  function Step(w: World, t: Turn): Next {
    if w.shouldStop(t.attempts) then Done(t, Outcome(FALLBACK_INTERRUPTED, Interrupted))
    else
      var request := NextRequest(t);
      AfterReply(w, t.(attempts := t.attempts + 1, sent := t.sent + [request]), w.complete(t.attempts, request), Exposes(t))
  }

  function AttemptsLeft(t: Turn): nat {
    if t.attempts < HTTP_ATTEMPT_LIMIT then HTTP_ATTEMPT_LIMIT - t.attempts else 0
  }

  predicate InLoop(t: Turn) {
    t.round <= ROUND_LIMIT && t.emptyRepairs <= EMPTY_REPAIR_LIMIT
  }

  // A pass that continues stays within the rounds and lowers (rounds left,
  // repairs left, attempts left): the statement after the loop is never reached.
  lemma StepDescends(w: World, t: Turn)
    requires InLoop(t) && Step(w, t).Continue?
    ensures var n := Step(w, t).turn;
            && InLoop(n)
            && (n.round, n.emptyRepairs, n.attempts) !=  (t.round, t.emptyRepairs, t.attempts)
            && (|| n.round > t.round
                || (n.round == t.round && n.emptyRepairs > t.emptyRepairs)
                || (n.round == t.round && n.emptyRepairs == t.emptyRepairs && AttemptsLeft(n) < AttemptsLeft(t)))
  {
  }

  // The whole loop.
  function Play(w: World, t: Turn): (Turn, Outcome)
    requires InLoop(t)
    decreases ROUND_LIMIT - t.round, EMPTY_REPAIR_LIMIT - t.emptyRepairs, AttemptsLeft(t)
  {
    var next := Step(w, t);
    if next.Done? then (next.turn, next.outcome) else Play(w, next.turn)
  }

  // -- How many model calls -------------------------------------------------------

  predicate Failed(w: World, sent: seq<Request>, i: nat)
    requires i < |sent|
  {
    w.complete(i, sent[i]).Failure?
  }

  function FailedCalls(w: World, sent: seq<Request>, n: nat): (f: nat)
    requires n <= |sent|
    ensures f <= n
  {
    if n == 0 then 0 else FailedCalls(w, sent, n - 1) + if Failed(w, sent, n - 1) then 1 else 0
  }

  lemma {:induction false} FailedCallsAppend(w: World, sent: seq<Request>, request: Request, n: nat)
    requires n <= |sent|
    ensures FailedCalls(w, sent + [request], n) == FailedCalls(w, sent, n)
  {
    if n > 0 {
      FailedCallsAppend(w, sent, request, n - 1);
    }
  }

  // Every call already made was a failure that was retried, a tool round or the
  // repair; and no retry follows a ninth or later attempt.
  ghost predicate Accounted(w: World, t: Turn) {
    && InLoop(t) && 1 <= t.round && t.malformedRetries <= MALFORMED_RETRY_LIMIT
    && t.attempts == |t.sent|
    && t.attempts == FailedCalls(w, t.sent, |t.sent|) + (t.round - 1) + t.emptyRepairs
    && forall i :: 0 <= i < |t.sent| && Failed(w, t.sent, i) ==> i + 1 < HTTP_ATTEMPT_LIMIT
  }

  lemma {:induction false} FewFailures(w: World, sent: seq<Request>, n: nat)
    requires n <= |sent| && forall i :: 0 <= i < n && Failed(w, sent, i) ==> i + 1 < HTTP_ATTEMPT_LIMIT
    ensures FailedCalls(w, sent, n) < HTTP_ATTEMPT_LIMIT
  {
    if n >= HTTP_ATTEMPT_LIMIT {
      FewFailures(w, sent, n - 1);
    }
  }

  lemma OneMoreCall(w: World, sent: seq<Request>, request: Request)
    requires forall i :: 0 <= i < |sent| && Failed(w, sent, i) ==> i + 1 < HTTP_ATTEMPT_LIMIT
    ensures var more, failed := sent + [request], w.complete(|sent|, request).Failure?;
            && FailedCalls(w, more, |more|) == FailedCalls(w, sent, |sent|) + (if failed then 1 else 0)
            && ((failed ==> |more| < HTTP_ATTEMPT_LIMIT) ==>
                  forall i :: 0 <= i < |more| && Failed(w, more, i) ==> i + 1 < HTTP_ATTEMPT_LIMIT)
            && forall i :: 0 <= i < |sent| && Failed(w, more, i) ==> i + 1 < HTTP_ATTEMPT_LIMIT
  {
    var more := sent + [request];
    FailedCallsAppend(w, sent, request, |sent|);
    assert forall i :: 0 <= i < |sent| && Failed(w, more, i) ==> Failed(w, sent, i);
  }

  lemma StepAccounts(w: World, t: Turn)
    requires Accounted(w, t) && Step(w, t).Continue?
    ensures Accounted(w, Step(w, t).turn)
  {
    var n, request := Step(w, t).turn, NextRequest(t);
    assert n.sent == t.sent + [request] && n.attempts == t.attempts + 1;
    OneMoreCall(w, t.sent, request);
  }

  // At most 17 model calls for one user message: 8 retried failures, 7 tool
  // rounds, one repair and a last call. At most 9 more than the calls that fail. A
  // failure at the ninth or a later attempt is never retried.
  lemma {:induction false} CallsAreBounded(w: World, t: Turn)
    requires Accounted(w, t)
    ensures var (end, outcome) := Play(w, t);
            && end.attempts == |end.sent| <= 17
            && end.malformedRetries <= MALFORMED_RETRY_LIMIT
            && end.attempts <= 9 + FailedCalls(w, end.sent, |end.sent|)
            && forall i :: 0 <= i < |end.sent| - 1 && Failed(w, end.sent, i) ==> i + 1 < HTTP_ATTEMPT_LIMIT
    decreases ROUND_LIMIT - t.round, EMPTY_REPAIR_LIMIT - t.emptyRepairs, AttemptsLeft(t)
  {
    if Step(w, t).Continue? {
      StepAccounts(w, t);
      CallsAreBounded(w, Step(w, t).turn);
    } else {
      LastCall(w, t);
    }
  }

  lemma LastCall(w: World, t: Turn)
    requires Accounted(w, t) && Step(w, t).Done?
    ensures var end := Step(w, t).turn;
            && end.attempts == |end.sent| <= 17
            && end.malformedRetries <= MALFORMED_RETRY_LIMIT
            && end.attempts <= 9 + FailedCalls(w, end.sent, |end.sent|)
            && forall i :: 0 <= i < |end.sent| - 1 && Failed(w, end.sent, i) ==> i + 1 < HTTP_ATTEMPT_LIMIT
  {
    var end, request := Step(w, t).turn, NextRequest(t);
    FewFailures(w, t.sent, |t.sent|);
    assert end.sent == t.sent || end.sent == t.sent + [request];
    OneMoreCall(w, t.sent, request);
  }
}
