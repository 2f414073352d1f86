// How a message ends, read off the requests sent and the replies they got: which reply
// ends it, and what the user is then told.

module AgentOutcomes {
  import opened AgentMessages
  import opened Conversations
  import opened AgentLoop

  function ReplyTo(w: World, sent: seq<Request>, i: nat): Reply
    requires i < |sent|
  {
    w.complete(i, sent[i])
  }

  // A broken answer that is asked for again as such: not one that is retried anyway.
  predicate Reasked(w: World, sent: seq<Request>, i: nat)
    requires i < |sent|
  {
    var reply := ReplyTo(w, sent, i);
    reply.Failure? && reply.malformed && !reply.retryable
  }

  function ReaskedBefore(w: World, sent: seq<Request>, n: nat): nat
    requires n <= |sent|
  {
    if n == 0 then 0 else ReaskedBefore(w, sent, n - 1) + if Reasked(w, sent, n - 1) then 1 else 0
  }

  predicate CallsTools(w: World, sent: seq<Request>, i: nat)
    requires i < |sent|
  {
    var reply := ReplyTo(w, sent, i);
    reply.Response? && reply.calls != []
  }

  function ToolRoundsBefore(w: World, sent: seq<Request>, n: nat): nat
    requires n <= |sent|
  {
    if n == 0 then 0 else ToolRoundsBefore(w, sent, n - 1) + if CallsTools(w, sent, n - 1) then 1 else 0
  }

  predicate CallsNothing(w: World, sent: seq<Request>, i: nat)
    requires i < |sent|
  {
    var reply := ReplyTo(w, sent, i);
    reply.Response? && reply.calls == []
  }

  predicate RepairedBefore(w: World, sent: seq<Request>, n: nat)
    requires n <= |sent|
  {
    exists i: nat :: i < n && CallsNothing(w, sent, i)
  }

  // Reply i lets the message go on: a failure worth another attempt, calls of the tools
  // it was offered, or the first empty answer.
  predicate GoesOn(w: World, sent: seq<Request>, i: nat)
    requires i < |sent|
  {
    match ReplyTo(w, sent, i)
    case Failure(retryable, malformed, _) =>
      i + 1 < HTTP_ATTEMPT_LIMIT && (retryable || (malformed && ReaskedBefore(w, sent, i) < MALFORMED_RETRY_LIMIT))
    case Response(content, calls, _) =>
      sent[i].tools && (calls != [] || (w.isBlank(content) && !RepairedBefore(w, sent, i)))
  }

  // What the last reply makes of the message, by whether tools were offered with it.
  ghost predicate Settles(w: World, offered: bool, reply: Reply, outcome: Outcome) {
    && (outcome.kind.LlmError? <==> reply.Failure?)
    && (outcome.kind.Answered? <==>
          reply.Response? && !w.isBlank(reply.content) && (reply.calls == [] || !offered))
    && (outcome.kind.Empty? <==> reply.Response? && !outcome.kind.Answered? && offered)
    && (outcome.kind.NoAnswer? <==> reply.Response? && !outcome.kind.Answered? && !offered)
    && (outcome.kind.Answered? && reply.cut ==> outcome.text == reply.content + TRUNCATION_NOTICE)
    && (outcome.kind.Answered? && !reply.cut ==> outcome.text == reply.content)
    && (outcome.kind.LlmError? ==> outcome.text == FALLBACK_LLM_ERROR + reply.reason)
    && (outcome.kind.Empty? ==> outcome.text == FALLBACK_EMPTY)
    && (outcome.kind.NoAnswer? ==> outcome.text == FALLBACK_NO_ANSWER)
  }

  // Shutdown was asked for before none of the calls made, every reply but the last let
  // the message go on, and the last one settles it unless it too let it go on: then,
  // or when no call was made, shutdown was asked for before the next.
  ghost predicate Concludes(w: World, sent: seq<Request>, outcome: Outcome) {
    var k := |sent|;
    && (forall i :: 0 <= i < k ==> !w.shouldStop(i))
    && (forall i :: 0 <= i < k - 1 ==> GoesOn(w, sent, i))
    && (outcome.kind.Interrupted? <==> k == 0 || GoesOn(w, sent, k - 1))
    && (outcome.kind.Interrupted? ==> w.shouldStop(k) && outcome.text == FALLBACK_INTERRUPTED)
    && (!outcome.kind.Interrupted? ==> Settles(w, sent[k - 1].tools, ReplyTo(w, sent, k - 1), outcome))
  }

  // -- The loop's counters --------------------------------------------------------

  ghost predicate Counted(w: World, t: Turn) {
    && InLoop(t) && t.attempts == |t.sent|
    && t.malformedRetries == ReaskedBefore(w, t.sent, |t.sent|)
    && t.round == 1 + ToolRoundsBefore(w, t.sent, |t.sent|)
    && (t.emptyRepairs == 0 <==> !RepairedBefore(w, t.sent, |t.sent|))
    && (forall i :: 0 <= i < |t.sent| ==> !w.shouldStop(i) && GoesOn(w, t.sent, i))
  }

  lemma {:induction false} CountsAppend(w: World, sent: seq<Request>, request: Request, n: nat)
    requires n <= |sent|
    ensures ReaskedBefore(w, sent + [request], n) == ReaskedBefore(w, sent, n)
    ensures ToolRoundsBefore(w, sent + [request], n) == ToolRoundsBefore(w, sent, n)
  {
    if n > 0 {
      CountsAppend(w, sent, request, n - 1);
    }
  }

  lemma RepairedAppend(w: World, sent: seq<Request>, request: Request, n: nat)
    requires n <= |sent|
    ensures RepairedBefore(w, sent + [request], n) <==> RepairedBefore(w, sent, n)
    ensures RepairedBefore(w, sent + [request], |sent| + 1) <==>
            RepairedBefore(w, sent, |sent|) || CallsNothing(w, sent + [request], |sent|)
  {
    var more := sent + [request];
    assert forall i: nat :: i < |sent| ==> (CallsNothing(w, more, i) <==> CallsNothing(w, sent, i));
  }

  lemma GoesOnAppend(w: World, sent: seq<Request>, request: Request, i: nat)
    requires i < |sent|
    ensures GoesOn(w, sent + [request], i) <==> GoesOn(w, sent, i)
  {
    CountsAppend(w, sent, request, i);
    RepairedAppend(w, sent, request, i);
  }

  // The same questions asked when one more request has been sent.
  lemma OneMoreRequest(w: World, sent: seq<Request>, request: Request)
    ensures var more, k := sent + [request], |sent|;
            && ReaskedBefore(w, more, k) == ReaskedBefore(w, sent, k)
            && ToolRoundsBefore(w, more, k) == ToolRoundsBefore(w, sent, k)
            && (RepairedBefore(w, more, k) <==> RepairedBefore(w, sent, k))
            && (RepairedBefore(w, more, k + 1) <==> RepairedBefore(w, sent, k) || CallsNothing(w, more, k))
            && forall i: nat :: i < k ==> (GoesOn(w, more, i) <==> GoesOn(w, sent, i))
  {
    CountsAppend(w, sent, request, |sent|);
    RepairedAppend(w, sent, request, |sent|);
    forall i: nat | i < |sent| ensures GoesOn(w, sent + [request], i) <==> GoesOn(w, sent, i) {
      GoesOnAppend(w, sent, request, i);
    }
  }

  // The counters move with the reply just taken.
  lemma ReplyCounted(w: World, t: Turn, reply: Reply, exposed: bool)
    requires AfterReply(w, t, reply, exposed).Continue? && t.emptyRepairs <= EMPTY_REPAIR_LIMIT
    ensures var n := AfterReply(w, t, reply, exposed).turn;
            && n.sent == t.sent && n.attempts == t.attempts
            && n.malformedRetries == t.malformedRetries + (if reply.Failure? && reply.malformed && !reply.retryable then 1 else 0)
            && n.round == t.round + (if reply.Response? && reply.calls != [] then 1 else 0)
            && (n.emptyRepairs == 0 <==> t.emptyRepairs == 0 && !(reply.Response? && reply.calls == []))
  {
  }

  lemma ReplyGoesOn(w: World, t: Turn, reply: Reply, exposed: bool)
    requires AfterReply(w, t, reply, exposed).Continue?
    ensures match reply
            case Failure(retryable, malformed, _) =>
              t.attempts < HTTP_ATTEMPT_LIMIT && (retryable || (malformed && t.malformedRetries < MALFORMED_RETRY_LIMIT))
            case Response(content, calls, _) =>
              exposed && (calls != [] || (w.isBlank(content) && t.emptyRepairs < EMPTY_REPAIR_LIMIT))
  {
  }

  lemma StepCounted(w: World, t: Turn)
    requires Counted(w, t) && Step(w, t).Continue?
    ensures Counted(w, Step(w, t).turn)
  {
    var request := NextRequest(t);
    var sending := t.(attempts := t.attempts + 1, sent := t.sent + [request]);
    var reply := w.complete(t.attempts, request);
    ReplyCounted(w, sending, reply, Exposes(t));
    ReplyGoesOn(w, sending, reply, Exposes(t));
    OneMoreRequest(w, t.sent, request);
    NowCounted(w, t, request, reply, Step(w, t).turn);
  }

  lemma NowCounted(w: World, t: Turn, request: Request, reply: Reply, n: Turn)
    requires Counted(w, t) && InLoop(n) && reply == w.complete(|t.sent|, request) && !w.shouldStop(|t.sent|)
    requires n.sent == t.sent + [request] && n.attempts == t.attempts + 1
    requires n.malformedRetries == t.malformedRetries + (if reply.Failure? && reply.malformed && !reply.retryable then 1 else 0)
    requires n.round == t.round + (if reply.Response? && reply.calls != [] then 1 else 0)
    requires n.emptyRepairs == 0 <==> t.emptyRepairs == 0 && !(reply.Response? && reply.calls == [])
    requires GoesOn(w, n.sent, |t.sent|)
    ensures Counted(w, n)
  {
    OneMoreRequest(w, t.sent, request);
  }

  lemma StepConcludes(w: World, t: Turn)
    requires Counted(w, t) && Step(w, t).Done?
    ensures Concludes(w, Step(w, t).turn.sent, Step(w, t).outcome)
  {
    OneMoreRequest(w, t.sent, NextRequest(t));
  }

  lemma {:induction false} PlayConcludes(w: World, t: Turn)
    requires Counted(w, t)
    ensures Concludes(w, Play(w, t).0.sent, Play(w, t).1)
    decreases ROUND_LIMIT - t.round, EMPTY_REPAIR_LIMIT - t.emptyRepairs, AttemptsLeft(t)
  {
    if Step(w, t).Continue? {
      StepCounted(w, t);
      PlayConcludes(w, Step(w, t).turn);
    } else {
      StepConcludes(w, t);
    }
  }

  // How every message ends.
  lemma MessageConcludes(w: World, base: seq<Message>, rows: seq<Row>)
    ensures var (end, outcome) := Play(w, Start(base, rows)); Concludes(w, end.sent, outcome)
  {
    PlayConcludes(w, Start(base, rows));
  }

  // Nothing else is left open: the requests sent leave one outcome.
  lemma ConclusionIsDetermined(w: World, sent: seq<Request>, a: Outcome, b: Outcome)
    requires Concludes(w, sent, a) && Concludes(w, sent, b)
    ensures a == b
  {
  }
}
