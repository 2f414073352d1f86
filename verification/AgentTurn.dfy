// The loop as it runs: local counters, a growing message list, the failure
// dictionary and the stored conversation, all updated in place.

module AgentTurn {
  import opened Common
  import opened AgentMessages
  import opened Conversations
  import opened ContextWindow
  import opened AgentLoop
  import opened AgentOutcomes
  import L = ToolLedger

  method Finish(world: World, conversation: Conversation, text: string, kind: Kind) returns (outcome: Outcome)
    modifies conversation
    ensures outcome == Outcome(world.redact(text), kind)
    ensures conversation.rows ==
            old(conversation.rows) + Filed(old(NextTurn(conversation.rows)), [Assistant(world.redact(world.redact(text)), [])])
  {
    var redacted := world.redact(text);
    var turn := conversation.AddSingleRow(Assistant(world.redact(redacted), []));
    outcome := Outcome(redacted, kind);
  }

  // One response that calls tools. `t` is the turn as the specification sees it
  // just after the call was made.
  method ToolRound(world: World, conversation: Conversation, budget: L.ToolBudget, messages: seq<Message>,
                   content: string, calls: seq<Call>, ghost t: Turn)
    returns (extended: seq<Message>)
    requires budget.Valid()
    requires t.base == messages && t.rows == conversation.rows && t.ledger == budget.View()
    modifies conversation, budget
    ensures budget.Valid()
    ensures var after := UseTools(world, t, content, calls);
            after.base == extended && after.rows == conversation.rows && after.ledger == budget.View()
  {
    var turn := conversation.ReadNextTurn();
    var normalized := Normalize(calls, turn, world.strip);
    var results := budget.ExecuteToolCalls(world.tools, normalized);
    var text, wire := world.redact(content), Wire(world, normalized);
    var done := conversation.AddToolTurn(world.redact(text), Guarded(world, wire), GuardedResults(world, results), |results| + 1);
    extended := messages + TurnMessages(text, wire, results);
  }

  // What a reply does to the loop's variables: a verdict that ends the loop, or
  // new values for the next pass.
  method TakeReply(world: World, conversation: Conversation, budget: L.ToolBudget, reply: Reply, expose: bool,
                   messages: seq<Message>, round: nat, attempts: nat, malformed: nat, repairs: nat, ghost t: Turn)
    returns (verdict: Option<Outcome>, messages': seq<Message>, round': nat, malformed': nat, repairs': nat)
    requires budget.Valid() && t.rows == conversation.rows && t.ledger == budget.View() && t.base == messages
    requires t.round == round && t.attempts == attempts && t.malformedRetries == malformed && t.emptyRepairs == repairs
    modifies conversation, budget
    ensures budget.Valid()
    ensures verdict.Some? ==> AfterReply(world, t, reply, expose) == Done(t, verdict.value)
    ensures verdict.Some? ==> Settles(world, expose, reply, verdict.value)
    ensures verdict.Some? ==> conversation.rows == old(conversation.rows)
    ensures verdict.None? ==>
              var next := AfterReply(world, t, reply, expose);
              && next.Continue? && next.turn.rows == conversation.rows && next.turn.ledger == budget.View()
              && next.turn.base == messages' && next.turn.round == round' && next.turn.malformedRetries == malformed'
              && next.turn.emptyRepairs == repairs' && next.turn.attempts == attempts && next.turn.sent == t.sent
  {
    verdict, messages', round', malformed', repairs' := None, messages, round, malformed, repairs;
    match reply {
      case Failure(retryable, isMalformed, reason) =>
        if retryable && attempts < HTTP_ATTEMPT_LIMIT {
        } else if isMalformed && malformed < MALFORMED_RETRY_LIMIT && attempts < HTTP_ATTEMPT_LIMIT {
          malformed' := malformed + 1;
        } else {
          verdict := Some(Outcome(FALLBACK_LLM_ERROR + reason, LlmError));
        }
      case Response(content, calls, cut) =>
        var hasContent := !world.isBlank(content);
        if calls == [] {
          if hasContent {
            verdict := Some(Outcome(Notice(reply), Answered));
          } else if !expose {
            verdict := Some(Outcome(FALLBACK_NO_ANSWER, NoAnswer));
          } else if repairs < EMPTY_REPAIR_LIMIT {
            messages' := messages + [System(EMPTY_REPAIR_INSTRUCTION)];
            repairs' := repairs + 1;
          } else {
            verdict := Some(Outcome(FALLBACK_EMPTY, Empty));
          }
        } else if !expose {
          verdict := Some(if hasContent then Outcome(Notice(reply), Answered) else Outcome(FALLBACK_NO_ANSWER, NoAnswer));
        } else {
          messages' := ToolRound(world, conversation, budget, messages, content, calls, t);
          round' := round + 1;
        }
    }
  }

  lemma PassOfLoop(w: World, t: Turn, request: Request, reply: Reply, exposed: bool, called: Turn)
    requires InLoop(t) && !w.shouldStop(t.attempts) && exposed == Exposes(t) && request == NextRequest(t)
    requires reply == w.complete(t.attempts, request)
    requires called == t.(attempts := t.attempts + 1, sent := t.sent + [request])
    ensures Step(w, t) == AfterReply(w, called, reply, exposed)
  {
  }

  lemma LoopGoesOn(w: World, t: Turn, n: Turn)
    requires InLoop(t) && Step(w, t) == Continue(n)
    ensures InLoop(n) && Play(w, t) == Play(w, n)
    ensures || n.round > t.round
            || (n.round == t.round && n.emptyRepairs > t.emptyRepairs)
            || (n.round == t.round && n.emptyRepairs == t.emptyRepairs && AttemptsLeft(n) < AttemptsLeft(t))
  {
    StepDescends(w, t);
  }

  lemma LoopEnds(w: World, t: Turn, end: Turn, outcome: Outcome)
    requires InLoop(t) && Step(w, t) == Done(end, outcome)
    ensures Play(w, t) == (end, outcome)
  {
  }

  method RunAgentTurn(world: World, conversation: Conversation, prompt: string, limit: nat, budgetTokens: Budget,
                      rules: Option<StubRules>, line: string)
    returns (outcome: Outcome, sent: seq<Request>)
    modifies conversation
    ensures var rows := old(conversation.rows);
            var opening := Start([System(prompt)] + History(rows, limit, budgetTokens, rules, line), rows);
            var (end, verdict) := Play(world, opening);
            && sent == end.sent && outcome == Outcome(world.redact(verdict.text), verdict.kind)
            && conversation.rows == end.rows + Filed(NextTurn(end.rows), [Assistant(world.redact(outcome.text), [])])
            && Concludes(world, sent, Outcome(verdict.text, outcome.kind))
  {
    var history := LoadContextMessages(conversation.rows, limit, budgetTokens, rules, line);
    var messages := [System(prompt)] + history;
    ghost var opening := Start(messages, conversation.rows);
    MessageConcludes(world, messages, conversation.rows);
    var budget := new L.ToolBudget();
    var round: nat, attempts: nat, malformed: nat, repairs: nat := 1, 0, 0, 0;
    sent := [];
    ghost var end := opening;

    while round <= ROUND_LIMIT
      invariant budget.Valid() && fresh(budget)
      invariant end.base == messages && end.rows == conversation.rows && end.ledger == budget.View()
      invariant end.round == round && end.attempts == attempts && end.sent == sent
      invariant end.malformedRetries == malformed && end.emptyRepairs == repairs
      invariant InLoop(end) && Play(world, opening) == Play(world, end)
      decreases ROUND_LIMIT - round, EMPTY_REPAIR_LIMIT - repairs, AttemptsLeft(end)
    {
      ghost var before := end;
      if world.shouldStop(attempts) {
        LoopEnds(world, end, end, Outcome(FALLBACK_INTERRUPTED, Interrupted));
        outcome := Finish(world, conversation, FALLBACK_INTERRUPTED, Interrupted);
        return;
      }
      var expose := round <= TOOL_ROUND_LIMIT && budget.used < L.TOOL_EXECUTION_LIMIT;
      var request := if expose then Request(messages, true) else Request(messages + [System(FINAL_INSTRUCTION)], false);
      var reply := world.complete(attempts, request);
      attempts := attempts + 1;
      sent := sent + [request];
      ghost var called := end.(attempts := attempts, sent := sent);
      PassOfLoop(world, before, request, reply, expose, called);
      var verdict;
      verdict, messages, round, malformed, repairs :=
        TakeReply(world, conversation, budget, reply, expose, messages, round, attempts, malformed, repairs, called);
      end := AfterReply(world, called, reply, expose).turn;
      if verdict.None? {
        LoopGoesOn(world, before, end);
      } else {
        LoopEnds(world, before, end, verdict.value);
        outcome := Finish(world, conversation, verdict.value.text, verdict.value.kind);
        return;
      }
    }
    assert false;
  }
}
