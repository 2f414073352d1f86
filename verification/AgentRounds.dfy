// What the model's tool calls come to over a whole message: which are executed, what
// the next request says about them, and what is stored.

module AgentRounds {
  import opened AgentMessages
  import opened Conversations
  import opened AgentLoop
  import opened AgentRuns
  import opened AgentOutcomes
  import L = ToolLedger

  // -- The passes of the loop ----------------------------------------------------

  // The turn as each pass of the loop finds it.
  function Passes(w: World, t: Turn): (ps: seq<Turn>)
    requires InLoop(t)
    ensures ps != [] && ps[0] == t
    decreases ROUND_LIMIT - t.round, EMPTY_REPAIR_LIMIT - t.emptyRepairs, AttemptsLeft(t)
  {
    [t] + if Step(w, t).Continue? then Passes(w, Step(w, t).turn) else []
  }

  // Calls made in reply to earlier requests that stood among the first three of
  // their response.
  function CallsBefore(w: World, sent: seq<Request>, n: nat): nat
    requires n <= |sent|
  {
    if n == 0 then 0
    else CallsBefore(w, sent, n - 1) + if CallsTools(w, sent, n - 1) then Admitted(ReplyTo(w, sent, n - 1).calls) else 0
  }

  function Admitted(calls: seq<Call>): nat {
    if |calls| < L.MAX_TOOL_CALLS_PER_RESPONSE then |calls| else L.MAX_TOOL_CALLS_PER_RESPONSE
  }

  function Accepted(calls: seq<Call>): nat {
    if |calls| < MAX_TOOL_CALLS_ACCEPTED then |calls| else MAX_TOOL_CALLS_ACCEPTED
  }

  // The counter is the number of such calls until both have reached the limit.
  ghost predicate Agree(used: nat, calls: nat) {
    used == calls || (used >= L.TOOL_EXECUTION_LIMIT && calls >= L.TOOL_EXECUTION_LIMIT)
  }

  // What holds whenever a pass begins, in a message whose first turn has number `first`.
  ghost predicate OnPass(w: World, t: Turn, first: nat) {
    && Counted(w, t)
    && NextTurn(t.rows) == first + ToolRoundsBefore(w, t.sent, |t.sent|)
    && Agree(t.ledger.used, CallsBefore(w, t.sent, |t.sent|))
  }

  lemma FilingTakesNextTurn(rows: seq<Row>, messages: seq<Message>)
    requires messages != []
    ensures NextTurn(rows + Filed(NextTurn(rows), messages)) == NextTurn(rows) + 1
  {
    var more := rows + Filed(NextTurn(rows), messages);
    MaxTurnBounds(rows);
    MaxTurnBounds(more);
    assert more[|more| - 1].turn == NextTurn(rows);
    assert forall i :: 0 <= i < |rows| ==> more[i] == rows[i];
  }

  lemma {:induction false} CallsAgree(tools: L.Tools, ledger: L.Ledger, calls: seq<Call>, before: nat, n: nat)
    requires n <= |calls| && Agree(ledger.used, before)
    ensures Agree(L.After(tools, ledger, calls, n).used, before + n)
  {
    if n > 0 {
      CallsAgree(tools, ledger, calls, before, n - 1);
    }
  }

  lemma {:induction false} CallsBeforePrefix(w: World, sent: seq<Request>, more: seq<Request>, n: nat)
    requires n <= |sent| && sent <= more
    ensures CallsBefore(w, more, n) == CallsBefore(w, sent, n)
    ensures ToolRoundsBefore(w, more, n) == ToolRoundsBefore(w, sent, n)
  {
    if n > 0 {
      CallsBeforePrefix(w, sent, more, n - 1);
    }
  }

  lemma RoundOnPass(w: World, t: Turn, content: string, calls: seq<Call>)
    ensures var after := UseTools(w, t, content, calls);
            && NextTurn(after.rows) == NextTurn(t.rows) + 1
            && forall before: nat :: Agree(t.ledger.used, before) ==> Agree(after.ledger.used, before + Admitted(calls))
  {
    var normalized := Normalized(w, t, calls);
    var results := Pairs(normalized, L.Results(w.tools, t.ledger, normalized));
    FilingTakesNextTurn(t.rows, TurnMessages(w.redact(w.redact(content)), Guarded(w, Wire(w, normalized)), GuardedResults(w, results)));
    forall before: nat | Agree(t.ledger.used, before)
      ensures Agree(L.Round(w.tools, t.ledger, normalized).used, before + Admitted(calls))
    {
      CallsAgree(w.tools, t.ledger, normalized, before, L.Executable(normalized));
    }
  }

  // A pass that continues without calling tools files nothing and runs nothing.
  lemma QuietStep(w: World, t: Turn)
    requires t.attempts == |t.sent| && Step(w, t).Continue?
    ensures var n := Step(w, t).turn;
            && n.sent == t.sent + [NextRequest(t)]
            && (!CallsTools(w, n.sent, |t.sent|) ==> n.rows == t.rows && n.ledger == t.ledger)
            && (CallsTools(w, n.sent, |t.sent|) ==>
                  var reply := ReplyTo(w, n.sent, |t.sent|);
                  n == UseTools(w, t.(attempts := t.attempts + 1, sent := n.sent), reply.content, reply.calls))
  {
  }

  lemma StepOnPass(w: World, t: Turn, first: nat)
    requires OnPass(w, t, first) && Step(w, t).Continue?
    ensures OnPass(w, Step(w, t).turn, first)
  {
    var n := Step(w, t).turn;
    QuietStep(w, t);
    StepCounted(w, t);
    CallsBeforePrefix(w, t.sent, n.sent, |t.sent|);
    if CallsTools(w, n.sent, |t.sent|) {
      var reply := ReplyTo(w, n.sent, |t.sent|);
      RoundOnPass(w, t.(attempts := t.attempts + 1, sent := n.sent), reply.content, reply.calls);
    }
  }

  lemma {:induction false} AfterGrows(tools: L.Tools, ledger: L.Ledger, calls: seq<Call>, n: nat, m: nat)
    requires n <= m <= |calls|
    ensures L.After(tools, ledger, calls, n).runs <= L.After(tools, ledger, calls, m).runs
    decreases m
  {
    if n < m {
      AfterGrows(tools, ledger, calls, n, m - 1);
      OneGrows(tools, L.After(tools, ledger, calls, m - 1), calls[m - 1]);
    }
  }

  lemma OneGrows(tools: L.Tools, ledger: L.Ledger, call: Call)
    ensures ledger.runs <= L.One(tools, ledger, call).0.runs
  {
  }

  lemma StepGrows(w: World, t: Turn)
    requires t.attempts == |t.sent|
    ensures var n := Step(w, t).turn;
            && t.sent <= n.sent && t.ledger.runs <= n.ledger.runs
            && (n.sent == t.sent || n.sent == t.sent + [NextRequest(t)])
            && (Step(w, t).Continue? ==> n.sent == t.sent + [NextRequest(t)])
  {
    var reply := w.complete(t.attempts, NextRequest(t));
    if reply.Response? && reply.calls != [] {
      var calls := Normalized(w, t, reply.calls);
      AfterGrows(w.tools, t.ledger, calls, 0, L.Executable(calls));
    }
  }

  lemma {:induction false} PlayGrows(w: World, t: Turn)
    requires InLoop(t) && t.attempts == |t.sent|
    ensures var end := Play(w, t).0; t.sent <= end.sent && t.ledger.runs <= end.ledger.runs
    decreases ROUND_LIMIT - t.round, EMPTY_REPAIR_LIMIT - t.emptyRepairs, AttemptsLeft(t)
  {
    StepGrows(w, t);
    if Step(w, t).Continue? {
      PlayGrows(w, Step(w, t).turn);
    }
  }

  lemma {:induction false} EveryRequestHasItsPass(w: World, t: Turn)
    requires InLoop(t) && t.attempts == |t.sent|
    ensures |t.sent| + |Passes(w, t)| - 1 <= |Play(w, t).0.sent| <= |t.sent| + |Passes(w, t)|
    decreases ROUND_LIMIT - t.round, EMPTY_REPAIR_LIMIT - t.emptyRepairs, AttemptsLeft(t)
  {
    StepGrows(w, t);
    if Step(w, t).Continue? {
      EveryRequestHasItsPass(w, Step(w, t).turn);
    }
  }

  lemma {:induction false} PassesLink(w: World, t: Turn, i: nat, first: nat)
    requires OnPass(w, t, first) && i < |Passes(w, t)|
    ensures var ps := Passes(w, t);
            && OnPass(w, ps[i], first) && |ps[i].sent| == |t.sent| + i && Play(w, ps[i]) == Play(w, t)
            && (i + 1 < |ps| ==> Step(w, ps[i]) == Continue(ps[i + 1]))
    decreases i
  {
    if Step(w, t).Continue? {
      var next := Step(w, t).turn;
      StepOnPass(w, t, first);
      assert Passes(w, t) == [t] + Passes(w, next);
      if i > 0 {
        PassesLink(w, next, i - 1, first);
        QuietStep(w, t);
      }
    }
  }

  // Pass i sends request i, and what it finds sent and run stays so.
  lemma PassSends(w: World, t: Turn, i: nat, first: nat)
    requires OnPass(w, t, first) && i < |Passes(w, t)|
    ensures var p, end := Passes(w, t)[i], Play(w, t).0;
            && OnPass(w, p, first) && |p.sent| == |t.sent| + i
            && p.sent <= end.sent && p.ledger.runs <= end.ledger.runs
            && (|p.sent| < |end.sent| ==> end.sent[|p.sent|] == NextRequest(p))
  {
    PassesLink(w, t, i, first);
    var p := Passes(w, t)[i];
    PlayGrows(w, p);
    StepGrows(w, p);
    if Step(w, p).Continue? {
      StepDescends(w, p);
      PlayGrows(w, Step(w, p).turn);
    }
  }

  // -- Which requests offer tools --------------------------------------------------

  lemma OpeningOnPass(w: World, base: seq<Message>, rows: seq<Row>)
    ensures OnPass(w, Start(base, rows), NextTurn(rows))
  {
  }

  // The pass that sent request i, with what it found.
  lemma PassOf(w: World, base: seq<Message>, rows: seq<Row>, i: nat) returns (p: Turn)
    requires i < |Play(w, Start(base, rows)).0.sent|
    ensures var ps, end := Passes(w, Start(base, rows)), Play(w, Start(base, rows)).0;
            && OnPass(w, p, NextTurn(rows)) && i < |ps| && p == ps[i] && |p.sent| == i
            && p.sent <= end.sent && p.ledger.runs <= end.ledger.runs && end.sent[i] == NextRequest(p)
            && CallsBefore(w, end.sent, i) == CallsBefore(w, p.sent, i)
            && ToolRoundsBefore(w, end.sent, i) == ToolRoundsBefore(w, p.sent, i)
  {
    var t := Start(base, rows);
    EveryRequestHasItsPass(w, t);
    OpeningOnPass(w, base, rows);
    PassSends(w, t, i, NextTurn(rows));
    p := Passes(w, t)[i];
    CallsBeforePrefix(w, p.sent, Play(w, t).0.sent, i);
  }

  // Tools are offered exactly in requests that fewer than seven tool rounds and fewer
  // than twelve admitted calls came before.
  lemma ToolsOfferedIff(w: World, base: seq<Message>, rows: seq<Row>, i: nat)
    requires i < |Play(w, Start(base, rows)).0.sent|
    ensures var sent := Play(w, Start(base, rows)).0.sent;
            sent[i].tools <==>
            ToolRoundsBefore(w, sent, i) < TOOL_ROUND_LIMIT && CallsBefore(w, sent, i) < L.TOOL_EXECUTION_LIMIT
  {
    var p := PassOf(w, base, rows, i);
  }

  lemma NextBase(w: World, t: Turn)
    requires t.attempts == |t.sent| && Step(w, t).Continue?
    ensures var n := Step(w, t).turn;
            && |n.sent| == |t.sent| + 1
            && (!CallsTools(w, n.sent, |t.sent|) ==>
                  n.base == t.base + if CallsNothing(w, n.sent, |t.sent|) then [System(EMPTY_REPAIR_INSTRUCTION)] else [])
  {
  }

  // The first request is the message's own; one without tools closes with the
  // instruction to answer; and the next adds nothing after a failure, and after an
  // empty answer the request for another.
  lemma OtherRequests(w: World, base: seq<Message>, rows: seq<Row>, i: nat)
    requires i < |Play(w, Start(base, rows)).0.sent|
    ensures var sent := Play(w, Start(base, rows)).0.sent;
            && (i == 0 ==> BaseOf(sent[i]) == base)
            && sent[i].messages == BaseOf(sent[i]) + (if sent[i].tools then [] else [System(FINAL_INSTRUCTION)])
            && (i + 1 < |sent| && !CallsTools(w, sent, i) ==>
                  BaseOf(sent[i + 1]) ==
                  BaseOf(sent[i]) + if CallsNothing(w, sent, i) then [System(EMPTY_REPAIR_INSTRUCTION)] else [])
  {
    var sent := Play(w, Start(base, rows)).0.sent;
    var p := PassOf(w, base, rows, i);
    BaseIsBase(p);
    if i + 1 < |sent| {
      var q := PassOf(w, base, rows, i + 1);
      PassFollows(w, base, rows, i, p, q);
    }
  }

  lemma PassFollows(w: World, base: seq<Message>, rows: seq<Row>, i: nat, p: Turn, q: Turn)
    requires var sent, ps := Play(w, Start(base, rows)).0.sent, Passes(w, Start(base, rows));
             && i + 1 < |sent| && i + 1 < |ps| && p == ps[i] && q == ps[i + 1] && |q.sent| == i + 1 && q.sent <= sent
             && p.attempts == |p.sent| && sent[i] == NextRequest(p) && sent[i + 1] == NextRequest(q)
    ensures var sent := Play(w, Start(base, rows)).0.sent;
            !CallsTools(w, sent, i) ==>
              BaseOf(sent[i + 1]) ==
              BaseOf(sent[i]) + if CallsNothing(w, sent, i) then [System(EMPTY_REPAIR_INSTRUCTION)] else []
  {
    OpeningOnPass(w, base, rows);
    PassesLink(w, Start(base, rows), i, NextTurn(rows));
    BaseIsBase(p);
    BaseIsBase(q);
    NextBase(w, p);
  }

  // -- What a tool round says ---------------------------------------------------------

  // A call as it is executed: the model's name and arguments, under the minted id.
  function Executed(w: World, turn: nat, calls: seq<Call>, c: nat): Call
    requires c < |calls|
  {
    Call(MintedId(turn, c), w.strip(calls[c].name), calls[c].arguments)
  }

  // As it is sent back: an unknown name is masked, the arguments are redacted.
  function Shown(w: World, call: Call): Call {
    call.(name := if call.name in w.known then call.name else "unknown", arguments := w.redact(call.arguments))
  }

  // What an admitted call is answered after m of the message's executions and `before`
  // of its admitted calls: refused when its key has failed twice, executed while fewer
  // than twelve calls came before it.
  ghost predicate AnswerAfter(tools: L.Tools, runs: seq<L.Run>, m: nat, before: nat, call: Call, text: string) {
    && m <= |runs|
    && var key := tools.keyOf(call);
       if L.Fails(runs[..m], key) >= L.TOOL_REPEAT_REFUSAL_THRESHOLD then text == L.REFUSED_REPEAT_RESULT
       else if before >= L.TOOL_EXECUTION_LIMIT then text == L.BUDGET_EXHAUSTED_RESULT
       else m < |runs| && text == tools.execute(m, call) && runs[m] == L.Run(key, tools.isError(text))
  }

  ghost predicate IsAnswer(tools: L.Tools, runs: seq<L.Run>, before: nat, call: Call, text: string) {
    exists m: nat :: AnswerAfter(tools, runs, m, before, call, text)
  }

  // The answer to call c of a response: past the third it is not run.
  ghost predicate AnswersCall(w: World, turn: nat, calls: seq<Call>, c: nat, after: seq<Message>, at: nat,
                          runs: seq<L.Run>, earlier: nat)
    requires c < |calls| && at + 1 + c < |after|
  {
    var answer := after[at + 1 + c];
    && answer.Tool? && answer.callId == MintedId(turn, c)
    && if c < L.MAX_TOOL_CALLS_PER_RESPONSE
       then IsAnswer(w.tools, runs, earlier + c, Executed(w, turn, calls, c), answer.text)
       else answer.text == L.EXCESS_CALL_RESULT
  }

  // One exchange of a message: the reply's calls are appended as shown, each followed in
  // its place by its answer.
  ghost predicate Exchange(w: World, turn: nat, reply: Reply, before: seq<Message>, after: seq<Message>,
                           runs: seq<L.Run>, earlier: nat)
    requires reply.Response?
  {
    var calls, at := reply.calls, |before|;
    && |after| == at + 1 + Accepted(calls) && after[..at] == before
    && after[at].Assistant? && after[at].text == w.redact(reply.content) && |after[at].calls| == Accepted(calls)
    && (forall c :: 0 <= c < Accepted(calls) ==> after[at].calls[c] == Shown(w, Executed(w, turn, calls, c)))
    && (forall c: nat :: c < Accepted(calls) ==> AnswersCall(w, turn, calls, c, after, at, runs, earlier))
  }

  lemma OneAnswers(tools: L.Tools, ledger: L.Ledger, before: nat, call: Call, runs: seq<L.Run>)
    requires Agree(ledger.used, before) && L.One(tools, ledger, call).0.runs <= runs
    ensures AnswerAfter(tools, runs, |ledger.runs|, before, call, L.One(tools, ledger, call).1)
  {
    OneGrows(tools, ledger, call);
    assert runs[..|ledger.runs|] == ledger.runs;
  }

  lemma CallIsAnswered(tools: L.Tools, ledger: L.Ledger, before: nat, calls: seq<Call>, c: nat, runs: seq<L.Run>)
    requires c < L.Executable(calls) && Agree(ledger.used, before) && L.Round(tools, ledger, calls).runs <= runs
    ensures IsAnswer(tools, runs, before + c, calls[c], L.ResultAt(tools, ledger, calls, c))
  {
    var met := L.After(tools, ledger, calls, c);
    CallsAgree(tools, ledger, calls, before, c);
    AfterGrows(tools, ledger, calls, c + 1, L.Executable(calls));
    OneAnswers(tools, met, before + c, calls[c], runs);
    assert AnswerAfter(tools, runs, |met.runs|, before + c, calls[c], L.ResultAt(tools, ledger, calls, c));
  }

  // What the round appends.
  lemma RoundAppends(w: World, t: Turn, content: string, calls: seq<Call>, c: nat)
    requires c < Accepted(calls)
    ensures var kept, after, at := Normalized(w, t, calls), UseTools(w, t, content, calls).base, |t.base|;
            && |kept| == Accepted(calls) && |after| == at + 1 + |kept| && after[..at] == t.base
            && after[at] == Assistant(w.redact(content), Wire(w, kept))
            && kept[c] == Executed(w, NextTurn(t.rows), calls, c)
            && after[at + 1 + c] == Tool(kept[c].id, L.ResultAt(w.tools, t.ledger, kept, c))
  {
    var kept := Normalized(w, t, calls);
    AppendedAt(t.base, w.redact(content), Wire(w, kept), Pairs(kept, L.Results(w.tools, t.ledger, kept)), c);
  }

  lemma AppendedAt(base: seq<Message>, text: string, calls: seq<Call>, results: seq<(string, string)>, c: nat)
    requires c < |results|
    ensures var after := base + TurnMessages(text, calls, results);
            && |after| == |base| + 1 + |results| && after[..|base|] == base
            && after[|base|] == Assistant(text, calls) && after[|base| + 1 + c] == Tool(results[c].0, results[c].1)
  {
  }

  lemma RoundAnswers(w: World, t: Turn, content: string, calls: seq<Call>, before: nat, runs: seq<L.Run>, c: nat)
    requires c < Accepted(calls) && Agree(t.ledger.used, before) && UseTools(w, t, content, calls).ledger.runs <= runs
    ensures |UseTools(w, t, content, calls).base| == |t.base| + 1 + Accepted(calls)
    ensures AnswersCall(w, NextTurn(t.rows), calls, c, UseTools(w, t, content, calls).base, |t.base|, runs, before)
  {
    RoundAppends(w, t, content, calls, c);
    var kept := Normalized(w, t, calls);
    if c < L.Executable(kept) {
      CallIsAnswered(w.tools, t.ledger, before, kept, c, runs);
    }
  }

  lemma RoundShows(w: World, t: Turn, content: string, calls: seq<Call>, c: nat)
    requires c < Accepted(calls)
    ensures Wire(w, Normalized(w, t, calls))[c] == Shown(w, Executed(w, NextTurn(t.rows), calls, c))
  {
  }

  lemma RoundExchanges(w: World, t: Turn, reply: Reply, before: nat, runs: seq<L.Run>, after: seq<Message>)
    requires reply.Response? && reply.calls != [] && Agree(t.ledger.used, before)
    requires UseTools(w, t, reply.content, reply.calls).ledger.runs <= runs
    requires after == UseTools(w, t, reply.content, reply.calls).base
    ensures Exchange(w, NextTurn(t.rows), reply, t.base, after, runs, before)
  {
    RoundAppends(w, t, reply.content, reply.calls, 0);
    forall c: nat | c < Accepted(reply.calls)
      ensures AnswersCall(w, NextTurn(t.rows), reply.calls, c, after, |t.base|, runs, before)
    {
      RoundAnswers(w, t, reply.content, reply.calls, before, runs, c);
    }
    forall c | 0 <= c < Accepted(reply.calls)
      ensures after[|t.base|].calls[c] == Shown(w, Executed(w, NextTurn(t.rows), reply.calls, c))
    {
      RoundShows(w, t, reply.content, reply.calls, c);
    }
  }

  // Over a whole message: whenever a reply calls tools and another request follows, that
  // request is the one before it, the calls as the model made them, and after them the
  // answer of each, in place: the text the tool returned for the model's name and
  // arguments, or the reason it was not run.
  lemma AnswersReachTheModel(w: World, base: seq<Message>, rows: seq<Row>, i: nat)
    requires i + 1 < |Play(w, Start(base, rows)).0.sent| && CallsTools(w, Play(w, Start(base, rows)).0.sent, i)
    ensures var end := Play(w, Start(base, rows)).0;
            Exchange(w, NextTurn(rows) + ToolRoundsBefore(w, end.sent, i), ReplyTo(w, end.sent, i),
                     BaseOf(end.sent[i]), BaseOf(end.sent[i + 1]), end.ledger.runs, CallsBefore(w, end.sent, i))
  {
    var t := Start(base, rows);
    var end := Play(w, t).0;
    var p := PassOf(w, base, rows, i);
    var q := PassOf(w, base, rows, i + 1);
    PassesLink(w, t, i, NextTurn(rows));
    QuietStep(w, p);
    var reply := ReplyTo(w, end.sent, i);
    RoundExchanges(w, p.(attempts := p.attempts + 1, sent := q.sent), reply, CallsBefore(w, end.sent, i),
                   end.ledger.runs, q.base);
    BaseIsBase(p);
    BaseIsBase(q);
  }

  lemma BaseIsBase(t: Turn)
    ensures BaseOf(NextRequest(t)) == t.base
  {
  }

  // -- What is stored --------------------------------------------------------------

  // A message as the store keeps it: its text and the arguments of its calls redacted
  // once more.
  function Redacted(w: World, message: Message): Message {
    match message
    case Assistant(text, calls) =>
      Assistant(w.redact(text), seq(|calls|, i requires 0 <= i < |calls| => calls[i].(arguments := w.redact(calls[i].arguments))))
    case Tool(id, text) => Tool(id, w.redact(text))
    case _ => message
  }

  // What of a request is stored: everything but the bot's own instructions.
  function StoredOf(w: World, messages: seq<Message>): seq<Message> {
    if messages == [] then []
    else (if messages[0].System? then [] else [Redacted(w, messages[0])]) + StoredOf(w, messages[1..])
  }

  lemma {:induction false} StoredOfAppend(w: World, a: seq<Message>, b: seq<Message>)
    ensures StoredOf(w, a + b) == StoredOf(w, a) + StoredOf(w, b)
  {
    if a == [] {
      assert a + b == b;
    } else {
      StoredOfAppend(w, a[1..], b);
      assert (a + b)[1..] == a[1..] + b && (a + b)[0] == a[0];
    }
  }

  lemma {:induction false} StoredOfTurn(w: World, messages: seq<Message>)
    requires forall i :: 0 <= i < |messages| ==> !messages[i].System?
    ensures |StoredOf(w, messages)| == |messages|
    ensures forall i :: 0 <= i < |messages| ==> StoredOf(w, messages)[i] == Redacted(w, messages[i])
  {
    if messages != [] {
      StoredOfTurn(w, messages[1..]);
    }
  }

  // The rows a message has stored so far are what it has added to its requests.
  ghost predicate Mirrors(w: World, base: seq<Message>, rows: seq<Row>, t: Turn) {
    && base <= t.base && rows <= t.rows
    && Messages(t.rows[|rows|..]) == StoredOf(w, t.base[|base|..])
  }

  lemma AddingMirrors(w: World, base: seq<Message>, rows: seq<Row>, t: Turn, n: Turn, more: seq<Message>, filed: seq<Row>)
    requires Mirrors(w, base, rows, t) && n.base == t.base + more && n.rows == t.rows + filed
    requires Messages(filed) == StoredOf(w, more)
    ensures Mirrors(w, base, rows, n)
  {
    assert n.base[|base|..] == t.base[|base|..] + more;
    assert n.rows[|rows|..] == t.rows[|rows|..] + filed;
    StoredOfAppend(w, t.base[|base|..], more);
    assert Messages(t.rows[|rows|..] + filed) == Messages(t.rows[|rows|..]) + Messages(filed);
  }

  lemma RoundMirrors(w: World, turn: nat, text: string, wire: seq<Call>, results: seq<(string, string)>)
    ensures Messages(Filed(turn, TurnMessages(w.redact(text), Guarded(w, wire), GuardedResults(w, results)))) ==
            StoredOf(w, TurnMessages(text, wire, results))
  {
    StoredOfTurn(w, TurnMessages(text, wire, results));
  }

  lemma StepMirrors(w: World, base: seq<Message>, rows: seq<Row>, t: Turn)
    requires Mirrors(w, base, rows, t)
    ensures Mirrors(w, base, rows, Step(w, t).turn)
  {
    var n, reply := Step(w, t).turn, w.complete(t.attempts, NextRequest(t));
    if n.rows != t.rows || n.base != t.base {
      if reply.calls == [] {
        AddingMirrors(w, base, rows, t, n, [System(EMPTY_REPAIR_INSTRUCTION)], []);
      } else {
        var kept := Normalized(w, t, reply.calls);
        var results := Pairs(kept, L.Results(w.tools, t.ledger, kept));
        var text, wire := w.redact(reply.content), Wire(w, kept);
        RoundMirrors(w, NextTurn(t.rows), text, wire, results);
        AddingMirrors(w, base, rows, t, n, TurnMessages(text, wire, results),
                      Filed(NextTurn(t.rows), TurnMessages(w.redact(text), Guarded(w, wire), GuardedResults(w, results))));
      }
    }
  }

  lemma {:induction false} PlayMirrors(w: World, base: seq<Message>, rows: seq<Row>, t: Turn)
    requires InLoop(t) && Mirrors(w, base, rows, t)
    ensures Mirrors(w, base, rows, Play(w, t).0)
    decreases ROUND_LIMIT - t.round, EMPTY_REPAIR_LIMIT - t.emptyRepairs, AttemptsLeft(t)
  {
    StepMirrors(w, base, rows, t);
    if Step(w, t).Continue? {
      PlayMirrors(w, base, rows, Step(w, t).turn);
    }
  }

  // Over a whole message: the rows stored by its tool rounds are exactly the messages it
  // added to its requests, instructions left out, each text and argument redacted.
  lemma StoredIsWhatWasSent(w: World, base: seq<Message>, rows: seq<Row>)
    ensures var end := Play(w, Start(base, rows)).0;
            && base <= end.base && rows <= end.rows
            && Messages(end.rows[|rows|..]) == StoredOf(w, end.base[|base|..])
  {
    assert base[|base|..] == [] && rows[|rows|..] == [];
    PlayMirrors(w, base, rows, Start(base, rows));
  }
}
