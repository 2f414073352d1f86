// Messages as the model sees them, what makes a request well formed, and the ids
// the bot mints for tool calls.

module AgentMessages {
  import opened Common
  import Decimal

  datatype Call = Call(id: string, name: string, arguments: string)

  datatype Message =
    | System(text: string)
    | User(text: string)
    | Assistant(text: string, calls: seq<Call>)
    | Tool(callId: string, text: string)

  const MAX_TOOL_CALLS_ACCEPTED: nat := 8

  ghost predicate DistinctIds(calls: seq<Call>) {
    forall i, j :: 0 <= i < j < |calls| ==> calls[i].id != calls[j].id
  }

  // The messages begin with one result per call, in order.
  ghost predicate Answers(messages: seq<Message>, calls: seq<Call>) {
    && |calls| <= |messages|
    && forall i :: 0 <= i < |calls| ==> messages[i].Tool? && messages[i].callId == calls[i].id
  }

  ghost function UnitLength(message: Message): nat {
    if message.Assistant? then 1 + |message.calls| else 1
  }

  // A request the provider accepts: an assistant message that calls tools is
  // followed by exactly its results, and a result appears nowhere else.
  ghost predicate WellFormed(messages: seq<Message>)
    decreases |messages|
  {
    messages == [] ||
    (&& !messages[0].Tool?
     && (messages[0].Assistant? ==> DistinctIds(messages[0].calls) && Answers(messages[1..], messages[0].calls))
     && UnitLength(messages[0]) <= |messages|
     && WellFormed(messages[UnitLength(messages[0])..]))
  }

  // The nearest assistant message before position i.
  function NearestAssistant(messages: seq<Message>, i: nat): (r: Option<nat>)
    requires i <= |messages|
    ensures r.Some? ==> r.value < i && messages[r.value].Assistant?
    ensures forall k :: (if r.Some? then r.value else -1) < k < i ==> !messages[k].Assistant?
  {
    if i == 0 then None
    else if messages[i - 1].Assistant? then Some(i - 1)
    else NearestAssistant(messages, i - 1)
  }

  // In a well-formed list every tool message answers exactly one call of the
  // nearest preceding assistant message, and stands where that call's result
  // belongs.
  lemma {:induction false} ToolAnswersNearest(messages: seq<Message>, i: nat)
    requires WellFormed(messages) && i < |messages| && messages[i].Tool?
    ensures var a := NearestAssistant(messages, i);
            && a.Some?
            && var calls := messages[a.value].calls;
               && 0 <= i - a.value - 1 < |calls|
               && (forall c :: 0 <= c < |calls| ==> (calls[c].id == messages[i].callId <==> c == i - a.value - 1))
    decreases |messages|
  {
    var n := UnitLength(messages[0]);
    if i < n {
      assert messages[1..][i - 1] == messages[i];
      OnlyToolsBetween(messages, 0, i);
    } else {
      var rest := messages[n..];
      assert rest[i - n] == messages[i];
      ToolAnswersNearest(rest, i - n);
      NearestInSuffix(messages, n, i);
    }
  }

  lemma {:induction false} OnlyToolsBetween(messages: seq<Message>, a: nat, i: nat)
    requires a < i <= |messages| && messages[a].Assistant? && forall k :: a < k < i ==> messages[k].Tool?
    ensures NearestAssistant(messages, i) == Some(a)
    decreases i
  {
    if a < i - 1 {
      OnlyToolsBetween(messages, a, i - 1);
    }
  }

  lemma {:induction false} NearestInSuffix(messages: seq<Message>, n: nat, i: nat)
    requires n <= i <= |messages| && NearestAssistant(messages[n..], i - n).Some?
    ensures NearestAssistant(messages, i) == Some(n + NearestAssistant(messages[n..], i - n).value)
    decreases i
  {
    if !messages[n..][i - n - 1].Assistant? {
      NearestInSuffix(messages, n, i - 1);
    }
  }

  lemma FirstUnitIsTools(messages: seq<Message>)
    requires WellFormed(messages) && messages != []
    ensures forall k :: 1 <= k < UnitLength(messages[0]) ==> messages[k].Tool?
  {
    assert forall k :: 1 <= k < UnitLength(messages[0]) ==> messages[k] == messages[1..][k - 1];
  }

  // And every call of every assistant message is answered, in place.
  lemma {:induction false} EveryCallAnswered(messages: seq<Message>, a: nat, c: nat)
    requires WellFormed(messages) && a < |messages| && messages[a].Assistant? && c < |messages[a].calls|
    ensures a + 1 + c < |messages| && messages[a + 1 + c].Tool?
    ensures messages[a + 1 + c].callId == messages[a].calls[c].id
    decreases |messages|
  {
    var n := UnitLength(messages[0]);
    if a == 0 {
      assert messages[1..][c] == messages[a + 1 + c];
    } else {
      FirstUnitIsTools(messages);
      var rest := messages[n..];
      assert rest[a - n] == messages[a];
      EveryCallAnswered(rest, a - n, c);
      assert rest[a - n + 1 + c] == messages[a + 1 + c];
    }
  }

  lemma FirstUnitAppend(a: seq<Message>, b: seq<Message>)
    requires a != [] && UnitLength(a[0]) <= |a|
    requires a[0].Assistant? ==> Answers(a[1..], a[0].calls)
    ensures (a + b)[0] == a[0] && (a[0].Assistant? ==> Answers((a + b)[1..], a[0].calls))
  {
    assert (a + b)[1..] == a[1..] + b;
  }

  lemma RestAppend(a: seq<Message>, b: seq<Message>, n: nat)
    requires n <= |a|
    ensures (a + b)[n..] == a[n..] + b
  {
  }

  lemma WellFormedCons(messages: seq<Message>)
    requires messages != [] && !messages[0].Tool? && UnitLength(messages[0]) <= |messages|
    requires messages[0].Assistant? ==> DistinctIds(messages[0].calls) && Answers(messages[1..], messages[0].calls)
    requires WellFormed(messages[UnitLength(messages[0])..])
    ensures WellFormed(messages)
  {
  }

  lemma {:induction false} WellFormedAppend(a: seq<Message>, b: seq<Message>)
    requires WellFormed(a) && WellFormed(b)
    ensures WellFormed(a + b)
    decreases |a|
  {
    if a == [] {
      assert a + b == b;
    } else {
      WellFormedAppend(a[UnitLength(a[0])..], b);
      FirstUnitAppend(a, b);
      RestAppend(a, b, UnitLength(a[0]));
      WellFormedCons(a + b);
    }
  }

  lemma PlainIsWellFormed(message: Message)
    requires !message.Tool? && (message.Assistant? ==> message.calls == [])
    ensures WellFormed([message])
  {
    assert [message][1..] == [];
  }

  // An assistant message with its results, each under the id of its call.
  function TurnMessages(text: string, calls: seq<Call>, results: seq<(string, string)>): seq<Message> {
    [Assistant(text, calls)] + seq(|results|, i requires 0 <= i < |results| => Tool(results[i].0, results[i].1))
  }

  function Pairs(calls: seq<Call>, texts: seq<string>): (pairs: seq<(string, string)>)
    requires |calls| == |texts|
    ensures |pairs| == |calls|
  {
    seq(|calls|, i requires 0 <= i < |calls| => (calls[i].id, texts[i]))
  }

  lemma TurnMessagesAreWellFormed(text: string, calls: seq<Call>, results: seq<(string, string)>)
    requires |calls| == |results| && DistinctIds(calls)
    requires forall i :: 0 <= i < |calls| ==> results[i].0 == calls[i].id
    ensures WellFormed(TurnMessages(text, calls, results))
  {
    var turn := TurnMessages(text, calls, results);
    assert turn[1 + |calls|..] == [];
    WellFormedCons(turn);
  }

  // -- Minted ids -------------------------------------------------------------

  function MintedId(turn: nat, index: nat): string {
    "call_" + Decimal.Render(turn) + "_" + Decimal.Render(index)
  }

  // The model's own ids are discarded; at most eight calls are kept.
  function Normalize(raw: seq<Call>, turn: nat, strip: string -> string): (kept: seq<Call>)
    ensures |kept| == if |raw| < MAX_TOOL_CALLS_ACCEPTED then |raw| else MAX_TOOL_CALLS_ACCEPTED
  {
    var n := if |raw| < MAX_TOOL_CALLS_ACCEPTED then |raw| else MAX_TOOL_CALLS_ACCEPTED;
    seq(n, i requires 0 <= i < n => Call(MintedId(turn, i), strip(raw[i].name), raw[i].arguments))
  }

  function UnderscoreAt(s: string): (d: nat)
    ensures d <= |s|
  {
    if s == [] || s[0] == '_' then 0 else 1 + UnderscoreAt(s[1..])
  }

  lemma {:induction false} UnderscoreAfterDigits(a: string, b: string)
    requires Decimal.AllDigits(a)
    ensures UnderscoreAt(a + "_" + b) == |a|
  {
    if a == [] {
      assert a + "_" + b == "_" + b;
    } else {
      assert (a + "_" + b)[1..] == a[1..] + "_" + b && (a + "_" + b)[0] == a[0];
      UnderscoreAfterDigits(a[1..], b);
    }
  }

  // Ids minted for different turns, or different places in one response, differ.
  lemma MintedIdsDiffer(t: nat, i: nat, u: nat, j: nat)
    ensures MintedId(t, i) == MintedId(u, j) <==> t == u && i == j
  {
    if MintedId(t, i) == MintedId(u, j) {
      var a, b := Decimal.Render(t) + "_" + Decimal.Render(i), Decimal.Render(u) + "_" + Decimal.Render(j);
      assert MintedId(t, i) == "call_" + a && MintedId(u, j) == "call_" + b;
      assert a == MintedId(t, i)[5..] && b == MintedId(u, j)[5..];
      UnderscoreAfterDigits(Decimal.Render(t), Decimal.Render(i));
      UnderscoreAfterDigits(Decimal.Render(u), Decimal.Render(j));
      var d := UnderscoreAt(a);
      assert a[..d] == Decimal.Render(t) && b[..d] == Decimal.Render(u);
      assert a[d + 1..] == Decimal.Render(i) && b[d + 1..] == Decimal.Render(j);
      Decimal.RenderInjective(t, u);
      Decimal.RenderInjective(i, j);
    }
  }

  lemma NormalizedIdsDiffer(raw: seq<Call>, turn: nat, strip: string -> string)
    ensures DistinctIds(Normalize(raw, turn, strip))
  {
    var kept := Normalize(raw, turn, strip);
    forall i, j | 0 <= i < j < |kept| ensures kept[i].id != kept[j].id {
      MintedIdsDiffer(turn, i, turn, j);
    }
  }
}
