// The messages a request starts from: the newest whole turns that fit, with
// stale tool results replaced by stubs and the clock added to the last user
// message.

module ContextWindow {
  import opened Common
  import opened AgentMessages
  import opened Conversations

  const WINDOW_TURNS: nat := 40

  // -- Fetching ---------------------------------------------------------------

  predicate Recent(row: Row, newest: nat) {
    row.turn + WINDOW_TURNS > newest
  }

  // Rows of the last forty turn numbers, in row order.
  function Fetch(rows: seq<Row>, n: nat, newest: nat): seq<Row>
    requires n <= |rows|
  {
    if n == 0 then []
    else Fetch(rows, n - 1, newest) + if Recent(rows[n - 1], newest) then [rows[n - 1]] else []
  }

  // Just past the last row that is not recent.
  function Cut(rows: seq<Row>, n: nat, newest: nat): (f: nat)
    requires n <= |rows|
    ensures f <= n
    ensures forall k :: f <= k < n ==> Recent(rows[k], newest)
    ensures f > 0 ==> !Recent(rows[f - 1], newest)
  {
    if n == 0 || !Recent(rows[n - 1], newest) then n else Cut(rows, n - 1, newest)
  }

  // The filter cuts between turns, so what it leaves is again a transcript.
  lemma {:induction false} FetchIsSuffix(rows: seq<Row>, n: nat, newest: nat)
    requires n <= |rows| && Ascending(rows)
    ensures Fetch(rows, n, newest) == rows[Cut(rows, n, newest)..n]
  {
    if n > 0 {
      FetchIsSuffix(rows, n - 1, newest);
      assert n > 1 && Recent(rows[n - 2], newest) ==> Recent(rows[n - 1], newest);
    }
  }

  lemma SuffixIsStored(rows: seq<Row>, rest: seq<Row>, f: nat)
    requires Stored(rows) && f <= |rows| && rest == rows[f..] && Boundary(rows, f)
    ensures Stored(rest)
  {
    DropStored(rows, f, |rows|);
  }

  lemma FetchIsStored(rows: seq<Row>, newest: nat)
    requires Stored(rows)
    ensures Stored(Fetch(rows, |rows|, newest))
  {
    var f := Cut(rows, |rows|, newest);
    StoredAscends(rows);
    FetchIsSuffix(rows, |rows|, newest);
    SuffixIsStored(rows, rows[f..|rows|], f);
  }

  // -- Shape-preserving rewriting -----------------------------------------------

  ghost predicate SameKind(a: Message, b: Message) {
    match a
    case System(_) => b.System?
    case User(_) => b.User?
    case Assistant(_, _) => b == a
    case Tool(id, _) => b.Tool? && b.callId == id
  }

  ghost predicate SameShape(a: seq<Message>, b: seq<Message>) {
    |a| == |b| && forall i :: 0 <= i < |a| ==> SameKind(a[i], b[i])
  }

  lemma {:induction false} ShapeKeepsWellFormed(a: seq<Message>, b: seq<Message>)
    requires WellFormed(a) && SameShape(a, b)
    ensures WellFormed(b)
    decreases |a|
  {
    if a != [] {
      assert SameKind(a[0], b[0]);
      var n := UnitLength(a[0]);
      ShapeKeepsWellFormed(a[n..], b[n..]);
      if a[0].Assistant? {
        forall i | 0 <= i < |a[0].calls|
          ensures b[1..][i].Tool? && b[1..][i].callId == b[0].calls[i].id
        {
          assert a[1..][i] == a[1 + i] && SameKind(a[1 + i], b[1 + i]);
        }
      }
      WellFormedCons(b);
    }
  }

  // -- Stubs ------------------------------------------------------------------

  datatype StubRules = StubRules(
    known: set<string>,
    skillOf: (string, Call) -> string,
    stub: (string, Option<Call>) -> string)

  function FirstCall(calls: seq<Call>, id: string, known: set<string>): (r: Option<Call>)
    ensures r.Some? ==> r.value in calls && r.value.id == id && r.value.name in known
    ensures r.None? ==> forall c <- calls :: c.id == id ==> c.name !in known
  {
    if calls == [] then None
    else if calls[0].id == id && calls[0].name in known then Some(calls[0])
    else FirstCall(calls[1..], id, known)
  }

  // The call a result answers, looked up in the nearest preceding assistant
  // message and nowhere else.
  function Resolve(messages: seq<Message>, i: nat, known: set<string>): Option<Call>
    requires i < |messages|
  {
    if !messages[i].Tool? then None
    else
      var a := NearestAssistant(messages, i);
      if a.None? then None else FirstCall(messages[a.value].calls, messages[i].callId, known)
  }

  // In a well-formed list that is the call the result was produced for, or
  // nothing when its name is not an advertised tool.
  lemma ResolveFindsOwnCall(messages: seq<Message>, i: nat, known: set<string>)
    requires WellFormed(messages) && i < |messages| && messages[i].Tool?
    ensures var a := NearestAssistant(messages, i);
            && a.Some? && 0 <= i - a.value - 1 < |messages[a.value].calls|
            && var own := messages[a.value].calls[i - a.value - 1];
               && own.id == messages[i].callId
               && Resolve(messages, i, known) == if own.name in known then Some(own) else None
  {
    ToolAnswersNearest(messages, i);
  }

  function SkillLoad(messages: seq<Message>, i: nat, rules: StubRules): Option<string>
    requires i < |messages|
  {
    var call := Resolve(messages, i, rules.known);
    if call.Some? && call.value.name == "load_skill" then Some(rules.skillOf(messages[i].text, call.value)) else None
  }

  function SkillLoads(messages: seq<Message>, rules: StubRules): (loads: seq<Option<string>>)
    ensures |loads| == |messages|
  {
    seq(|messages|, i requires 0 <= i < |messages| => SkillLoad(messages, i, rules))
  }

  // Entry i is the most recent load of its skill.
  ghost predicate IsLatestLoad(loads: seq<Option<string>>, i: nat)
    requires i < |loads|
  {
    loads[i].Some? && forall j :: i < j < |loads| ==> loads[j] != loads[i]
  }

  // Every tool result becomes a stub except the latest load of each skill; all
  // other messages stay as they are.
  ghost function Stubbed(messages: seq<Message>, rules: StubRules): (r: seq<Message>)
    ensures SameShape(messages, r)
  {
    seq(|messages|, i requires 0 <= i < |messages| =>
      if messages[i].Tool? && !IsLatestLoad(SkillLoads(messages, rules), i) then StubOf(messages, i, rules)
      else messages[i])
  }

  function StubOf(messages: seq<Message>, i: nat, rules: StubRules): Message
    requires i < |messages| && messages[i].Tool?
  {
    Tool(messages[i].callId, rules.stub(messages[i].text, Resolve(messages, i, rules.known)))
  }

  method LatestLoads(loads: seq<Option<string>>) returns (latest: map<string, nat>)
    ensures forall i :: 0 <= i < |loads| && loads[i].Some? ==>
              loads[i].value in latest && (latest[loads[i].value] == i <==> IsLatestLoad(loads, i))
  {
    latest := map[];
    for i := 0 to |loads|
      invariant forall s <- latest :: latest[s] < i && loads[latest[s]] == Some(s)
                                      && forall j :: latest[s] < j < i ==> loads[j] != Some(s)
      invariant forall k :: 0 <= k < i && loads[k].Some? ==> loads[k].value in latest
    {
      if loads[i].Some? {
        latest := latest[loads[i].value := i];
      }
    }
  }

  method StubStaleToolResults(messages: seq<Message>, rules: StubRules) returns (stubbed: seq<Message>)
    ensures stubbed == Stubbed(messages, rules)
  {
    var loads := SkillLoads(messages, rules);
    var latest := LatestLoads(loads);
    stubbed := [];
    for i := 0 to |messages|
      invariant |stubbed| == i
      invariant forall k :: 0 <= k < i ==> stubbed[k] == Stubbed(messages, rules)[k]
    {
      if !messages[i].Tool? || (loads[i].Some? && latest[loads[i].value] == i) {
        stubbed := stubbed + [messages[i]];
      } else {
        stubbed := stubbed + [StubOf(messages, i, rules)];
      }
    }
  }

  // -- The clock ----------------------------------------------------------------

  function LastUser(messages: seq<Message>, n: nat): (r: Option<nat>)
    requires n <= |messages|
    ensures r.Some? ==> r.value < n && messages[r.value].User?
    ensures forall k :: (if r.Some? then r.value else -1) < k < n ==> !messages[k].User?
  {
    if n == 0 then None else if messages[n - 1].User? then Some(n - 1) else LastUser(messages, n - 1)
  }

  ghost predicate IsLastUser(messages: seq<Message>, k: nat)
    requires k < |messages|
  {
    messages[k].User? && forall j :: k < j < |messages| ==> !messages[j].User?
  }

  // The line goes below the text of the last user message; nothing else changes.
  ghost predicate ClockAdded(messages: seq<Message>, line: string, r: seq<Message>) {
    && |r| == |messages|
    && forall k :: 0 <= k < |messages| ==>
         r[k] == if IsLastUser(messages, k) then User(messages[k].text + "\n" + line) else messages[k]
  }

  function Clocked(messages: seq<Message>, line: string): (r: seq<Message>)
    ensures SameShape(messages, r)
    ensures ClockAdded(messages, line, r)
  {
    var last := LastUser(messages, |messages|);
    if last.None? then messages
    else messages[last.value := User(messages[last.value].text + "\n" + line)]
  }

  method AppendNow(messages: seq<Message>, line: string) returns (r: seq<Message>)
    ensures r == Clocked(messages, line)
    ensures ClockAdded(messages, line, r)
  {
    var index: nat := |messages|;
    while index > 0
      invariant index <= |messages|
      invariant LastUser(messages, |messages|) == LastUser(messages, index)
    {
      index := index - 1;
      if messages[index].User? {
        r := messages[..index] + [User(messages[index].text + "\n" + line)] + messages[index + 1..];
        return;
      }
    }
    r := messages;
  }

  ghost function Transformed(messages: seq<Message>, rules: Option<StubRules>, line: string): (r: seq<Message>)
    ensures SameShape(messages, r)
  {
    var stubbed := if rules.Some? then Stubbed(messages, rules.value) else messages;
    var clocked := Clocked(stubbed, line);
    assert forall i :: 0 <= i < |messages| ==> SameKind(messages[i], stubbed[i]) && SameKind(stubbed[i], clocked[i]);
    clocked
  }

  // -- The walk -----------------------------------------------------------------

  function Cost(messages: seq<Message>, from: nat, upTo: nat, estimate: Message -> nat): nat
    requires upTo <= |messages|
    decreases upTo
  {
    if upTo <= from then 0 else Cost(messages, from, upTo - 1, estimate) + estimate(messages[upTo - 1])
  }

  lemma {:induction false} CostSplits(messages: seq<Message>, from: nat, mid: nat, upTo: nat, estimate: Message -> nat)
    requires from <= mid <= upTo <= |messages|
    ensures Cost(messages, from, upTo, estimate) == Cost(messages, from, mid, estimate) + Cost(messages, mid, upTo, estimate)
    ensures mid + 1 == upTo ==> Cost(messages, mid, upTo, estimate) == estimate(messages[mid])
    decreases upTo
  {
    if mid < upTo {
      CostSplits(messages, from, mid, upTo - 1, estimate);
    }
  }

  // A budget on the estimated size of the window, when the model declares one.
  datatype Budget = Unbounded | Tokens(limit: int, estimate: Message -> nat)

  // What a selected stretch keeps: whole turns, fewer than `limit` messages
  // before its oldest turn was added, and the token budget unless only the
  // newest turn is there.
  ghost predicate Fits(rows: seq<Row>, messages: seq<Message>, limit: nat, budget: Budget, start: nat)
    requires |rows| == |messages| && start <= |rows|
  {
    && Boundary(rows, start)
    && (forall e :: start < e <= |rows| && Boundary(rows, e) ==> |rows| - e < limit)
    && (budget.Tokens? && start < |rows| && start < GroupStart(rows, |rows|) ==>
          Cost(messages, start, |rows|, budget.estimate) <= budget.limit)
  }

  // And why it stops where it does: nothing is left, the message limit is
  // reached, or the next older turn would pass the budget. The newest turn is
  // always taken.
  ghost predicate StopsThere(rows: seq<Row>, messages: seq<Message>, limit: nat, budget: Budget, start: nat)
    requires |rows| == |messages| && start <= |rows|
  {
    || start == 0
    || |rows| - start >= limit
    || (&& budget.Tokens? && start < |rows|
        && Cost(messages, GroupStart(rows, start), |rows|, budget.estimate) > budget.limit)
  }

  // The two clauses leave one window: the loader has no choice.
  lemma WindowIsDetermined(rows: seq<Row>, messages: seq<Message>, limit: nat, budget: Budget, a: nat, b: nat)
    requires |rows| == |messages| && a <= |rows| && b <= |rows|
    requires Fits(rows, messages, limit, budget, a) && StopsThere(rows, messages, limit, budget, a)
    requires Fits(rows, messages, limit, budget, b) && StopsThere(rows, messages, limit, budget, b)
    ensures a == b
  {
    if a < b {
      EarlierWindowWouldNotFit(rows, messages, limit, budget, a, b);
    } else if b < a {
      EarlierWindowWouldNotFit(rows, messages, limit, budget, b, a);
    }
  }

  lemma EarlierWindowWouldNotFit(rows: seq<Row>, messages: seq<Message>, limit: nat, budget: Budget, a: nat, b: nat)
    requires |rows| == |messages| && a < b <= |rows|
    requires StopsThere(rows, messages, limit, budget, b) && Boundary(rows, b)
    ensures !Fits(rows, messages, limit, budget, a)
  {
    if Boundary(rows, a) && |rows| - b < limit {
      var g := GroupStart(rows, b);
      BoundaryBeforeGroup(rows, a, b);
      CostSplits(messages, a, g, |rows|, budget.estimate);
      BoundaryBeforeGroup(rows, b, |rows|);
    }
  }

  lemma FitsStep(rows: seq<Row>, messages: seq<Message>, limit: nat, budget: Budget, start: nat)
    requires |rows| == |messages| && 0 < start <= |rows| && |rows| - start < limit
    requires Fits(rows, messages, limit, budget, start)
    requires budget.Tokens? && start < |rows| ==>
               Cost(messages, GroupStart(rows, start), |rows|, budget.estimate) <= budget.limit
    ensures Fits(rows, messages, limit, budget, GroupStart(rows, start))
  {
    var g := GroupStart(rows, start);
    forall e | g < e <= |rows| && Boundary(rows, e) ensures |rows| - e < limit {
      if e < start {
        BoundaryBeforeGroup(rows, e, start);
      }
    }
  }

  // Where the walk back over whole turns stops.
  function WindowStart(rows: seq<Row>, messages: seq<Message>, limit: nat, budget: Budget, start: nat): (r: nat)
    requires |rows| == |messages| && start <= |rows|
    ensures r <= start
  {
    if start == 0 || |rows| - start >= limit then start
    else
      var g := GroupStart(rows, start);
      if budget.Tokens? && start < |rows| && Cost(messages, g, |rows|, budget.estimate) > budget.limit then start
      else WindowStart(rows, messages, limit, budget, g)
  }

  // It meets both clauses, so it is the one window.
  lemma {:induction false} WindowIsRight(rows: seq<Row>, messages: seq<Message>, limit: nat, budget: Budget, start: nat)
    requires |rows| == |messages| && start <= |rows| && Fits(rows, messages, limit, budget, start)
    ensures var r := WindowStart(rows, messages, limit, budget, start);
            Fits(rows, messages, limit, budget, r) && StopsThere(rows, messages, limit, budget, r)
    decreases start
  {
    var r := WindowStart(rows, messages, limit, budget, start);
    if r != start {
      FitsStep(rows, messages, limit, budget, start);
      WindowIsRight(rows, messages, limit, budget, GroupStart(rows, start));
    }
  }

  // The runs of rows that share a turn, oldest first, as half-open intervals.
  ghost predicate AreGroups(rows: seq<Row>, groups: seq<(nat, nat)>, n: nat)
    requires n <= |rows|
    decreases |groups|
  {
    if groups == [] then n == 0
    else
      && n > 0 && groups[|groups| - 1] == (GroupStart(rows, n), n)
      && AreGroups(rows, groups[..|groups| - 1], GroupStart(rows, n))
  }

  method GroupTurns(rows: seq<Row>) returns (groups: seq<(nat, nat)>)
    ensures AreGroups(rows, groups, |rows|)
  {
    groups := [];
    for i := 0 to |rows|
      invariant AreGroups(rows, groups, i)
    {
      if groups != [] && rows[groups[|groups| - 1].0].turn == rows[i].turn {
        groups := groups[..|groups| - 1] + [(groups[|groups| - 1].0, i + 1)];
      } else {
        ghost var before := groups;
        groups := groups + [(i, i + 1)];
        assert groups[..|groups| - 1] == before;
      }
    }
  }

  method WalkBack(rows: seq<Row>, messages: seq<Message>, limit: nat, budget: Budget) returns (selected: seq<Message>)
    requires |rows| == |messages|
    ensures selected == messages[WindowStart(rows, messages, limit, budget, |rows|)..]
  {
    var groups := GroupTurns(rows);
    var index: nat, total: nat, tokens: nat := |groups|, 0, 0;
    ghost var start: nat := |rows|;
    assert groups[..index] == groups;
    selected := [];
    while index > 0
      invariant index <= |groups| && start <= |rows| && AreGroups(rows, groups[..index], start)
      invariant start == |rows| <==> index == |groups|
      invariant selected == messages[start..] && total == |rows| - start
      invariant budget.Tokens? ==> tokens == Cost(messages, start, |rows|, budget.estimate)
      invariant WindowStart(rows, messages, limit, budget, |rows|) == WindowStart(rows, messages, limit, budget, start)
    {
      if total >= limit {
        break;
      }
      var group := groups[index - 1];
      assert groups[..index][index - 1] == group && groups[..index][..index - 1] == groups[..index - 1];
      if budget.Tokens? {
        var cost := Cost(messages, group.0, group.1, budget.estimate);
        CostSplits(messages, group.0, group.1, |rows|, budget.estimate);
        if index < |groups| && tokens + cost > budget.limit {
          break;
        }
        tokens := tokens + cost;
      }
      selected := messages[group.0..group.1] + selected;
      total := total + (group.1 - group.0);
      start := group.0;
      index := index - 1;
    }
  }

  // What the loader hands over: the window of the rewritten messages.
  ghost function History(rows: seq<Row>, limit: nat, budget: Budget, rules: Option<StubRules>, line: string): seq<Message> {
    var fetched := Fetch(rows, |rows|, MaxTurn(rows));
    var messages := Transformed(Messages(fetched), rules, line);
    messages[WindowStart(fetched, messages, limit, budget, |fetched|)..]
  }

  // -- Row by row -----------------------------------------------------------------

  // The call a result was produced for: the one in its place among those of the
  // nearest assistant message.
  function OwnCall(messages: seq<Message>, i: nat): Option<Call>
    requires i < |messages|
  {
    var a := NearestAssistant(messages, i);
    if !messages[i].Tool? || a.None? || i - a.value - 1 >= |messages[a.value].calls| then None
    else Some(messages[a.value].calls[i - a.value - 1])
  }

  // The same, when its name is advertised.
  function KnownCall(messages: seq<Message>, i: nat, known: set<string>): Option<Call>
    requires i < |messages|
  {
    var own := OwnCall(messages, i);
    if own.Some? && own.value.name in known then own else None
  }

  function LoadedSkill(messages: seq<Message>, i: nat, rules: StubRules): Option<string>
    requires i < |messages|
  {
    var call := KnownCall(messages, i, rules.known);
    if call.Some? && call.value.name == "load_skill" then Some(rules.skillOf(messages[i].text, call.value)) else None
  }

  ghost predicate IsLatestSkill(messages: seq<Message>, i: nat, rules: StubRules)
    requires i < |messages|
  {
    && LoadedSkill(messages, i, rules).Some?
    && forall j :: i < j < |messages| ==> LoadedSkill(messages, j, rules) != LoadedSkill(messages, i, rules)
  }

  // What a request says where the transcript says messages[i].
  ghost predicate Says(messages: seq<Message>, i: nat, rules: Option<StubRules>, line: string, said: Message)
    requires i < |messages|
  {
    match messages[i]
    case User(text) => said == User(if IsLastUser(messages, i) then text + "\n" + line else text)
    case Tool(id, text) =>
      said == Tool(id, if rules.None? || IsLatestSkill(messages, i, rules.value) then text
                       else rules.value.stub(text, KnownCall(messages, i, rules.value.known)))
    case _ => said == messages[i]
  }

  // The messages selected are what the newest rows say.
  ghost predicate SaysNewest(messages: seq<Message>, rules: Option<StubRules>, line: string, selected: seq<Message>) {
    && |selected| <= |messages|
    && forall i :: 0 <= i < |selected| ==> Says(messages, |messages| - |selected| + i, rules, line, selected[i])
  }

  lemma LoadIsSkill(messages: seq<Message>, i: nat, rules: StubRules)
    requires WellFormed(messages) && i < |messages|
    ensures Resolve(messages, i, rules.known) == KnownCall(messages, i, rules.known)
    ensures SkillLoads(messages, rules)[i] == LoadedSkill(messages, i, rules)
  {
    ResolvesKnown(messages, i, rules.known);
  }

  lemma ResolvesKnown(messages: seq<Message>, i: nat, known: set<string>)
    requires WellFormed(messages) && i < |messages|
    ensures Resolve(messages, i, known) == KnownCall(messages, i, known)
  {
    if messages[i].Tool? {
      ResolveFindsOwnCall(messages, i, known);
    }
  }

  lemma LatestIsLatest(messages: seq<Message>, i: nat, rules: StubRules)
    requires WellFormed(messages) && i < |messages|
    ensures IsLatestLoad(SkillLoads(messages, rules), i) <==> IsLatestSkill(messages, i, rules)
  {
    forall j: nat | i <= j < |messages| ensures SkillLoads(messages, rules)[j] == LoadedSkill(messages, j, rules) {
      LoadIsSkill(messages, j, rules);
    }
  }

  lemma SameLastUser(messages: seq<Message>, other: seq<Message>, i: nat)
    requires SameShape(messages, other) && i < |messages|
    ensures IsLastUser(other, i) <==> IsLastUser(messages, i)
  {
    assert forall j :: 0 <= j < |messages| ==> SameKind(messages[j], other[j]);
  }

  lemma TransformedSays(messages: seq<Message>, rules: Option<StubRules>, line: string, i: nat)
    requires WellFormed(messages) && i < |messages|
    ensures Says(messages, i, rules, line, Transformed(messages, rules, line)[i])
  {
    var stubbed := if rules.Some? then Stubbed(messages, rules.value) else messages;
    assert forall j :: 0 <= j < |messages| ==> SameKind(messages[j], stubbed[j]);
    SameLastUser(messages, stubbed, i);
    assert ClockAdded(stubbed, line, Clocked(stubbed, line));
    if rules.Some? {
      LatestIsLatest(messages, i, rules.value);
      LoadIsSkill(messages, i, rules.value);
    }
  }

  // A stretch at the end of the transcript says what its place in the whole says.
  lemma OwnCallInSuffix(messages: seq<Message>, n: nat, rest: seq<Message>, i: nat)
    requires n + i < |messages| && rest == messages[n..] && WellFormed(rest)
    ensures OwnCall(rest, i) == OwnCall(messages, n + i)
  {
    if rest[i].Tool? {
      ToolAnswersNearest(rest, i);
      NearestInRest(messages, n, rest, i);
    }
  }

  lemma NearestInRest(messages: seq<Message>, n: nat, rest: seq<Message>, i: nat)
    requires n + i < |messages| && rest == messages[n..] && NearestAssistant(rest, i).Some?
    ensures var a := NearestAssistant(rest, i).value;
            NearestAssistant(messages, n + i) == Some(n + a) && messages[n + a] == rest[a] && messages[n + i] == rest[i]
  {
    NearestInSuffix(messages, n, n + i);
  }

  lemma SkillInSuffix(messages: seq<Message>, n: nat, rest: seq<Message>, i: nat, rules: StubRules)
    requires n + i < |messages| && rest == messages[n..] && WellFormed(rest)
    ensures KnownCall(rest, i, rules.known) == KnownCall(messages, n + i, rules.known)
    ensures LoadedSkill(rest, i, rules) == LoadedSkill(messages, n + i, rules)
  {
    OwnCallInSuffix(messages, n, rest, i);
  }

  lemma LatestInSuffix(messages: seq<Message>, n: nat, rest: seq<Message>, i: nat, rules: StubRules)
    requires n + i < |messages| && rest == messages[n..] && WellFormed(rest)
    ensures IsLatestSkill(rest, i, rules) <==> IsLatestSkill(messages, n + i, rules)
  {
    forall j: nat | j < |rest| ensures LoadedSkill(rest, j, rules) == LoadedSkill(messages, n + j, rules) {
      SkillInSuffix(messages, n, rest, j, rules);
    }
    if IsLatestSkill(rest, i, rules) {
      forall j | n + i < j < |messages| ensures LoadedSkill(messages, j, rules) != LoadedSkill(messages, n + i, rules) {
        assert LoadedSkill(rest, j - n, rules) == LoadedSkill(messages, n + (j - n), rules);
      }
    }
  }

  lemma LastUserInSuffix(messages: seq<Message>, n: nat, rest: seq<Message>, i: nat)
    requires n + i < |messages| && rest == messages[n..]
    ensures IsLastUser(rest, i) <==> IsLastUser(messages, n + i)
  {
    if IsLastUser(rest, i) {
      assert forall j :: n + i < j < |messages| ==> messages[j] == rest[j - n];
    }
  }

  lemma SaysInSuffix(messages: seq<Message>, n: nat, rest: seq<Message>, i: nat, rules: Option<StubRules>, line: string,
                     said: Message)
    requires n + i < |messages| && rest == messages[n..] && WellFormed(rest) && Says(rest, i, rules, line, said)
    ensures Says(messages, n + i, rules, line, said)
  {
    LastUserInSuffix(messages, n, rest, i);
    if rules.Some? {
      SkillInSuffix(messages, n, rest, i, rules.value);
      LatestInSuffix(messages, n, rest, i, rules.value);
    }
  }

  lemma RowsSay(messages: seq<Message>, n: nat, rest: seq<Message>, rules: Option<StubRules>, line: string,
                said: seq<Message>)
    requires n <= |messages| && rest == messages[n..] && WellFormed(rest) && |said| == |rest|
    requires forall i :: 0 <= i < |rest| ==> Says(rest, i, rules, line, said[i])
    ensures SaysNewest(messages, rules, line, said)
  {
    forall i | 0 <= i < |said| ensures Says(messages, |messages| - |said| + i, rules, line, said[i]) {
      SaysInSuffix(messages, n, rest, i, rules, line, said[i]);
    }
  }

  lemma AllSay(messages: seq<Message>, rules: Option<StubRules>, line: string)
    requires WellFormed(messages)
    ensures var said := Transformed(messages, rules, line);
            |said| == |messages| && forall i :: 0 <= i < |messages| ==> Says(messages, i, rules, line, said[i])
  {
    forall i | 0 <= i < |messages| ensures Says(messages, i, rules, line, Transformed(messages, rules, line)[i]) {
      TransformedSays(messages, rules, line, i);
    }
  }

  // The history of a request says what the newest stored rows say: every text is that of
  // its row, with the clock below the last user message, and a tool result is left as it
  // is exactly where no stub is asked for or it is the latest load of its skill.
  lemma HistorySaysRows(rows: seq<Row>, limit: nat, budget: Budget, rules: Option<StubRules>, line: string)
    requires Stored(rows)
    ensures SaysNewest(Messages(rows), rules, line, History(rows, limit, budget, rules, line))
  {
    var fetched := Fetch(rows, |rows|, MaxTurn(rows));
    var said := Transformed(Messages(fetched), rules, line);
    FetchedMessages(rows, MaxTurn(rows));
    AllSay(Messages(fetched), rules, line);
    RowsSay(Messages(rows), Cut(rows, |rows|, MaxTurn(rows)), Messages(fetched), rules, line, said);
    FewerSay(Messages(rows), rules, line, said, WindowStart(fetched, said, limit, budget, |fetched|));
  }

  lemma FetchedMessages(rows: seq<Row>, newest: nat)
    requires Stored(rows)
    ensures WellFormed(Messages(Fetch(rows, |rows|, newest)))
    ensures Messages(Fetch(rows, |rows|, newest)) == Messages(rows)[Cut(rows, |rows|, newest)..]
  {
    StoredAscends(rows);
    FetchIsSuffix(rows, |rows|, newest);
    FetchIsStored(rows, newest);
    WholeIsWellFormed(Fetch(rows, |rows|, newest));
  }

  lemma WholeIsWellFormed(rows: seq<Row>)
    requires Stored(rows)
    ensures WellFormed(Messages(rows))
  {
    StoredIsWellFormed(rows, |rows|);
    assert rows[..|rows|] == rows;
  }

  lemma FewerSay(messages: seq<Message>, rules: Option<StubRules>, line: string, said: seq<Message>, start: nat)
    requires SaysNewest(messages, rules, line, said) && start <= |said|
    ensures SaysNewest(messages, rules, line, said[start..])
  {
    var selected := said[start..];
    forall i | 0 <= i < |selected| ensures Says(messages, |messages| - |selected| + i, rules, line, selected[i]) {
      assert selected[i] == said[start + i];
    }
  }

  // The whole loader: fetch, rewrite, walk.
  method LoadContextMessages(rows: seq<Row>, limit: nat, budget: Budget, rules: Option<StubRules>, line: string)
    returns (selected: seq<Message>)
    ensures selected == History(rows, limit, budget, rules, line)
    ensures Stored(rows) ==> SaysNewest(Messages(rows), rules, line, selected)
  {
    if Stored(rows) {
      HistorySaysRows(rows, limit, budget, rules, line);
    }
    var fetched, newest := [], MaxTurn(rows);
    for i := 0 to |rows|
      invariant fetched == Fetch(rows, i, newest)
    {
      if Recent(rows[i], newest) {
        fetched := fetched + [rows[i]];
      }
    }
    var messages := Messages(fetched);
    if rules.Some? {
      messages := StubStaleToolResults(messages, rules.value);
    }
    messages := AppendNow(messages, line);
    selected := WalkBack(fetched, messages, limit, budget);
  }

  lemma SuffixIsWellFormed(rows: seq<Row>, messages: seq<Message>, start: nat)
    requires Stored(rows) && SameShape(Messages(rows), messages)
    requires start <= |rows| && Boundary(rows, start)
    ensures WellFormed(messages[start..])
  {
    DropStored(rows, start, |rows|);
    var suffix := rows[start..];
    StoredIsWellFormed(suffix, |suffix|);
    assert suffix[..|suffix|] == suffix;
    ShapeOfSuffix(rows, messages, start);
    ShapeKeepsWellFormed(Messages(suffix), messages[start..]);
  }

  lemma ShapeOfSuffix(rows: seq<Row>, messages: seq<Message>, start: nat)
    requires SameShape(Messages(rows), messages) && start <= |rows|
    ensures SameShape(Messages(rows[start..]), messages[start..])
  {
    forall i | 0 <= i < |rows| - start ensures SameKind(Messages(rows[start..])[i], messages[start..][i]) {
      assert SameKind(Messages(rows)[start + i], messages[start + i]);
    }
  }

  // Whatever the transcript, the history of a request is well formed.
  lemma HistoryIsWellFormed(rows: seq<Row>, limit: nat, budget: Budget, rules: Option<StubRules>, line: string)
    requires Stored(rows)
    ensures WellFormed(History(rows, limit, budget, rules, line))
  {
    var fetched := Fetch(rows, |rows|, MaxTurn(rows));
    var messages := Transformed(Messages(fetched), rules, line);
    FetchIsStored(rows, MaxTurn(rows));
    WindowIsRight(fetched, messages, limit, budget, |fetched|);
    SuffixIsWellFormed(fetched, messages, WindowStart(fetched, messages, limit, budget, |fetched|));
  }
}
