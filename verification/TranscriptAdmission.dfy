// The byte-budget admission of a transcript page, as the dashboard's two loops
// compute it.

module TranscriptAdmission {
  import opened Common
  import opened Transcript
  import opened TranscriptWalk

  // -- Grouping by turn -------------------------------------------------------

  function GroupsFrom(rows: seq<Row>, i: nat): (groups: seq<seq<Row>>)
    requires i <= |rows|
    decreases |rows| - i
  {
    if i == |rows| then [] else [rows[i..GroupEnd(rows, i)]] + GroupsFrom(rows, GroupEnd(rows, i))
  }

  ghost predicate AreGroups(groups: seq<seq<Row>>) {
    && (forall g :: 0 <= g < |groups| ==> groups[g] != [])
    && (forall g, k :: 0 <= g < |groups| && 0 <= k < |groups[g]| ==> groups[g][k].turn == groups[g][0].turn)
    && (forall g :: 0 <= g < |groups| - 1 ==> groups[g][0].turn != groups[g + 1][0].turn)
  }

  lemma {:induction false} GroupEndIs(rows: seq<Row>, i: nat, j: nat)
    requires i < j <= |rows|
    requires forall k :: i <= k < j ==> rows[k].turn == rows[i].turn
    requires j < |rows| ==> rows[j].turn != rows[i].turn
    ensures GroupEnd(rows, i) == j
    decreases j - i
  {
    if i + 1 < j {
      GroupEndIs(rows, i + 1, j);
    }
  }

  // There is one way to cut rows into groups.
  lemma {:induction false} GroupsAreUnique(groups: seq<seq<Row>>, rows: seq<Row>, i: nat)
    requires AreGroups(groups) && i <= |rows| && Flatten(groups) == rows[i..]
    ensures groups == GroupsFrom(rows, i)
    decreases |groups|
  {
    if groups != [] {
      var j := i + |groups[0]|;
      assert groups[0] == Flatten(groups)[..|groups[0]|] == rows[i..j];
      assert forall k :: i <= k < j ==> rows[k] == groups[0][k - i];
      assert Flatten(groups[1..]) == Flatten(groups)[|groups[0]|..] == rows[j..];
      if |groups| > 1 {
        assert groups[1][0] == Flatten(groups[1..])[0] == rows[j];
      }
      GroupEndIs(rows, i, j);
      GroupsAreUnique(groups[1..], rows, j);
    }
  }

  lemma {:induction false} FlattenAppend(a: seq<seq<Row>>, b: seq<Row>)
    ensures Flatten(a + [b]) == Flatten(a) + b
  {
    if a == [] {
      assert a + [b] == [b] && Flatten([b]) == b + Flatten([]);
    } else {
      FlattenAppend(a[1..], b);
      assert (a + [b])[1..] == a[1..] + [b];
    }
  }

  method TurnGroups(messages: seq<Row>) returns (groups: seq<seq<Row>>)
    ensures groups == GroupsFrom(messages, 0)
  {
    groups := [];
    for i := 0 to |messages|
      invariant AreGroups(groups) && Flatten(groups) == messages[..i]
    {
      var message := messages[i];
      var last := |groups| - 1;
      if groups != [] && groups[last][0].turn == message.turn {
        FlattenAppend(groups[..last], groups[last]);
        FlattenAppend(groups[..last], groups[last] + [message]);
        assert groups == groups[..last] + [groups[last]];
        groups := groups[..last] + [groups[last] + [message]];
      } else {
        FlattenAppend(groups, [message]);
        groups := groups + [[message]];
      }
    }
    assert messages[..|messages|] == messages[0..];
    GroupsAreUnique(groups, messages, 0);
  }

  // -- What a turn costs ------------------------------------------------------

  function JsonBytes(turn: seq<Row>): nat {
    if turn == [] then 0 else JsonBytes(turn[..|turn| - 1]) + turn[|turn| - 1].json
  }

  function HtmlBytes(turn: seq<Row>): nat {
    if turn == [] then 0
    else HtmlBytes(turn[..|turn| - 1]) + turn[|turn| - 1].html + (if |turn| == 1 then turn[0].link else 0)
  }

  // All blocks of a page.
  function BlocksBytes(blocks: seq<seq<Row>>): nat {
    if blocks == [] then 0 else BlocksBytes(blocks[..|blocks| - 1]) + HtmlBytes(blocks[|blocks| - 1])
  }

  lemma BlocksAppend(blocks: seq<seq<Row>>, turn: seq<Row>)
    ensures BlocksBytes(blocks + [turn]) == BlocksBytes(blocks) + HtmlBytes(turn)
  {
    assert (blocks + [turn])[..|blocks|] == blocks;
  }

  lemma {:induction false} JsonTurnCost(rows: seq<Row>, i: nat, j: nat)
    requires i < j <= |rows|
    ensures (if i > 0 then 1 else 0) + JsonBytes(rows[i..j]) + (j - i - 1) == Sum(Costs(Json, rows), i, j)
    decreases j - i
  {
    assert rows[i..j][..j - i - 1] == rows[i..j - 1];
    if i < j - 1 {
      JsonTurnCost(rows, i, j - 1);
    }
  }

  lemma {:induction false} HtmlTurnCost(rows: seq<Row>, i: nat, j: nat)
    requires i < j <= |rows| && !CutsTurn(rows, i) && forall k :: i < k < j ==> CutsTurn(rows, k)
    ensures HtmlBytes(rows[i..j]) == Sum(Costs(Html, rows), i, j)
    decreases j - i
  {
    assert rows[i..j][..j - i - 1] == rows[i..j - 1];
    assert Costs(Html, rows)[j - 1] == CostAt(Html, rows, j - 1);
    if i < j - 1 {
      assert CutsTurn(rows, j - 1);
      HtmlTurnCost(rows, i, j - 1);
    }
  }

  // -- Splitting a turn -------------------------------------------------------

  // The first message is always admitted; each later one only if it fits.
  method SplitTurn(sink: Sink, turn: seq<Row>, acc: nat, budget: nat, ghost rows: seq<Row>) returns (k: nat)
    requires 0 < |turn| <= |rows| && turn == rows[..|turn|]
    requires forall i :: 0 < i < |turn| ==> CutsTurn(rows, i)
    ensures k == SplitAt(Costs(sink, rows), 1, |turn|, acc + Costs(sink, rows)[0], budget)
  {
    ghost var costs := Costs(sink, rows);
    ghost var split := SplitAt(costs, 1, |turn|, acc + costs[0], budget);
    var bytes: nat := 0;
    k := 0;
    while k < |turn|
      invariant 0 <= k <= |turn|
      invariant if k == 0 then bytes == 0 else split == SplitAt(costs, k, |turn|, acc + bytes, budget)
    {
      var size := if sink.Json? then turn[k].json + (if k > 0 then 1 else 0)
                  else turn[k].html + (if k == 0 then turn[k].link else 0);
      assert costs[k] == CostAt(sink, rows, k) && (k > 0 ==> CutsTurn(rows, k));
      if k > 0 && acc + bytes + size > budget {
        return;
      }
      bytes := bytes + size;
      k := k + 1;
    }
  }

  // -- The two admissions -----------------------------------------------------

  datatype Served = Served(row: Row, continued: bool)

  function Unmarked(rows: seq<Row>): (served: seq<Served>)
    ensures |served| == |rows|
  {
    seq(|rows|, i requires 0 <= i < |rows| => Served(rows[i], false))
  }

  lemma UnmarkedAppend(a: seq<Row>, b: seq<Row>)
    ensures Unmarked(a + b) == Unmarked(a) + Unmarked(b)
  {
  }

  // A page's messages; the last one is marked when the turn goes on overleaf.
  function Marked(rows: seq<Row>, continued: bool): seq<Served> {
    if continued && rows != [] then
      Unmarked(rows[..|rows| - 1]) + [Served(rows[|rows| - 1], true)]
    else Unmarked(rows)
  }

  // Group g starts at row starts[g], where a turn starts, and ends where it ends.
  ghost predicate GroupAt(messages: seq<Row>, groups: seq<seq<Row>>, starts: seq<nat>, g: nat)
    requires g < |groups| && |starts| == |groups| + 1
  {
    && starts[g] < |messages| && starts[g + 1] == GroupEnd(messages, starts[g])
    && groups[g] == messages[starts[g]..starts[g + 1]] && !CutsTurn(messages, starts[g])
  }

  // The groups of the messages from row i on.
  ghost predicate CutFrom(messages: seq<Row>, i: nat, groups: seq<seq<Row>>, starts: seq<nat>) {
    && |starts| == |groups| + 1 && starts[0] == i && starts[|groups|] == |messages|
    && forall g: nat :: g < |groups| ==> GroupAt(messages, groups, starts, g)
  }

  lemma {:induction false} GroupsAreCut(messages: seq<Row>, i: nat) returns (starts: seq<nat>)
    requires i <= |messages| && !CutsTurn(messages, i)
    ensures CutFrom(messages, i, GroupsFrom(messages, i), starts)
    decreases |messages| - i
  {
    if i == |messages| {
      return [i];
    }
    GroupEndIsBoundary(messages, i);
    var j := GroupEnd(messages, i);
    var rest := GroupsAreCut(messages, j);
    var groups := GroupsFrom(messages, i);
    starts := [i] + rest;
    forall g: nat | g < |groups| ensures GroupAt(messages, groups, starts, g) {
      if g > 0 {
        assert GroupAt(messages, GroupsFrom(messages, j), rest, g - 1);
      }
    }
  }

  lemma TurnCosts(messages: seq<Row>, pos: nat, end: nat)
    requires pos < |messages| && end == GroupEnd(messages, pos) && !CutsTurn(messages, pos)
    ensures forall k :: pos < k < end ==> CutsTurn(messages, k)
    ensures (if pos > 0 then 1 else 0) + JsonBytes(messages[pos..end]) + (end - pos - 1) == Sum(Costs(Json, messages), pos, end)
    ensures HtmlBytes(messages[pos..end]) == Sum(Costs(Html, messages), pos, end)
  {
    GroupEndIsBoundary(messages, pos);
    JsonTurnCost(messages, pos, end);
    HtmlTurnCost(messages, pos, end);
  }

  // The blocks hold the first n messages and are as large as those cost.
  ghost predicate Renders(rendered: seq<seq<Row>>, messages: seq<Row>, n: nat) {
    && |rendered| <= n <= |messages| && Flatten(rendered) == messages[..n]
    && BlocksBytes(rendered) == Sum(Costs(Html, messages), 0, n)
  }

  lemma RenderOne(rendered: seq<seq<Row>>, block: seq<Row>, messages: seq<Row>, n: nat, end: nat)
    requires Renders(rendered, messages, n) && n < end <= |messages| && block == messages[n..end]
    requires !CutsTurn(messages, n) && end <= GroupEnd(messages, n)
    ensures Renders(rendered + [block], messages, end)
  {
    GroupEndIsBoundary(messages, n);
    FlattenAppend(rendered, messages[n..end]);
    BlocksAppend(rendered, messages[n..end]);
    HtmlTurnCost(messages, n, end);
    SumSplits(Costs(Html, messages), 0, n, end);
    assert messages[..end] == messages[..n] + messages[n..end];
  }

  // Whole groups are whole turns.
  lemma {:induction false} GroupsRender(messages: seq<Row>, groups: seq<seq<Row>>, starts: seq<nat>, g: nat)
    requires CutFrom(messages, 0, groups, starts) && g <= |groups|
    ensures Renders(groups[..g], messages, starts[g])
  {
    if g > 0 {
      GroupsRender(messages, groups, starts, g - 1);
      assert GroupAt(messages, groups, starts, g - 1);
      RenderOne(groups[..g - 1], groups[g - 1], messages, starts[g - 1], starts[g]);
      assert groups[..g] == groups[..g - 1] + [groups[g - 1]];
    }
  }

  lemma PartRenders(messages: seq<Row>, k: nat)
    requires messages != [] && 0 < k <= GroupEnd(messages, 0)
    ensures Renders([messages[..k]], messages, k)
  {
    assert messages[..k] == messages[0..k] && [] + [messages[..k]] == [messages[..k]];
    RenderOne([], messages[..k], messages, 0, k);
  }

  // What the admission has to return once it knows n.
  ghost predicate Outcome(messages: seq<Row>, n: nat, next: Option<Cursor>) {
    n <= |messages| && next == if n < |messages| then Some(messages[n].Key()) else None
  }

  // What the admission comes to, given that the first n messages are admitted.
  ghost predicate Comes(messages: seq<Row>, costs: seq<nat>, n: nat, acc: nat, budget: nat, total: nat) {
    n <= |messages| == |costs| && Admitted(messages, costs, n, acc, budget) == total
  }

  // The next turn is admitted whole,
  lemma TurnFits(messages: seq<Row>, costs: seq<nat>, n: nat, end: nat, acc: nat, budget: nat, total: nat)
    requires Comes(messages, costs, n, acc, budget, total) && n < |messages| && end == GroupEnd(messages, n)
    requires || acc + Sum(costs, n, end) <= budget
             || (n == 0 && SplitAt(costs, 1, end, acc + costs[0], budget) == end)
    ensures Comes(messages, costs, end, acc + Sum(costs, n, end), budget, total)
  {
  }

  // or the page ends before it,
  lemma TurnWaits(messages: seq<Row>, costs: seq<nat>, n: nat, acc: nat, budget: nat, total: nat)
    requires Comes(messages, costs, n, acc, budget, total) && 0 < n < |messages|
    requires acc + Sum(costs, n, GroupEnd(messages, n)) > budget
    ensures total == n
  {
  }

  // or, when the page is empty, inside it.
  lemma TurnIsCut(messages: seq<Row>, costs: seq<nat>, k: nat, acc: nat, budget: nat, total: nat)
    requires Comes(messages, costs, 0, acc, budget, total) && messages != [] && k < GroupEnd(messages, 0)
    requires acc + Sum(costs, 0, GroupEnd(messages, 0)) > budget
    requires k == SplitAt(costs, 1, GroupEnd(messages, 0), acc + costs[0], budget)
    ensures total == k && CutsTurn(messages, k)
  {
    GroupEndIsBoundary(messages, 0);
  }

  lemma PageIsFull(messages: seq<Row>, costs: seq<nat>, acc: nat, budget: nat, total: nat)
    requires Comes(messages, costs, |messages|, acc, budget, total)
    ensures total == |messages|
  {
  }

  // How much of the first turn an empty page takes: part of it, or after all the whole.
  method FirstPart(sink: Sink, turn: seq<Row>, acc: nat, budget: nat, ghost messages: seq<Row>, ghost total: nat)
    returns (k: nat)
    requires messages != [] && turn == messages[..GroupEnd(messages, 0)]
    requires Comes(messages, Costs(sink, messages), 0, acc, budget, total)
    requires acc + Sum(Costs(sink, messages), 0, |turn|) > budget
    ensures 0 < k <= |turn|
    ensures k < |turn| ==> total == k && CutsTurn(messages, k)
    ensures k == |turn| ==>
              Comes(messages, Costs(sink, messages), k, acc + Sum(Costs(sink, messages), 0, k), budget, total)
  {
    ghost var costs := Costs(sink, messages);
    GroupEndIsBoundary(messages, 0);
    k := SplitTurn(sink, turn, acc, budget, messages);
    if k < |turn| {
      TurnIsCut(messages, costs, k, acc, budget, total);
    } else {
      TurnFits(messages, costs, 0, k, acc, budget, total);
    }
  }

  function RowsOfServed(served: seq<Served>): seq<Row> {
    seq(|served|, i requires 0 <= i < |served| => served[i].row)
  }

  lemma MarkedKeepsRows(rows: seq<Row>, continued: bool)
    ensures RowsOfServed(Marked(rows, continued)) == rows
  {
  }

  method AdmitJsonTurns(messages: seq<Row>, groups: seq<seq<Row>>, seed: nat, budgetBytes: nat, ghost starts: seq<nat>)
    returns (admitted: seq<Served>, next: Option<Cursor>)
    requires CutFrom(messages, 0, groups, starts)
    ensures var n := Admitted(messages, Costs(Json, messages), 0, seed, budgetBytes);
            admitted == Marked(messages[..n], CutsTurn(messages, n)) && Outcome(messages, n, next)
  {
    ghost var costs := Costs(Json, messages);
    var accumulator: nat := seed;
    admitted, next := [], None;
    ghost var n, total := 0, Admitted(messages, costs, 0, seed, budgetBytes);
    for g := 0 to |groups|
      invariant n == starts[g] <= |messages| && admitted == Unmarked(messages[..n]) && next.None?
      invariant Comes(messages, costs, n, accumulator, budgetBytes, total)
      invariant n == 0 <==> g == 0
    {
      var turn := groups[g];
      ghost var end := starts[g + 1];
      assert GroupAt(messages, groups, starts, g);
      TurnCosts(messages, n, end);
      var joiner := if admitted != [] then 1 else 0;
      var turnBytes := joiner + JsonBytes(turn) + (|turn| - 1);
      if accumulator + turnBytes <= budgetBytes {
        TurnFits(messages, costs, n, end, accumulator, budgetBytes, total);
      } else if admitted != [] {
        TurnWaits(messages, costs, n, accumulator, budgetBytes, total);
        return admitted, Some(Cursor(turn[0].turn, turn[0].id));
      } else {
        assert turn == messages[..|turn|];
        var k := FirstPart(Json, turn, accumulator, budgetBytes, messages, total);
        if k < |turn| {
          assert turn[..k] == messages[..k];
          return Marked(turn[..k], true), Some(turn[k].Key());
        }
      }
      assert messages[..end] == messages[..n] + turn;
      UnmarkedAppend(messages[..n], turn);
      admitted := admitted + Unmarked(turn);
      accumulator := accumulator + turnBytes;
      n := end;
    }
    PageIsFull(messages, costs, accumulator, budgetBytes, total);
  }

  method AdmitJsonTranscript(messages: seq<Row>, envelopeBytes: nat, readerNext: Option<Cursor>,
                             budgetBytes: nat, suffixBytes: nat)
    returns (admitted: seq<Served>, next: Option<Cursor>)
    ensures var n := Admitted(messages, Costs(Json, messages), 0, envelopeBytes + suffixBytes, budgetBytes);
            admitted == Marked(messages[..n], CutsTurn(messages, n))
    ensures var n := Admitted(messages, Costs(Json, messages), 0, envelopeBytes + suffixBytes, budgetBytes);
            Shown(messages[..n], next) == Show(Json, Read(messages, readerNext), envelopeBytes + suffixBytes, budgetBytes)
  {
    var groups := TurnGroups(messages);
    ghost var starts := GroupsAreCut(messages, 0);
    admitted, next := AdmitJsonTurns(messages, groups, envelopeBytes + suffixBytes, budgetBytes, starts);
    if next.None? {
      next := readerNext;
    }
  }

  method RenderTurns(messages: seq<Row>, groups: seq<seq<Row>>, seed: nat, budgetBytes: nat, ghost starts: seq<nat>)
    returns (rendered: seq<seq<Row>>, next: Option<Cursor>, split: bool)
    requires CutFrom(messages, 0, groups, starts)
    ensures var n := Admitted(messages, Costs(Html, messages), 0, seed, budgetBytes);
            Renders(rendered, messages, n) && Outcome(messages, n, next) && split == CutsTurn(messages, n)
  {
    ghost var costs := Costs(Html, messages);
    var accumulator: nat := seed;
    rendered, next, split := [], None, false;
    ghost var n, total := 0, Admitted(messages, costs, 0, seed, budgetBytes);
    for g := 0 to |groups|
      invariant n == starts[g] <= |messages| && rendered == groups[..g] && next.None? && !split
      invariant Comes(messages, costs, n, accumulator, budgetBytes, total)
      invariant n == 0 <==> g == 0
    {
      var turn := groups[g];
      ghost var end := starts[g + 1];
      assert GroupAt(messages, groups, starts, g);
      TurnCosts(messages, n, end);
      var turnBytes := HtmlBytes(turn);
      if accumulator + turnBytes <= budgetBytes {
        TurnFits(messages, costs, n, end, accumulator, budgetBytes, total);
      } else if rendered != [] {
        TurnWaits(messages, costs, n, accumulator, budgetBytes, total);
        GroupsRender(messages, groups, starts, g);
        return rendered, Some(Cursor(turn[0].turn, turn[0].id)), false;
      } else {
        assert turn == messages[..|turn|];
        var k := FirstPart(Html, turn, accumulator, budgetBytes, messages, total);
        if k < |turn| {
          assert turn[..k] == messages[..k];
          PartRenders(messages, k);
          return [turn[..k]], Some(turn[k].Key()), true;
        }
      }
      rendered := rendered + [turn];
      accumulator := accumulator + turnBytes;
      n := end;
    }
    GroupsRender(messages, groups, starts, |groups|);
    PageIsFull(messages, costs, accumulator, budgetBytes, total);
  }

  method ConversationTranscriptSection(messages: seq<Row>, chromeBytes: nat, wrapperBytes: nat, readerNext: Option<Cursor>,
                                       budgetBytes: nat, suffixBytes: nat)
    returns (rendered: seq<seq<Row>>, next: Option<Cursor>, split: bool)
    ensures var n := Admitted(messages, Costs(Html, messages), 0, chromeBytes + suffixBytes + wrapperBytes, budgetBytes);
            && Flatten(rendered) == messages[..n] && |rendered| <= n && split == CutsTurn(messages, n)
            && BlocksBytes(rendered) == Sum(Costs(Html, messages), 0, n)
    ensures var n := Admitted(messages, Costs(Html, messages), 0, chromeBytes + suffixBytes + wrapperBytes, budgetBytes);
            Shown(messages[..n], next)
            == Show(Html, Read(messages, readerNext), chromeBytes + suffixBytes + wrapperBytes, budgetBytes)
  {
    var groups := TurnGroups(messages);
    ghost var starts := GroupsAreCut(messages, 0);
    rendered, next, split := RenderTurns(messages, groups, chromeBytes + suffixBytes + wrapperBytes, budgetBytes, starts);
    if next.None? {
      next := readerNext;
    }
  }

  // -- The footer's view of the page ------------------------------------------

  // Everything before the message `next` names, or all of it when it names none.
  function BeforeNext(messages: seq<Row>, next: Option<Cursor>): seq<Row> {
    if messages == [] || Some(messages[0].Key()) == next then []
    else [messages[0]] + BeforeNext(messages[1..], next)
  }

  method RenderedPageMessages(messages: seq<Row>, next: Option<Cursor>) returns (rendered: seq<Row>)
    ensures rendered == BeforeNext(messages, next)
  {
    if next.None? {
      NothingNamed(messages, next);
      return messages;
    }
    for i := 0 to |messages|
      invariant BeforeNext(messages, next) == messages[..i] + BeforeNext(messages[i..], next)
    {
      if messages[i].Key() == next.value {
        return messages[..i];
      }
      assert messages[i..][1..] == messages[i + 1..];
    }
    rendered := messages;
  }

  lemma {:induction false} NothingNamed(messages: seq<Row>, next: Option<Cursor>)
    requires forall i :: 0 <= i < |messages| ==> next != Some(messages[i].Key())
    ensures BeforeNext(messages, next) == messages
  {
    if messages != [] {
      NothingNamed(messages[1..], next);
    }
  }

  // When `next` is the first message not shown, the footer counts the shown ones.
  lemma {:induction false} CountsWhatWasShown(messages: seq<Row>, n: nat, next: Option<Cursor>)
    requires Sorted(messages) && n < |messages| && next == Some(messages[n].Key())
    ensures BeforeNext(messages, next) == messages[..n]
  {
    if n > 0 {
      assert Before(messages[0].Key(), messages[n].Key());
      CountsWhatWasShown(messages[1..], n - 1, next);
      assert messages[..n] == [messages[0]] + messages[1..][..n - 1];
    }
  }
}
