// The stored transcript of one conversation: rows filed under turn numbers.

module Conversations {
  import opened AgentMessages

  datatype Row = Row(turn: nat, message: Message)

  // -- Turns ------------------------------------------------------------------

  function MaxTurn(rows: seq<Row>): nat {
    if rows == [] then 0
    else
      var rest := MaxTurn(rows[..|rows| - 1]);
      var last := rows[|rows| - 1].turn;
      if last > rest then last else rest
  }

  function NextTurn(rows: seq<Row>): nat {
    MaxTurn(rows) + 1
  }

  // Where the run of rows sharing row n - 1's turn begins.
  function GroupStart(rows: seq<Row>, n: nat): (g: nat)
    requires 0 < n <= |rows|
    ensures g < n && rows[g].turn == rows[n - 1].turn
    ensures g > 0 ==> rows[g - 1].turn != rows[g].turn
  {
    if n == 1 || rows[n - 2].turn != rows[n - 1].turn then n - 1 else GroupStart(rows, n - 1)
  }

  lemma {:induction false} GroupIsOneTurn(rows: seq<Row>, n: nat, k: nat)
    requires 0 < n <= |rows| && GroupStart(rows, n) <= k < n
    ensures rows[k].turn == rows[n - 1].turn
  {
    if k < n - 1 {
      GroupIsOneTurn(rows, n - 1, k);
    }
  }

  function Messages(rows: seq<Row>): seq<Message> {
    seq(|rows|, i requires 0 <= i < |rows| => rows[i].message)
  }

  // What one turn holds: a plain message, or an assistant message whose calls
  // carry the ids minted for this turn, with one result per call.
  ghost predicate IsTurn(rows: seq<Row>, g: nat, n: nat)
    requires g < n <= |rows|
  {
    var first := rows[g].message;
    && (first.User? || first.Assistant?)
    && n - g == UnitLength(first)
    && (first.Assistant? ==> Minted(rows[g].turn, first.calls))
    && (first.Assistant? ==> forall k :: g < k < n ==> IsResult(rows, g, k))
  }

  // Row k is the result of the call of row g that stands k - g - 1 places in.
  ghost predicate IsResult(rows: seq<Row>, g: nat, k: nat)
    requires g < k < |rows| && rows[g].message.Assistant?
  {
    && k - g - 1 < |rows[g].message.calls|
    && rows[k].message.Tool? && rows[k].message.callId == rows[g].message.calls[k - g - 1].id
  }

  ghost predicate Minted(turn: nat, calls: seq<Call>) {
    forall c :: 0 <= c < |calls| ==> calls[c].id == MintedId(turn, c)
  }

  // The first n rows are whole turns with increasing numbers.
  ghost predicate StoredTo(rows: seq<Row>, n: nat)
    requires n <= |rows|
    decreases n
  {
    n == 0 ||
    var g := GroupStart(rows, n);
    && IsTurn(rows, g, n)
    && (g > 0 ==> rows[g - 1].turn < rows[g].turn)
    && StoredTo(rows, g)
  }

  ghost predicate Stored(rows: seq<Row>) {
    StoredTo(rows, |rows|)
  }

  lemma MintedAreDistinct(turn: nat, calls: seq<Call>)
    requires Minted(turn, calls)
    ensures DistinctIds(calls)
  {
    forall i, j | 0 <= i < j < |calls| ensures calls[i].id != calls[j].id {
      MintedIdsDiffer(turn, i, turn, j);
    }
  }

  lemma TurnIsWellFormed(rows: seq<Row>, g: nat, n: nat)
    requires g < n <= |rows| && IsTurn(rows, g, n)
    ensures WellFormed(Messages(rows[g..n]))
  {
    var messages := Messages(rows[g..n]);
    assert forall k :: g <= k < n ==> messages[k - g] == rows[k].message;
    if messages[0].Assistant? {
      var calls := messages[0].calls;
      MintedAreDistinct(rows[g].turn, calls);
      forall i | 0 <= i < |calls| ensures messages[1..][i].Tool? && messages[1..][i].callId == calls[i].id {
        assert IsResult(rows, g, g + 1 + i);
        assert messages[1..][i] == rows[g + 1 + i].message;
      }
    }
    assert messages[UnitLength(messages[0])..] == [];
    WellFormedCons(messages);
  }

  ghost predicate Ascending(rows: seq<Row>) {
    forall i, j :: 0 <= i <= j < |rows| ==> rows[i].turn <= rows[j].turn
  }

  // Later rows do not change what earlier rows mean.
  lemma {:induction false} GroupStartPrefix(rows: seq<Row>, more: seq<Row>, n: nat)
    requires 0 < n <= |rows| <= |more| && forall k :: 0 <= k < |rows| ==> more[k] == rows[k]
    ensures GroupStart(more, n) == GroupStart(rows, n)
    decreases n
  {
    if n > 1 {
      GroupStartPrefix(rows, more, n - 1);
    }
  }

  lemma TurnPrefix(rows: seq<Row>, more: seq<Row>, g: nat, n: nat)
    requires g < n <= |rows| <= |more| && forall k :: 0 <= k < |rows| ==> more[k] == rows[k]
    ensures IsTurn(more, g, n) == IsTurn(rows, g, n)
  {
    if rows[g].message.Assistant? {
      forall k | g < k < n ensures IsResult(more, g, k) == IsResult(rows, g, k) {
      }
    }
  }

  lemma {:induction false} StoredPrefix(rows: seq<Row>, more: seq<Row>, n: nat)
    requires n <= |rows| <= |more| && forall k :: 0 <= k < |rows| ==> more[k] == rows[k]
    ensures StoredTo(more, n) == StoredTo(rows, n)
    decreases n
  {
    if n > 0 {
      GroupStartPrefix(rows, more, n);
      var g := GroupStart(rows, n);
      TurnPrefix(rows, more, g, n);
      StoredPrefix(rows, more, g);
    }
  }

  lemma {:induction false} TurnsAscend(rows: seq<Row>, n: nat, i: nat, j: nat)
    requires n <= |rows| && StoredTo(rows, n) && i <= j < n
    ensures rows[i].turn <= rows[j].turn
    decreases n
  {
    var g := GroupStart(rows, n);
    if j < g {
      TurnsAscend(rows, g, i, j);
    } else {
      GroupIsOneTurn(rows, n, j);
      if i < g {
        TurnsAscend(rows, g, i, g - 1);
      } else {
        GroupIsOneTurn(rows, n, i);
      }
    }
  }

  lemma StoredAscends(rows: seq<Row>)
    requires Stored(rows)
    ensures Ascending(rows)
  {
    forall i, j | 0 <= i <= j < |rows| ensures rows[i].turn <= rows[j].turn {
      TurnsAscend(rows, |rows|, i, j);
    }
  }

  lemma {:induction false} MaxTurnBounds(rows: seq<Row>)
    ensures forall i :: 0 <= i < |rows| ==> rows[i].turn <= MaxTurn(rows)
    ensures rows != [] ==> exists i :: 0 <= i < |rows| && rows[i].turn == MaxTurn(rows)
  {
    if rows != [] {
      var rest := rows[..|rows| - 1];
      MaxTurnBounds(rest);
      assert forall i :: 0 <= i < |rest| ==> rest[i] == rows[i];
      if MaxTurn(rest) == MaxTurn(rows) && rest != [] {
        var i :| 0 <= i < |rest| && rest[i].turn == MaxTurn(rest);
        assert rows[i].turn == MaxTurn(rows);
      } else {
        assert rows[|rows| - 1].turn == MaxTurn(rows) || rest == [];
      }
    }
  }

  // -- Writing ----------------------------------------------------------------

  function Filed(turn: nat, messages: seq<Message>): seq<Row> {
    seq(|messages|, i requires 0 <= i < |messages| => Row(turn, messages[i]))
  }

  lemma {:induction false} GroupOfFiled(rows: seq<Row>, turn: nat, messages: seq<Message>, n: nat)
    requires 0 < n <= |messages| && (rows != [] ==> rows[|rows| - 1].turn != turn)
    ensures GroupStart(rows + Filed(turn, messages), |rows| + n) == |rows|
    decreases n
  {
    if n > 1 {
      GroupOfFiled(rows, turn, messages, n - 1);
    }
  }

  lemma TurnShift(rows: seq<Row>, turn: seq<Row>)
    requires turn != [] && IsTurn(turn, 0, |turn|)
    ensures IsTurn(rows + turn, |rows|, |rows| + |turn|)
  {
    var more := rows + turn;
    if turn[0].message.Assistant? {
      forall k | |rows| < k < |more| ensures IsResult(more, |rows|, k) {
        assert IsResult(turn, 0, k - |rows|);
      }
    }
  }

  // Filing one more turn keeps the transcript.
  lemma FilingKeepsStored(rows: seq<Row>, messages: seq<Message>)
    requires Stored(rows) && messages != []
    requires IsTurn(Filed(NextTurn(rows), messages), 0, |messages|)
    ensures Stored(rows + Filed(NextTurn(rows), messages))
  {
    var turn := NextTurn(rows);
    var more := rows + Filed(turn, messages);
    MaxTurnBounds(rows);
    GroupOfFiled(rows, turn, messages, |messages|);
    TurnShift(rows, Filed(turn, messages));
    StoredPrefix(rows, more, |rows|);
  }

  // -- Reading ids back -------------------------------------------------------

  lemma OnlyFirstIsAssistant(rows: seq<Row>, g: nat, n: nat)
    requires g < n <= |rows| && IsTurn(rows, g, n)
    ensures forall k :: g < k < n ==> !rows[k].message.Assistant?
  {
    if rows[g].message.Assistant? {
      forall k | g < k < n ensures !rows[k].message.Assistant? {
        assert IsResult(rows, g, k);
      }
    }
  }

  lemma {:induction false} AssistantOpensTurn(rows: seq<Row>, n: nat, i: nat)
    requires n <= |rows| && StoredTo(rows, n) && i < n && rows[i].message.Assistant?
    ensures Minted(rows[i].turn, rows[i].message.calls)
    ensures i > 0 ==> rows[i - 1].turn < rows[i].turn
    decreases n
  {
    var g := GroupStart(rows, n);
    if i < g {
      AssistantOpensTurn(rows, g, i);
    } else {
      OnlyFirstIsAssistant(rows, g, n);
    }
  }

  // Ids are unique in a conversation: no two calls of the transcript share one.
  lemma CallIdsAreUnique(rows: seq<Row>, i: nat, c: nat, j: nat, d: nat)
    requires Stored(rows) && i < |rows| && j < |rows| && (i, c) != (j, d)
    requires rows[i].message.Assistant? && c < |rows[i].message.calls|
    requires rows[j].message.Assistant? && d < |rows[j].message.calls|
    ensures rows[i].message.calls[c].id != rows[j].message.calls[d].id
  {
    AssistantOpensTurn(rows, |rows|, i);
    AssistantOpensTurn(rows, |rows|, j);
    if i < j {
      TurnsAscend(rows, |rows|, i, j - 1);
    } else if j < i {
      TurnsAscend(rows, |rows|, j, i - 1);
    }
    MintedIdsDiffer(rows[i].turn, c, rows[j].turn, d);
  }

  // -- Any stretch between turn boundaries is well formed ------------------------

  ghost predicate Boundary(rows: seq<Row>, i: nat)
    requires i <= |rows|
  {
    i == 0 || i == |rows| || rows[i - 1].turn != rows[i].turn
  }

  lemma {:induction false} DropStored(rows: seq<Row>, i: nat, n: nat)
    requires i <= n <= |rows| && StoredTo(rows, n) && Boundary(rows, i)
    ensures StoredTo(rows[i..], n - i)
    decreases n
  {
    if n > i {
      var g, rest := GroupStart(rows, n), rows[i..];
      BoundaryBeforeGroup(rows, i, n);
      GroupStartDrop(rows, i, n);
      TurnDrop(rows, i, g, n);
      DropStored(rows, i, g);
    }
  }

  lemma {:induction false} BoundaryBeforeGroup(rows: seq<Row>, i: nat, n: nat)
    requires i < n <= |rows| && Boundary(rows, i)
    ensures i <= GroupStart(rows, n)
  {
    if i < n - 1 && GroupStart(rows, n) < n - 1 {
      BoundaryBeforeGroup(rows, i, n - 1);
    }
  }

  lemma TurnDrop(rows: seq<Row>, i: nat, g: nat, n: nat)
    requires i <= g < n <= |rows| && IsTurn(rows, g, n)
    ensures IsTurn(rows[i..], g - i, n - i)
  {
    var rest, h := rows[i..], g - i;
    if rows[g].message.Assistant? {
      forall k | h < k < n - i ensures IsResult(rest, h, k) {
        assert IsResult(rows, g, k + i);
      }
    }
  }

  lemma {:induction false} GroupStartDrop(rows: seq<Row>, i: nat, n: nat)
    requires i < n <= |rows| && i <= GroupStart(rows, n)
    ensures GroupStart(rows[i..], n - i) == GroupStart(rows, n) - i
    decreases n
  {
    if n - i > 1 && rows[n - 2].turn == rows[n - 1].turn {
      GroupStartDrop(rows, i, n - 1);
    }
  }

  lemma {:induction false} StoredIsWellFormed(rows: seq<Row>, n: nat)
    requires n <= |rows| && StoredTo(rows, n)
    ensures WellFormed(Messages(rows[..n]))
    decreases n
  {
    if n > 0 {
      var g := GroupStart(rows, n);
      StoredIsWellFormed(rows, g);
      TurnIsWellFormed(rows, g, n);
      WellFormedAppend(Messages(rows[..g]), Messages(rows[g..n]));
      assert Messages(rows[..n]) == Messages(rows[..g]) + Messages(rows[g..n]);
    } else {
      assert Messages(rows[..n]) == [];
    }
  }

  // -- The table --------------------------------------------------------------

  class Conversation {
    var rows: seq<Row>

    constructor ()
      ensures rows == []
    {
      rows := [];
    }

    method ReadNextTurn() returns (turn: nat)
      ensures turn == NextTurn(rows)
    {
      turn := 1;
      for i := 0 to |rows|
        invariant turn == NextTurn(rows[..i])
      {
        assert rows[..i + 1][..i] == rows[..i];
        if rows[i].turn >= turn {
          turn := rows[i].turn + 1;
        }
      }
      assert rows[..|rows|] == rows;
    }

    method AddSingleRow(message: Message) returns (turn: nat)
      modifies this
      ensures turn == old(NextTurn(rows))
      ensures rows == old(rows) + Filed(turn, [message])
    {
      turn := ReadNextTurn();
      rows := rows + [Row(turn, message)];
      assert Filed(turn, [message]) == [Row(turn, message)];
    }

    // One transaction: all of the turn's rows, or, when a statement fails, none.
    // `budget` is how many inserts succeed before one fails.
    method AddToolTurn(text: string, calls: seq<Call>, results: seq<(string, string)>, budget: nat) returns (done: bool)
      modifies this
      ensures done == (budget > |results|)
      ensures !done ==> rows == old(rows)
      ensures done ==> rows == old(rows) + Filed(old(NextTurn(rows)), TurnMessages(text, calls, results))
    {
      var saved := rows;
      ghost var messages := TurnMessages(text, calls, results);
      var turn := ReadNextTurn();
      if budget == 0 {
        return false;
      }
      rows := rows + [Row(turn, Assistant(text, calls))];
      assert Filed(turn, messages)[..1] == [Row(turn, Assistant(text, calls))];
      for i := 0 to |results|
        invariant i < budget
        invariant rows == saved + Filed(turn, messages)[..1 + i]
      {
        if i + 1 == budget {
          rows := saved;
          return false;
        }
        rows := rows + [Row(turn, Tool(results[i].0, results[i].1))];
      }
      assert Filed(turn, messages)[..|messages|] == Filed(turn, messages);
      done := true;
    }
  }
}
