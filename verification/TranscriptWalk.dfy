// Theorems about whole walks through the two layers of Transcript.

module TranscriptWalk {
  import opened Common
  import Decimal
  import opened Transcript

  // -- Cursor texts -----------------------------------------------------------

  lemma {:induction false} DashAfterDigits(a: string, b: string)
    requires Decimal.AllDigits(a)
    ensures DashAt(a + "-" + b) == |a|
  {
    if a == [] {
      assert a + "-" + b == "-" + b;
    } else {
      DashAfterDigits(a[1..], b);
      assert (a + "-" + b)[1..] == a[1..] + "-" + b;
      assert (a + "-" + b)[0] == a[0];
    }
  }

  // A next_cursor reads back as itself exactly when both numbers have at most
  // ten digits; SQLite hands out ids far beyond that.
  lemma CursorRoundTrip(c: Cursor)
    ensures ParseCursor(CursorText(c)) == if Addressable(c) then Some(c) else None
  {
    var a, b := Decimal.Render(c.turn), Decimal.Render(c.id);
    var s := CursorText(c);
    DashAfterDigits(a, b);
    assert s[..|a|] == a && s[|a| + 1..] == b;
    Decimal.RenderLength(c.turn, 10);
    Decimal.RenderLength(c.id, 10);
    assert Decimal.Pow10(10) == 10000000000 by {
      assert Decimal.Pow10(5) == 100000;
      assert Decimal.Pow10(10) == 10 * (10 * (10 * (10 * (10 * Decimal.Pow10(5)))));
    }
    Decimal.RenderThenValue(c.turn);
    Decimal.RenderThenValue(c.id);
  }

  // -- The reader -------------------------------------------------------------

  lemma {:induction false} FromCursorIsSuffix(rows: seq<Row>, k: nat)
    requires Sorted(rows) && k < |rows|
    ensures FromCursor(rows, rows[k].Key()) == rows[k..]
    decreases |rows|
  {
    var c := rows[k].Key();
    if k == 0 {
      if |rows| > 1 {
        FromCursorKeepsAll(rows[1..], c);
      }
    } else {
      FromCursorIsSuffix(rows[1..], k - 1);
      assert rows[1..][k - 1..] == rows[k..];
    }
  }

  lemma {:induction false} FromCursorKeepsAll(rows: seq<Row>, c: Cursor)
    requires forall i :: 0 <= i < |rows| ==> !Before(rows[i].Key(), c)
    ensures FromCursor(rows, c) == rows
  {
    if rows != [] {
      FromCursorKeepsAll(rows[1..], c);
    }
  }

  lemma {:induction false} GroupEndIsBoundary(rows: seq<Row>, i: nat)
    requires i < |rows|
    ensures !CutsTurn(rows, GroupEnd(rows, i))
    ensures forall m :: i < m < GroupEnd(rows, i) ==> CutsTurn(rows, m)
    decreases |rows| - i
  {
    if i + 1 < |rows| && rows[i + 1].turn == rows[i].turn {
      GroupEndIsBoundary(rows, i + 1);
    }
  }

  lemma {:induction false} WholeTurnsBoundary(rows: seq<Row>, i: nat, limit: int)
    requires i < |rows| && limit > 0
    ensures var n := WholeTurns(rows, i, limit);
            i < n && (n - i < limit ==> n == |rows|) && !CutsTurn(rows, n)
    decreases |rows| - i
  {
    var j := GroupEnd(rows, i);
    GroupEndIsBoundary(rows, i);
    if j < |rows| && limit - (j - i) > 0 {
      WholeTurnsBoundary(rows, j, limit - (j - i));
    }
  }

  // No shorter run of whole turns would have filled the page.
  lemma {:induction false} WholeTurnsMinimal(rows: seq<Row>, i: nat, limit: int, m: nat)
    requires i < |rows| && i < m < WholeTurns(rows, i, limit) && !CutsTurn(rows, m)
    ensures m - i < limit
    decreases |rows| - i
  {
    var j := GroupEnd(rows, i);
    GroupEndIsBoundary(rows, i);
    if m > j {
      WholeTurnsMinimal(rows, j, limit - (j - i), m);
    }
  }

  lemma PageOfRest(rest: seq<Row>, limit: nat) returns (n: nat)
    requires rest != [] && limit > 0
    ensures n == Min(WholeTurns(rest, 0, limit), FETCH_ROWS_MAX) && 0 < n <= |rest|
    ensures n < FETCH_ROWS_MAX ==> !CutsTurn(rest, n)
    ensures n < Min(limit, FETCH_ROWS_MAX) ==> n == |rest|
    ensures forall m :: 0 < m < n && !CutsTurn(rest, m) ==> m < limit
  {
    n := Min(WholeTurns(rest, 0, limit), FETCH_ROWS_MAX);
    WholeTurnsBoundary(rest, 0, limit);
    forall m | 0 < m < n && !CutsTurn(rest, m) ensures m < limit {
      WholeTurnsMinimal(rest, 0, limit, m);
    }
  }

  // A page of the reader ends between two turns unless the row cap cut it, and
  // ends there as early as the limit allows.
  lemma ReaderEndsBetweenTurns(table: seq<Row>, limit: nat, k: nat)
    requires Sorted(table) && k < |table| && limit > 0
    ensures var r := ReadPage(table, limit, Some(table[k].Key()));
            && r.Read? && 0 < |r.rows| <= |table| - k && r.rows == table[k..k + |r.rows|]
            && (|r.rows| < FETCH_ROWS_MAX ==> !CutsTurn(table[k..], |r.rows|))
            && (|r.rows| < Min(limit, FETCH_ROWS_MAX) ==> r.next == None)
            && (forall m :: 0 < m < |r.rows| && !CutsTurn(table[k..], m) ==> m < limit)
  {
    var n := PageOfRest(table[k..], limit);
    FromCursorIsSuffix(table, k);
    assert Names(table, table[k].Key());
    assert table[k..][..n] == table[k..k + n];
  }

  // -- Cursors that are refused ------------------------------------------------------

  ghost predicate IsNumber(s: string, n: nat) {
    1 <= |s| <= 10 && Decimal.AllDigits(s) && Decimal.Value(s) == n
  }

  // Two numbers of at most ten digits with a dash between them.
  ghost predicate Writes(query: string, a: string, b: string, c: Cursor) {
    query == a + "-" + b && IsNumber(a, c.turn) && IsNumber(b, c.id)
  }

  lemma ParsesIff(query: string, c: Cursor)
    ensures ParseCursor(query) == Some(c) <==> exists a, b :: Writes(query, a, b, c)
  {
    var d := DashAt(query);
    if ParseCursor(query) == Some(c) {
      assert query == query[..d] + "-" + query[d + 1..];
      assert Writes(query, query[..d], query[d + 1..], c);
    }
    if a, b :| Writes(query, a, b, c) {
      DashAfterDigits(a, b);
      assert query[..d] == a && query[d + 1..] == b;
    }
  }

  // A request for a page is refused exactly when it has a cursor that is not the text of
  // any row's numbers.
  lemma RefusedIff(sink: Sink, table: seq<Row>, limit: nat, seed: nat, budget: nat, query: Option<string>)
    ensures ServePage(sink, table, limit, seed, budget, query).BadRequest? <==>
            query.Some? && forall i, a, b :: 0 <= i < |table| ==> !Writes(query.value, a, b, table[i].Key())
  {
    if query.Some? {
      forall i | 0 <= i < |table|
        ensures (ParseCursor(query.value) == Some(table[i].Key())) <==> exists a, b :: Writes(query.value, a, b, table[i].Key())
      {
        ParsesIff(query.value, table[i].Key());
      }
    }
  }

  // -- Byte admission ---------------------------------------------------------

  lemma {:induction false} SumSplits(costs: seq<nat>, i: nat, j: nat, k: nat)
    requires i <= j <= k <= |costs|
    ensures Sum(costs, i, k) == Sum(costs, i, j) + Sum(costs, j, k)
    decreases k - j
  {
    if j < k {
      SumSplits(costs, i, j, k - 1);
    }
  }

  lemma {:induction false} SplitFits(costs: seq<nat>, k: nat, end: nat, acc: nat, budget: nat)
    requires k <= end <= |costs|
    ensures var r := SplitAt(costs, k, end, acc, budget);
            && (k < r ==> acc + Sum(costs, k, r) <= budget)
            && (r < end ==> acc + Sum(costs, k, r + 1) > budget)
    decreases end - k
  {
    if k < end {
      assert Sum(costs, k, k + 1) == costs[k];
      if acc + costs[k] <= budget {
        SplitFits(costs, k + 1, end, acc + costs[k], budget);
        var r := SplitAt(costs, k, end, acc, budget);
        SumSplits(costs, k, k + 1, r);
        if r < end {
          SumSplits(costs, k, k + 1, r + 1);
        }
      }
    }
  }

  // A page holds at least one message, and overspends only when it holds one
  // message that is too large on its own.
  lemma {:induction false} AdmissionFits(rows: seq<Row>, costs: seq<nat>, i: nat, acc: nat, seed: nat, budget: nat)
    requires i <= |rows| == |costs| && acc == seed + Sum(costs, 0, i)
    requires i > 0 ==> acc <= budget || i == 1
    ensures var n := Admitted(rows, costs, i, acc, budget);
            && (rows != [] ==> 0 < n)
            && (n > 0 ==> seed + Sum(costs, 0, n) <= budget || n == 1)
    decreases |rows| - i
  {
    if i < |rows| {
      var j := GroupEnd(rows, i);
      SumSplits(costs, 0, i, j);
      var bytes := Sum(costs, i, j);
      if acc + bytes <= budget {
        AdmissionFits(rows, costs, j, acc + bytes, seed, budget);
      } else if i == 0 {
        assert Sum(costs, 0, 1) == costs[0];
        SplitFits(costs, 1, j, acc + costs[0], budget);
        var k := SplitAt(costs, 1, j, acc + costs[0], budget);
        SumSplits(costs, 0, 1, k);
        if k == j {
          AdmissionFits(rows, costs, j, acc + bytes, seed, budget);
        }
      }
    }
  }

  // Why a page stopped at n: the next whole turn would not have fitted; or, only
  // on a page whose first turn is too large for it, the next message would not.
  ghost predicate StoppedAt(rows: seq<Row>, costs: seq<nat>, n: nat, seed: nat, budget: nat)
    requires n < |rows| == |costs|
  {
    if CutsTurn(rows, n) then
      && n < GroupEnd(rows, 0)
      && seed + Sum(costs, 0, n + 1) > budget
      && seed + Sum(costs, 0, GroupEnd(rows, 0)) > budget
    else seed + Sum(costs, 0, GroupEnd(rows, n)) > budget
  }

  lemma {:induction false} AdmissionStops(rows: seq<Row>, costs: seq<nat>, i: nat, acc: nat, seed: nat, budget: nat)
    requires i <= |rows| == |costs| && acc == seed + Sum(costs, 0, i) && !CutsTurn(rows, i)
    ensures var n := Admitted(rows, costs, i, acc, budget);
            n < |rows| ==> StoppedAt(rows, costs, n, seed, budget)
    decreases |rows| - i
  {
    if i < |rows| {
      var j := GroupEnd(rows, i);
      GroupEndIsBoundary(rows, i);
      SumSplits(costs, 0, i, j);
      var bytes := Sum(costs, i, j);
      if acc + bytes <= budget {
        AdmissionStops(rows, costs, j, acc + bytes, seed, budget);
      } else if i == 0 {
        assert Sum(costs, 0, 1) == costs[0];
        SplitFits(costs, 1, j, acc + costs[0], budget);
        var k := SplitAt(costs, 1, j, acc + costs[0], budget);
        if k < j {
          SumSplits(costs, 0, 1, k + 1);
        } else {
          AdmissionStops(rows, costs, j, acc + bytes, seed, budget);
        }
      }
    }
  }

  lemma {:induction false} SumGrows(costs: seq<nat>, i: nat, j: nat)
    requires i <= j <= |costs|
    ensures Sum(costs, 0, i) <= Sum(costs, 0, j)
  {
    SumSplits(costs, 0, i, j);
  }

  // A page's length that is within budget and could not have been longer.
  ghost predicate GoodLength(rows: seq<Row>, costs: seq<nat>, n: nat, seed: nat, budget: nat)
    requires |rows| == |costs|
  {
    && n <= |rows| && (rows != [] ==> 0 < n)
    && (n > 0 ==> seed + Sum(costs, 0, n) <= budget || n == 1)
    && (n < |rows| ==> StoppedAt(rows, costs, n, seed, budget))
  }

  lemma GoodLengthsAgree(rows: seq<Row>, costs: seq<nat>, a: nat, b: nat, seed: nat, budget: nat)
    requires |rows| == |costs| && a < b <= |rows|
    requires GoodLength(rows, costs, a, seed, budget)
    ensures !GoodLength(rows, costs, b, seed, budget)
  {
    GroupEndIsBoundary(rows, 0);
    GroupEndIsBoundary(rows, a);
    SumGrows(costs, a + 1, b);
    if !CutsTurn(rows, a) && GroupEnd(rows, a) <= b {
      SumGrows(costs, GroupEnd(rows, a), b);
    }
  }

  // The two conditions determine how much of a page is admitted.
  lemma AdmissionIsDetermined(rows: seq<Row>, costs: seq<nat>, n: nat, seed: nat, budget: nat)
    requires |rows| == |costs|
    ensures GoodLength(rows, costs, n, seed, budget) <==> n == Admitted(rows, costs, 0, seed, budget)
  {
    var m := Admitted(rows, costs, 0, seed, budget);
    assert Sum(costs, 0, 0) == 0;
    AdmissionFits(rows, costs, 0, seed, seed, budget);
    AdmissionStops(rows, costs, 0, seed, seed, budget);
    assert GoodLength(rows, costs, m, seed, budget);
    if GoodLength(rows, costs, n, seed, budget) && n != m {
      GoodLengthsAgree(rows, costs, if n < m then n else m, if n < m then m else n, seed, budget);
    }
  }

  // -- The walk ---------------------------------------------------------------

  // The rows a link may have to name; nothing links to the first row.
  ghost predicate LinksReadBack(table: seq<Row>) {
    forall k :: 0 < k < |table| ==> Addressable(table[k].Key())
  }

  // A row whose link is refused.
  predicate Stops(table: seq<Row>, k: nat) {
    0 < k < |table| && !Addressable(table[k].Key())
  }

  ghost predicate StartsAt(table: seq<Row>, k: nat, cursor: Option<Cursor>)
    requires k < |table|
  {
    if cursor.None? then k == 0 else cursor.value == table[k].Key()
  }

  function KeyAt(table: seq<Row>, k: nat): Option<Cursor>
    requires k <= |table|
  {
    if k < |table| then Some(table[k].Key()) else None
  }

  lemma RestIsSuffix(table: seq<Row>, k: nat, cursor: Option<Cursor>)
    requires Sorted(table) && k < |table| && StartsAt(table, k, cursor)
    ensures Rest(table, cursor) == table[k..]
    ensures cursor.Some? ==> Names(table, cursor.value)
  {
    if cursor.Some? {
      FromCursorIsSuffix(table, k);
    }
  }

  lemma ReadPageAdvances(table: seq<Row>, limit: nat, k: nat, cursor: Option<Cursor>) returns (m: nat)
    requires Sorted(table) && 0 < limit && k < |table| && StartsAt(table, k, cursor)
    ensures k < m <= |table|
    ensures ReadPage(table, limit, cursor) == Read(table[k..m], KeyAt(table, m))
  {
    var rest := table[k..];
    RestIsSuffix(table, k, cursor);
    WholeTurnsBoundary(rest, 0, limit);
    var n := Min(WholeTurns(rest, 0, limit), FETCH_ROWS_MAX);
    m := k + n;
    assert rest[..n] == table[k..m];
    assert m < |table| ==> rest[n] == table[m];
  }

  // The admission shows one or more of the rows it is given and names the first
  // one it does not show.
  lemma ShowAdvances(sink: Sink, table: seq<Row>, k: nat, m: nat, seed: nat, budget: nat) returns (n: nat)
    requires k < m <= |table|
    ensures k < n <= m && (seed > budget ==> n == k + 1)
    ensures Show(sink, Read(table[k..m], KeyAt(table, m)), seed, budget) == Shown(table[k..n], KeyAt(table, n))
  {
    var rows := table[k..m];
    var costs := Costs(sink, rows);
    assert Sum(costs, 0, 0) == 0;
    AdmissionFits(rows, costs, 0, seed, seed, budget);
    n := k + Admitted(rows, costs, 0, seed, budget);
    assert rows[..n - k] == table[k..n];
    assert n < m ==> rows[n - k] == table[n];
  }

  // The query a client sends to get the page that starts at row k.
  ghost function QueryAt(table: seq<Row>, k: nat): Option<string> {
    if 0 < k < |table| then Some(CursorText(table[k].Key())) else None
  }

  ghost function Queries(table: seq<Row>): nat -> Option<string> {
    (k: nat) => QueryAt(table, k)
  }

  // The server; the bytes spoken for before the first message may differ from
  // page to page.
  ghost function Server(sink: Sink, table: seq<Row>, limit: nat, seeds: Option<string> -> nat, budget: nat)
    : Option<string> -> Page
  {
    q => ServePage(sink, table, limit, seeds(q), budget, q)
  }

  // A page that shows one or more of the rows from k on and asks for the first
  // one it does not show.
  ghost predicate Advances(table: seq<Row>, k: nat, page: Page, queryAt: nat -> Option<string>) {
    && page.Page?
    && 0 < |page.rows| <= |table| - k
    && page.rows == table[k..k + |page.rows|]
    && page.next == (if k + |page.rows| < |table| then queryAt(k + |page.rows|) else None)
  }

  ghost predicate InStep(table: seq<Row>, serve: Option<string> -> Page, queryAt: nat -> Option<string>, i: nat) {
    if Stops(table, i) then serve(queryAt(i)) == BadRequest else Advances(table, i, serve(queryAt(i)), queryAt)
  }

  ghost predicate PagesInStep(table: seq<Row>, serve: Option<string> -> Page, queryAt: nat -> Option<string>) {
    && (forall i: nat :: i < |table| ==> InStep(table, serve, queryAt, i))
    && queryAt(0) == None
    && (forall i: nat {:trigger queryAt(i)} :: 0 < i < |table| ==> queryAt(i).Some?)
  }

  lemma AnswerAdvances(table: seq<Row>, k: nat, n: nat)
    requires k < n <= |table|
    ensures Advances(table, k, Answer(Shown(table[k..n], KeyAt(table, n))), Queries(table))
  {
  }

  lemma QueryReadsBack(table: seq<Row>, k: nat)
    requires k < |table| && !Stops(table, k)
    ensures var query := QueryAt(table, k);
            if k == 0 then query == None else query.Some? && ParseCursor(query.value) == Some(table[k].Key())
  {
    CursorRoundTrip(table[k].Key());
  }

  lemma ServePageAdvances(sink: Sink, table: seq<Row>, limit: nat, seed: nat, budget: nat, k: nat)
    requires Sorted(table) && 0 < limit && k < |table| && !Stops(table, k)
    ensures Advances(table, k, ServePage(sink, table, limit, seed, budget, QueryAt(table, k)), Queries(table))
    ensures seed > budget ==> |ServePage(sink, table, limit, seed, budget, QueryAt(table, k)).rows| == 1
  {
    var query := QueryAt(table, k);
    QueryReadsBack(table, k);
    var cursor := if k == 0 then None else Some(table[k].Key());
    var m := ReadPageAdvances(table, limit, k, cursor);
    var n := ShowAdvances(sink, table, k, m, seed, budget);
    AnswerAdvances(table, k, n);
    assert ServePage(sink, table, limit, seed, budget, query) == Answer(Shown(table[k..n], KeyAt(table, n)));
  }

  // The link to a row with a number of more than ten digits is refused.
  lemma LongIdIsRefused(sink: Sink, table: seq<Row>, limit: nat, seed: nat, budget: nat, k: nat)
    requires Stops(table, k)
    ensures ServePage(sink, table, limit, seed, budget, QueryAt(table, k)) == BadRequest
  {
    CursorRoundTrip(table[k].Key());
  }

  lemma ServerInStep(sink: Sink, table: seq<Row>, limit: nat, seeds: Option<string> -> nat, budget: nat)
    requires Sorted(table) && 0 < limit
    ensures PagesInStep(table, Server(sink, table, limit, seeds, budget), Queries(table))
  {
    forall i: nat | i < |table|
      ensures InStep(table, Server(sink, table, limit, seeds, budget), Queries(table), i)
    {
      if Stops(table, i) {
        LongIdIsRefused(sink, table, limit, seeds(QueryAt(table, i)), budget, i);
      } else {
        ServePageAdvances(sink, table, limit, seeds(QueryAt(table, i)), budget, i);
      }
    }
  }

  lemma WalkGoesOn(serve: Option<string> -> Page, query: Option<string>, rows: seq<Row>, next: Option<string>,
                   patience: nat)
    requires serve(query) == Page(rows, next) && next.Some? && 0 < patience
    ensures var pages, rest := Walk(serve, query, patience), Walk(serve, next, patience - 1);
            pages == [rows] + rest && Flatten(pages) == rows + Flatten(rest)
  {
    var pages := Walk(serve, query, patience);
    assert pages == [rows] + Walk(serve, next, patience - 1);
    assert pages[1..] == Walk(serve, next, patience - 1);
  }

  lemma WalkEnds(serve: Option<string> -> Page, query: Option<string>, rows: seq<Row>, patience: nat)
    requires serve(query) == Page(rows, None) && 0 < patience
    ensures Walk(serve, query, patience) == [rows] && Flatten(Walk(serve, query, patience)) == rows
  {
    assert [rows][1..] == [];
  }

  lemma RefusedWalk(serve: Option<string> -> Page, query: Option<string>, patience: nat)
    requires serve(query) == BadRequest
    ensures Walk(serve, query, patience) == [] && Flatten(Walk(serve, query, patience)) == []
  {
  }

  lemma SliceJoins(table: seq<Row>, i: nat, j: nat, k: nat)
    requires i <= j <= k <= |table|
    ensures table[i..k] == table[i..j] + table[j..k]
  {
  }

  // The page that starts at row k, and where the next one starts.
  lemma PageAt(table: seq<Row>, serve: Option<string> -> Page, queryAt: nat -> Option<string>, k: nat) returns (next: nat)
    requires PagesInStep(table, serve, queryAt) && k < |table| && !Stops(table, k)
    ensures k < next <= |table| && table[k..next] != []
    ensures serve(queryAt(k)) == Page(table[k..next], if next < |table| then queryAt(next) else None)
    ensures next < |table| ==> queryAt(next).Some?
  {
    assert InStep(table, serve, queryAt, k);
    next := k + |serve(queryAt(k)).rows|;
  }

  // A walk from row k shows the rows up to some m, on pages none of which is empty,
  // and stops there because nothing is left or because the link to row m is refused.
  lemma {:induction false} WalkFrom(table: seq<Row>, serve: Option<string> -> Page, queryAt: nat -> Option<string>,
                                    k: nat, patience: nat) returns (m: nat)
    requires PagesInStep(table, serve, queryAt) && k < |table| && |table| - k <= patience
    ensures k <= m <= |table| && (m == |table| || Stops(table, m))
    ensures var pages := Walk(serve, queryAt(k), patience);
            Flatten(pages) == table[k..m] && forall p :: 0 <= p < |pages| ==> pages[p] != []
    decreases patience
  {
    if Stops(table, k) {
      assert InStep(table, serve, queryAt, k);
      m := k;
      RefusedWalk(serve, queryAt(k), patience);
    } else {
      var next := PageAt(table, serve, queryAt, k);
      if next < |table| {
        m := WalkFrom(table, serve, queryAt, next, patience - 1);
        WalkGoesOn(serve, queryAt(k), table[k..next], queryAt(next), patience);
        SliceJoins(table, k, next, m);
      } else {
        m := next;
        WalkEnds(serve, queryAt(k), table[k..next], patience);
      }
    }
  }

  // As many pages as there are messages left are enough.
  lemma {:induction false} PatienceIsEnough(table: seq<Row>, serve: Option<string> -> Page,
                                            queryAt: nat -> Option<string>, k: nat, patience: nat)
    requires PagesInStep(table, serve, queryAt) && k < |table| && |table| - k <= patience
    ensures Walk(serve, queryAt(k), patience) == Walk(serve, queryAt(k), |table| - k)
    decreases patience
  {
    if Stops(table, k) {
      assert InStep(table, serve, queryAt, k);
      RefusedWalk(serve, queryAt(k), patience);
      RefusedWalk(serve, queryAt(k), |table| - k);
    } else {
      var next := PageAt(table, serve, queryAt, k);
      if next < |table| {
        PatienceIsEnough(table, serve, queryAt, next, patience - 1);
        PatienceIsEnough(table, serve, queryAt, next, |table| - k - 1);
        WalkGoesOn(serve, queryAt(k), table[k..next], queryAt(next), patience);
        WalkGoesOn(serve, queryAt(k), table[k..next], queryAt(next), |table| - k);
      } else {
        WalkEnds(serve, queryAt(k), table[k..next], patience);
        WalkEnds(serve, queryAt(k), table[k..next], |table| - k);
      }
    }
  }

  ghost function Visited(sink: Sink, table: seq<Row>, limit: nat, seeds: Option<string> -> nat, budget: nat,
                         patience: nat): seq<Row>
  {
    Flatten(Walk(Server(sink, table, limit, seeds, budget), None, patience))
  }

  // Whatever the sizes, the budget and the limit: a client following next_cursor from
  // the first page sees the rows up to some row m, each once and in order, and is
  // stopped only by the end of the conversation or by a refused link to row m.
  lemma WalkVisitsPrefix(sink: Sink, table: seq<Row>, limit: nat, seeds: Option<string> -> nat, budget: nat,
                         patience: nat) returns (m: nat)
    requires Sorted(table) && 0 < limit && |table| <= patience && table != []
    ensures 0 < m <= |table| && (m == |table| || Stops(table, m))
    ensures var serve := Server(sink, table, limit, seeds, budget);
            var pages := Walk(serve, None, patience);
            && Flatten(pages) == table[..m]
            && (forall p :: 0 <= p < |pages| ==> pages[p] != [])
            && pages == Walk(serve, None, |table|)
  {
    ServerInStep(sink, table, limit, seeds, budget);
    m := WalkFrom(table, Server(sink, table, limit, seeds, budget), Queries(table), 0, patience);
    PatienceIsEnough(table, Server(sink, table, limit, seeds, budget), Queries(table), 0, patience);
    FirstPage(sink, table, limit, seeds, budget, patience, m);
  }

  // The first page is always served.
  lemma FirstPage(sink: Sink, table: seq<Row>, limit: nat, seeds: Option<string> -> nat, budget: nat, patience: nat,
                  m: nat)
    requires Sorted(table) && 0 < limit && |table| <= patience && table != [] && m <= |table|
    requires Visited(sink, table, limit, seeds, budget, patience) == table[0..m]
    ensures 0 < m
  {
    ServePageAdvances(sink, table, limit, seeds(None), budget, 0);
    var pages := Walk(Server(sink, table, limit, seeds, budget), None, patience);
    assert Flatten(pages) == pages[0] + Flatten(pages[1..]);
  }

  // Following next_cursor from the first page visits every message exactly once
  // in (turn_id, id) order, on pages none of which is empty, and stops by itself
  // after at most as many pages as there are messages.
  lemma WalkVisitsEverythingOnce(sink: Sink, table: seq<Row>, limit: nat, seeds: Option<string> -> nat,
                                 budget: nat, patience: nat)
    requires Sorted(table) && LinksReadBack(table) && 0 < limit && |table| <= patience && table != []
    ensures var serve := Server(sink, table, limit, seeds, budget);
            var pages := Walk(serve, None, patience);
            && Flatten(pages) == table
            && (forall p :: 0 <= p < |pages| ==> pages[p] != [])
            && pages == Walk(serve, None, |table|)
  {
    var m := WalkVisitsPrefix(sink, table, limit, seeds, budget, patience);
    assert table[..|table|] == table;
  }

  lemma EmptyWalk(sink: Sink, limit: nat, seeds: Option<string> -> nat, budget: nat, patience: nat)
    ensures Visited(sink, [], limit, seeds, budget, patience) == []
  {
    if patience > 0 {
      var serve := Server(sink, [], limit, seeds, budget);
      assert serve(None) == ServePage(sink, [], limit, seeds(None), budget, None) == Page([], None);
      var pages := Walk(serve, None, patience);
      assert pages == [[]] && pages[1..] == [];
      assert Flatten(pages) == pages[0] + Flatten(pages[1..]);
    }
  }

  // -- Where it breaks ----------------------------------------------------------

  const ONE: Option<string> -> nat := _ => 1

  lemma SinglePage(sink: Sink, table: seq<Row>, limit: nat, i: nat)
    requires Sorted(table) && 0 < limit && i + 1 < |table| && !Stops(table, i)
    ensures Server(sink, table, limit, ONE, 0)(QueryAt(table, i)) == Page([table[i]], QueryAt(table, i + 1))
  {
    ServePageAdvances(sink, table, limit, 1, 0, i);
    assert table[i..i + 1] == [table[i]];
  }

  // Pages of single messages up to row k, whose link is refused.
  ghost predicate Singles(table: seq<Row>, serve: Option<string> -> Page, queryAt: nat -> Option<string>, k: nat) {
    && k < |table| && serve(queryAt(k)) == BadRequest
    && (forall j: nat {:trigger table[j]} :: j < k ==>
          queryAt(j + 1).Some? && serve(queryAt(j)) == Page([table[j]], queryAt(j + 1)))
  }

  lemma {:induction false} SinglesStop(table: seq<Row>, serve: Option<string> -> Page, queryAt: nat -> Option<string>,
                                       i: nat, k: nat, patience: nat)
    requires Singles(table, serve, queryAt, k) && i <= k && k - i <= patience
    ensures Flatten(Walk(serve, queryAt(i), patience)) == table[i..k]
    decreases k - i
  {
    if i == k {
      RefusedWalk(serve, queryAt(k), patience);
    } else {
      var row := table[i];
      SinglesStop(table, serve, queryAt, i + 1, k, patience - 1);
      WalkGoesOn(serve, queryAt(i), [row], queryAt(i + 1), patience);
      SliceJoins(table, i, i + 1, k);
      assert table[i..i + 1] == [row];
    }
  }

  lemma {:induction false} FirstStop(table: seq<Row>, k: nat) returns (first: nat)
    requires Stops(table, k)
    ensures Stops(table, first) && forall j :: 0 <= j < first ==> !Stops(table, j)
  {
    first := 0;
    while !Stops(table, first)
      invariant first <= k && forall j :: 0 <= j < first ==> !Stops(table, j)
      decreases k - first
    {
      first := first + 1;
    }
  }

  // A budget that lets one message on a page: the client who follows the links never
  // sees the first row with an eleven-digit number, nor any row after it.
  lemma LongIdsBreakTheWalk(sink: Sink, table: seq<Row>, limit: nat, patience: nat, k: nat)
    requires Sorted(table) && 0 < limit && |table| <= patience
    requires Stops(table, k) && forall j :: 0 <= j < k ==> !Stops(table, j)
    ensures Visited(sink, table, limit, ONE, 0, patience) == table[..k]
  {
    var serve := Server(sink, table, limit, ONE, 0);
    LongIdIsRefused(sink, table, limit, 1, 0, k);
    forall j: nat | j < k ensures serve(QueryAt(table, j)) == Page([table[j]], QueryAt(table, j + 1)) {
      SinglePage(sink, table, limit, j);
    }
    SinglesStop(table, serve, Queries(table), 0, k, patience);
  }

  // So the walk is complete, for all limits, sizes spoken for and budgets, exactly when
  // every row but the first has numbers of at most ten digits.
  lemma WalkIsCompleteIff(sink: Sink, table: seq<Row>)
    requires Sorted(table)
    ensures (forall limit: nat, seeds: Option<string> -> nat, budget: nat, patience: nat
               :: 0 < limit && |table| <= patience ==> Visited(sink, table, limit, seeds, budget, patience) == table)
            <==> LinksReadBack(table)
  {
    if LinksReadBack(table) {
      forall limit: nat, seeds: Option<string> -> nat, budget: nat, patience: nat | 0 < limit && |table| <= patience
        ensures Visited(sink, table, limit, seeds, budget, patience) == table
      {
        if table == [] {
          EmptyWalk(sink, limit, seeds, budget, patience);
        } else {
          WalkVisitsEverythingOnce(sink, table, limit, seeds, budget, patience);
        }
      }
    } else {
      var k :| 0 < k < |table| && !Addressable(table[k].Key());
      var first := FirstStop(table, k);
      LongIdsBreakTheWalk(sink, table, 1, |table|, first);
      assert |table[..first]| < |table|;
    }
  }
}
