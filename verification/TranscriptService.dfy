// The loops of the transcript: the SQL reader of storage.py, the JSON admission
// of dashboard_server.py and the HTML admission of dashboard_render.py, each
// proved to compute what Transcript specifies.

module TranscriptService {
  import opened Common
  import opened Transcript
  import opened TranscriptWalk
  import opened TranscriptAdmission
  import opened TranscriptSizes

  // -- What the SQL of the reader returns -------------------------------------

  // SELECT turn_id, COUNT(*), MIN(id) ... GROUP BY turn_id ORDER BY turn_id
  datatype Turn = Turn(turn: nat, n: nat, first: nat)

  function Turns(rows: seq<Row>, i: nat): (turns: seq<Turn>)
    requires i <= |rows|
    decreases |rows| - i
  {
    if i == |rows| then []
    else
      var j := GroupEnd(rows, i);
      [Turn(rows[i].turn, j - i, rows[i].id)] + Turns(rows, j)
  }

  // LIMIT ?
  function First<T>(s: seq<T>, n: nat): (r: seq<T>)
    ensures r <= s && |r| == if n < |s| then n else |s|
  {
    if n < |s| then s[..n] else s
  }

  // WHERE turn_id IN (...)
  function RowsOf(rows: seq<Row>, turns: seq<nat>): seq<Row> {
    if rows == [] then []
    else (if rows[0].turn in turns then [rows[0]] else []) + RowsOf(rows[1..], turns)
  }

  lemma {:induction false} RowsOfPrefix(rows: seq<Row>, turns: seq<nat>, pos: nat)
    requires pos <= |rows|
    requires forall i :: 0 <= i < |rows| ==> (rows[i].turn in turns <==> i < pos)
    ensures RowsOf(rows, turns) == rows[..pos]
  {
    if rows != [] {
      RowsOfPrefix(rows[1..], turns, if pos == 0 then 0 else pos - 1);
      if pos > 0 {
        assert rows[..pos] == [rows[0]] + rows[1..][..pos - 1];
      }
    }
  }

  lemma {:induction false} SortedSuffix(table: seq<Row>, c: Cursor)
    requires Sorted(table)
    ensures Sorted(FromCursor(table, c))
    ensures forall i :: 0 <= i < |FromCursor(table, c)| ==> FromCursor(table, c)[i] in table
  {
    if table != [] {
      SortedSuffix(table[1..], c);
      var rest := FromCursor(table[1..], c);
      forall j | 0 <= j < |rest| ensures Before(table[0].Key(), rest[j].Key()) {
        assert rest[j] in table[1..];
      }
    }
  }

  // How far the walk over the window has come: the turns taken hold exactly the
  // first `running` rows.
  ghost predicate Taking(rest: seq<Row>, limit: nat, taken: seq<nat>, running: nat) {
    && |taken| <= running <= |rest|
    && |taken| <= |Turns(rest, 0)| && Turns(rest, 0)[|taken|..] == Turns(rest, running)
    && WholeTurns(rest, 0, limit) == WholeTurns(rest, running, limit - running)
    && (forall k :: 0 <= k < |rest| ==> (rest[k].turn in taken <==> k < running))
  }

  lemma TakeOne(rest: seq<Row>, limit: nat, taken: seq<nat>, running: nat)
    requires Sorted(rest) && Taking(rest, limit, taken, running) && running < limit && running < |rest|
    ensures |taken| < |Turns(rest, 0)|
    ensures var turn := Turns(rest, 0)[|taken|];
            turn.n > 0 && Taking(rest, limit, taken + [turn.turn], running + turn.n)
  {
    assert Turns(rest, 0)[|taken|..][0] == Turns(rest, running)[0];
    var turn := Turns(rest, 0)[|taken|];
    TurnSplits(rest, running);
    assert Turns(rest, 0)[|taken| + 1..] == Turns(rest, 0)[|taken|..][1..] == Turns(rest, GroupEnd(rest, running));
    forall k | 0 <= k < |rest| ensures rest[k].turn in taken + [turn.turn] <==> k < running + turn.n {
      if k < running {
        assert rest[k].turn in taken;
      }
    }
  }

  // The turns of a page, the rows they hold, and the first turn left out.
  method TakeTurns(window: seq<Turn>, limit: nat, ghost rest: seq<Row>)
    returns (taken: seq<nat>, probe: Option<Cursor>)
    requires Sorted(rest) && window == First(Turns(rest, 0), limit + 1)
    ensures taken == [] <==> WholeTurns(rest, 0, limit) == 0
    ensures forall k :: 0 <= k < |rest| ==> (rest[k].turn in taken <==> k < WholeTurns(rest, 0, limit))
    ensures var running := WholeTurns(rest, 0, limit);
            taken != [] ==> probe == if running < |rest| then Some(rest[running].Key()) else None
  {
    taken, probe := [], None;
    ghost var running: nat := 0;
    var total := 0;
    var i := 0;
    while i < |window|
      invariant i == |taken| <= |window| && i <= limit && total == running && probe.None?
      invariant Taking(rest, limit, taken, running) && (i > 0 ==> 0 < running)
    {
      assert Turns(rest, 0)[i..][0] == window[i];
      if total < limit {
        TakeOne(rest, limit, taken, running);
        taken := taken + [window[i].turn];
        total := total + window[i].n;
        running := total;
      } else {
        probe := Some(Cursor(window[i].turn, window[i].first));
        return;
      }
      i := i + 1;
    }
    assert |window| <= limit && window == Turns(rest, 0);
    assert Turns(rest, running) == [];
  }

  // One row past the cap is fetched, to name it.
  lemma CapIsApplied(rest: seq<Row>, rows: seq<Row>, whole: nat, probe: Option<Cursor>)
    requires 0 < whole <= |rest| && rows == First(rest[..whole], FETCH_ROWS_MAX + 1)
    requires probe == if whole < |rest| then Some(rest[whole].Key()) else None
    ensures var n := Min(whole, FETCH_ROWS_MAX);
            Read(rest[..n], if n < |rest| then Some(rest[n].Key()) else None) ==
              if |rows| > FETCH_ROWS_MAX then Read(rows[..FETCH_ROWS_MAX], Some(rows[FETCH_ROWS_MAX].Key()))
              else Read(rows, probe)
  {
    if |rows| > FETCH_ROWS_MAX {
      assert rows[..FETCH_ROWS_MAX] == rest[..FETCH_ROWS_MAX];
    }
  }

  method ConversationMessages(table: seq<Row>, limit: nat, cursor: Option<Cursor>) returns (read: Read)
    requires Sorted(table)
    ensures read == ReadPage(table, limit, cursor)
  {
    if cursor.Some? && !Names(table, cursor.value) {
      return BadCursor;
    }
    var rest := Rest(table, cursor);
    if cursor.Some? {
      SortedSuffix(table, cursor.value);
    }
    var taken, probe := TakeTurns(First(Turns(rest, 0), limit + 1), limit, rest);
    if taken == [] {
      return Read([], None);
    }
    ghost var whole := WholeTurns(rest, 0, limit);
    RowsOfPrefix(rest, taken, whole);
    var rows := First(RowsOf(rest, taken), FETCH_ROWS_MAX + 1);
    if |rows| > FETCH_ROWS_MAX {
      var dropped := rows[FETCH_ROWS_MAX];
      read := Read(rows[..FETCH_ROWS_MAX], Some(dropped.Key()));
    } else {
      read := Read(rows, probe);
    }
    CapIsApplied(rest, rows, whole, probe);
  }

  // In a sorted transcript the rows of row i's turn, from i on, are exactly
  // those before GroupEnd.
  lemma TurnSplits(rows: seq<Row>, i: nat)
    requires Sorted(rows) && i < |rows|
    ensures forall k :: i <= k < |rows| ==> (rows[k].turn == rows[i].turn <==> k < GroupEnd(rows, i))
  {
    var j := GroupEnd(rows, i);
    SameTurn(rows, i);
    GroupEndIsBoundary(rows, i);
    forall k | j <= k < |rows| ensures rows[k].turn != rows[i].turn {
      assert Before(rows[j - 1].Key(), rows[j].Key());
      assert k == j || Before(rows[j].Key(), rows[k].Key());
    }
  }

  lemma {:induction false} SameTurn(rows: seq<Row>, i: nat)
    requires i < |rows|
    ensures forall k :: i <= k < GroupEnd(rows, i) ==> rows[k].turn == rows[i].turn
    decreases |rows| - i
  {
    if i + 1 < |rows| && rows[i + 1].turn == rows[i].turn {
      SameTurn(rows, i + 1);
    }
  }

  // -- The two routes ---------------------------------------------------------

  lemma {:induction false} SuffixIsStorable(table: seq<Row>, c: Cursor)
    requires AllStorable(table)
    ensures AllStorable(FromCursor(table, c))
  {
    if table != [] {
      SuffixIsStorable(table[1..], c);
    }
  }

  lemma ReadIsStorable(table: seq<Row>, limit: nat, cursor: Option<Cursor>)
    requires AllStorable(table) && ReadPage(table, limit, cursor).Read?
    ensures var read := ReadPage(table, limit, cursor);
            && AllStorable(read.rows) && |read.rows| <= FETCH_ROWS_MAX
            && (read.next.Some? ==> Storable(read.next.value.turn) && Storable(read.next.value.id))
  {
    if cursor.Some? {
      SuffixIsStorable(table, cursor.value);
    }
  }

  lemma NextIsStorable(read: Read, sink: Sink, seed: nat, budget: nat)
    requires read.Read? && AllStorable(read.rows)
    requires read.next.Some? ==> Storable(read.next.value.turn) && Storable(read.next.value.id)
    ensures var next := Show(sink, read, seed, budget).next;
            next.Some? ==> Storable(next.value.turn) && Storable(next.value.id)
  {
  }

  lemma JsonReadFits(table: seq<Row>, limit: nat, cursor: Option<Cursor>, envelope: nat, n: nat)
    requires |NULL_TEXT| <= envelope && AllStorable(table) && ReadPage(table, limit, cursor).Read?
    requires ReadPage(table, limit, cursor).rows != []
    requires var rows := ReadPage(table, limit, cursor).rows;
             n == Admitted(rows, Costs(Json, rows), 0, envelope + PAGE_SUFFIX_BYTES, PAGE_BUDGET_BYTES)
    ensures var read := ReadPage(table, limit, cursor);
            var next := Show(Json, read, envelope + PAGE_SUFFIX_BYTES, PAGE_BUDGET_BYTES).next;
            JsonFits(envelope, Marked(read.rows[..n], CutsTurn(read.rows, n)), CursorLink(next), PAGE_BUDGET_BYTES)
  {
    var read := ReadPage(table, limit, cursor);
    ReadIsStorable(table, limit, cursor);
    NextIsStorable(read, Json, envelope + PAGE_SUFFIX_BYTES, PAGE_BUDGET_BYTES);
    var next := Show(Json, read, envelope + PAGE_SUFFIX_BYTES, PAGE_BUDGET_BYTES).next;
    JsonPageWithinBudget(envelope, read.rows, n, next, PAGE_BUDGET_BYTES);
  }

  // /api/conversations/<id>: what is sent is what ServePage says, the last
  // message marked when its turn goes on; and it stays within the budget unless it is
  // one message too large on its own.
  method ApiConversation(table: seq<Row>, limit: nat, envelopeBytes: nat, query: Option<string>)
    returns (page: Page, sent: seq<Served>)
    requires Sorted(table)
    ensures page == ServePage(Json, table, limit, envelopeBytes + PAGE_SUFFIX_BYTES, PAGE_BUDGET_BYTES, query)
    ensures var read := ReadPage(table, limit, if query.None? then None else ParseCursor(query.value));
            page.Page? ==> read.Read? && |page.rows| <= |read.rows|
                           && sent == Marked(page.rows, CutsTurn(read.rows, |page.rows|))
    ensures page.Page? && page.rows != [] && AllStorable(table) && |NULL_TEXT| <= envelopeBytes ==>
              JsonFits(envelopeBytes, sent, page.next, PAGE_BUDGET_BYTES)
  {
    var cursor := if query.None? then None else ParseCursor(query.value);
    if query.Some? && cursor.None? {
      return BadRequest, [];
    }
    var read := ConversationMessages(table, limit, cursor);
    if read.BadCursor? {
      return BadRequest, [];
    }
    var admitted, next := AdmitJsonTranscript(read.rows, envelopeBytes, read.next, PAGE_BUDGET_BYTES, PAGE_SUFFIX_BYTES);
    ghost var n := Admitted(read.rows, Costs(Json, read.rows), 0, envelopeBytes + PAGE_SUFFIX_BYTES, PAGE_BUDGET_BYTES);
    MarkedKeepsRows(read.rows[..n], CutsTurn(read.rows, n));
    page := Answer(Shown(RowsOfServed(admitted), next));
    sent := admitted;
    if page.rows != [] && AllStorable(table) && |NULL_TEXT| <= envelopeBytes {
      JsonReadFits(table, limit, cursor, envelopeBytes, n);
    }
  }

  lemma NextIsNotShown(table: seq<Row>, limit: nat, cursor: Option<Cursor>)
    requires Sorted(table) && ReadPage(table, limit, cursor).Read?
    ensures var read := ReadPage(table, limit, cursor);
            && Sorted(read.rows)
            && (read.next.Some? ==> forall i :: 0 <= i < |read.rows| ==> read.rows[i].Key() != read.next.value)
  {
    var rest := Rest(table, cursor);
    if cursor.Some? {
      SortedSuffix(table, cursor.value);
    }
    var read := ReadPage(table, limit, cursor);
    if read.next.Some? {
      forall i | 0 <= i < |read.rows| ensures read.rows[i].Key() != read.next.value {
        assert Before(rest[i].Key(), rest[|read.rows|].Key());
      }
    }
  }

  // The section and, after it, the messages the footer counts.
  method SectionAndFooter(read: Read, chromeBytes: nat) returns (shown: Shown, blocks: seq<seq<Row>>)
    requires read.Read? && Sorted(read.rows)
    requires read.next.Some? ==> forall i :: 0 <= i < |read.rows| ==> read.rows[i].Key() != read.next.value
    ensures shown == Show(Html, read, chromeBytes + PAGE_SUFFIX_BYTES + WRAPPER_BYTES, PAGE_BUDGET_BYTES)
    ensures shown.Shown? && Flatten(blocks) == shown.rows && |blocks| <= |shown.rows| <= |read.rows|
    ensures BlocksBytes(blocks) == Sum(Costs(Html, read.rows), 0, |shown.rows|)
  {
    var messages := read.rows;
    ghost var seed := chromeBytes + PAGE_SUFFIX_BYTES + WRAPPER_BYTES;
    ghost var n := Admitted(messages, Costs(Html, messages), 0, seed, PAGE_BUDGET_BYTES);
    var next, split;
    blocks, next, split :=
      ConversationTranscriptSection(messages, chromeBytes, WRAPPER_BYTES, read.next, PAGE_BUDGET_BYTES, PAGE_SUFFIX_BYTES);
    var counted := RenderedPageMessages(messages, next);
    if n < |messages| {
      CountsWhatWasShown(messages, n, next);
    } else {
      NothingNamed(messages, next);
    }
    shown := Shown(counted, next);
  }

  lemma HtmlReadFits(table: seq<Row>, limit: nat, cursor: Option<Cursor>, chrome: nat, conv: nat,
                     shown: Shown, blocks: seq<seq<Row>>)
    requires AllStorable(table) && Storable(conv) && limit <= LIMIT_MAX && ReadPage(table, limit, cursor).Read?
    requires var read := ReadPage(table, limit, cursor);
             && shown == Show(Html, read, chrome + PAGE_SUFFIX_BYTES + WRAPPER_BYTES, PAGE_BUDGET_BYTES)
             && shown.rows != [] && |blocks| <= |shown.rows| <= |read.rows|
             && BlocksBytes(blocks) == Sum(Costs(Html, read.rows), 0, |shown.rows|)
    ensures var read := ReadPage(table, limit, cursor);
            HtmlFits(chrome, shown.rows, blocks, CutsTurn(read.rows, |shown.rows|),
                     Footer(shown.rows, conv, limit, CursorLink(shown.next)), PAGE_BUDGET_BYTES)
  {
    var read := ReadPage(table, limit, cursor);
    var seed := chrome + PAGE_SUFFIX_BYTES + WRAPPER_BYTES;
    ReadIsStorable(table, limit, cursor);
    NextIsStorable(read, Html, seed, PAGE_BUDGET_BYTES);
    HtmlPageWithinBudget(chrome, read.rows, |shown.rows|, blocks, conv, limit, shown.next, PAGE_BUDGET_BYTES);
  }

  // /conversations/<id>: the section renders what ServePage says, and the footer,
  // which searches for the cursor, counts exactly the rendered messages; the page stays
  // within the budget unless it shows one message too large on its own.
  method PageConversation(table: seq<Row>, conv: nat, limit: nat, chromeBytes: nat, query: Option<string>)
    returns (page: Page, blocks: seq<seq<Row>>)
    requires Sorted(table)
    ensures page == ServePage(Html, table, limit, chromeBytes + PAGE_SUFFIX_BYTES + WRAPPER_BYTES, PAGE_BUDGET_BYTES, query)
    ensures page.Page? ==> Flatten(blocks) == page.rows && |blocks| <= |page.rows|
    ensures var read := ReadPage(table, limit, if query.None? then None else ParseCursor(query.value));
            page.Page? && page.rows != [] && AllStorable(table) && Storable(conv) && limit <= LIMIT_MAX ==>
              read.Read? && HtmlFits(chromeBytes, page.rows, blocks, CutsTurn(read.rows, |page.rows|),
                                     Footer(page.rows, conv, limit, page.next), PAGE_BUDGET_BYTES)
  {
    var cursor := if query.None? then None else ParseCursor(query.value);
    if query.Some? && cursor.None? {
      return BadRequest, [];
    }
    var read := ConversationMessages(table, limit, cursor);
    if read.BadCursor? {
      return BadRequest, [];
    }
    NextIsNotShown(table, limit, cursor);
    var shown;
    shown, blocks := SectionAndFooter(read, chromeBytes);
    page := Answer(shown);
    if shown.rows != [] && AllStorable(table) && Storable(conv) && limit <= LIMIT_MAX {
      HtmlReadFits(table, limit, cursor, chromeBytes, conv, shown, blocks);
    }
  }
}
