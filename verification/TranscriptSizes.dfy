// How large a served transcript page is, and why TRANSCRIPT_PAGE_SUFFIX_BYTES
// covers everything the admission does not count.

module TranscriptSizes {
  import opened Common
  import Decimal
  import opened Transcript
  import opened TranscriptWalk
  import opened TranscriptAdmission

  // SQLite's integers.
  predicate Storable(n: nat) {
    n < 0x8000_0000_0000_0000
  }

  ghost predicate AllStorable(rows: seq<Row>) {
    forall i :: 0 <= i < |rows| ==> Storable(rows[i].turn) && Storable(rows[i].id)
  }

  lemma NineteenDigits(n: nat)
    requires Storable(n)
    ensures |Decimal.Render(n)| <= 19
  {
    assert Decimal.Pow10(19) == 10000000000000000000 by {
      assert Decimal.Pow10(5) == 100000;
      assert Decimal.Pow10(10) == 10 * (10 * (10 * (10 * (10 * Decimal.Pow10(5)))));
      assert Decimal.Pow10(15) == 10 * (10 * (10 * (10 * (10 * Decimal.Pow10(10)))));
      assert Decimal.Pow10(19) == 10 * (10 * (10 * (10 * Decimal.Pow10(15))));
    }
    Decimal.RenderLength(n, 19);
  }

  // -- JSON -------------------------------------------------------------------

  const CONTINUED_FLAG: string := "\"continued\":true,"
  const NULL_TEXT: string := "null"

  function NextBytes(next: Option<string>): nat {
    if next.None? then |NULL_TEXT| else |next.value| + 2
  }

  function FlagBytes(served: seq<Served>): nat {
    if served == [] then 0
    else FlagBytes(served[1..]) + (if served[0].continued then |CONTINUED_FLAG| else 0)
  }

  // The serialised payload: `envelope` is its size with no message and a null
  // next_cursor.
  function JsonPageBytes(envelope: nat, served: seq<Served>, next: Option<string>): int {
    envelope - |NULL_TEXT| + NextBytes(next)
    + JsonBytes(RowsOfServed(served)) + (if served == [] then 0 else |served| - 1) + FlagBytes(served)
  }

  lemma {:induction false} UnmarkedHasNoFlag(rows: seq<Row>)
    ensures FlagBytes(Unmarked(rows)) == 0
  {
    if rows != [] {
      UnmarkedHasNoFlag(rows[1..]);
      assert Unmarked(rows)[1..] == Unmarked(rows[1..]);
    }
  }

  lemma {:induction false} FlagsAdd(a: seq<Served>, b: seq<Served>)
    ensures FlagBytes(a + b) == FlagBytes(a) + FlagBytes(b)
  {
    if a == [] {
      assert a + b == b;
    } else {
      FlagsAdd(a[1..], b);
      assert (a + b)[1..] == a[1..] + b;
    }
  }

  lemma MarkedHasOneFlag(rows: seq<Row>, continued: bool)
    ensures FlagBytes(Marked(rows, continued)) <= |CONTINUED_FLAG| && |Marked(rows, continued)| == |rows|
  {
    UnmarkedHasNoFlag(rows);
    if continued && rows != [] {
      UnmarkedHasNoFlag(rows[..|rows| - 1]);
      var last := [Served(rows[|rows| - 1], true)];
      FlagsAdd(Unmarked(rows[..|rows| - 1]), last);
      assert last[1..] == [];
    }
  }

  function CursorLink(next: Option<Cursor>): Option<string> {
    if next.None? then None else Some(CursorText(next.value))
  }

  lemma LinkLength(next: Option<Cursor>)
    requires next.Some? ==> Storable(next.value.turn) && Storable(next.value.id)
    ensures next.Some? ==> |CursorText(next.value)| <= 39
  {
    if next.Some? {
      NineteenDigits(next.value.turn);
      NineteenDigits(next.value.id);
    }
  }

  // A JSON page within the budget, or of one message that is too large on its own.
  predicate JsonFits(envelope: nat, served: seq<Served>, next: Option<string>, budget: nat) {
    || JsonPageBytes(envelope, served, next) <= budget
    || (|served| == 1 && envelope + PAGE_SUFFIX_BYTES + served[0].row.json > budget)
  }

  lemma JsonPageWithinBudget(envelope: nat, messages: seq<Row>, n: nat, next: Option<Cursor>, budget: nat)
    requires messages != [] && |NULL_TEXT| <= envelope
    requires next.Some? ==> Storable(next.value.turn) && Storable(next.value.id)
    requires n == Admitted(messages, Costs(Json, messages), 0, envelope + PAGE_SUFFIX_BYTES, budget)
    ensures 0 < n <= |messages|
    ensures JsonFits(envelope, Marked(messages[..n], CutsTurn(messages, n)), CursorLink(next), budget)
  {
    var costs, seed := Costs(Json, messages), envelope + PAGE_SUFFIX_BYTES;
    AdmissionIsDetermined(messages, costs, n, seed, budget);
    JsonTurnCost(messages, 0, n);
    assert messages[0..n] == messages[..n];
    MarkedHasOneFlag(messages[..n], CutsTurn(messages, n));
    MarkedKeepsRows(messages[..n], CutsTurn(messages, n));
    LinkLength(next);
    if n == 1 {
      assert Sum(costs, 0, 1) == Sum(costs, 0, 0) + costs[0];
    }
  }

  // -- HTML -------------------------------------------------------------------

  const SECTION_OPEN: string := "<section id=\"conversation\">\n<h2>Conversation</h2>\n"
  const SECTION_CLOSE: string := "\n</section>"
  const CONTINUED_NOTE: string := "<p class=\"meta\">continued -- this turn was split across the byte budget</p>"
  const META_OPEN: string := "<p class=\"meta\">"
  const META_CLOSE: string := "</p>"

  function RangeNote(rows: seq<Row>): string {
    if rows == [] then ""
    else
      META_OPEN + "Showing " + Decimal.Render(|rows|) + " message" + (if |rows| != 1 then "s" else "")
      + " (turn " + Decimal.Render(rows[0].turn) + " through turn " + Decimal.Render(rows[|rows| - 1].turn) + ")." + META_CLOSE
  }

  function NextLink(conv: nat, limit: nat, next: Option<string>): string {
    if next.None? then ""
    else
      META_OPEN + "<a href=\"/conversations/" + Decimal.Render(conv) + "?limit=" + Decimal.Render(limit)
      + "&amp;cursor=" + next.value + "\">next</a>" + META_CLOSE
  }

  function FirstLink(conv: nat): string {
    META_OPEN + "<a href=\"/conversations/" + Decimal.Render(conv) + "\">first page</a>" + META_CLOSE
  }

  function Footer(rows: seq<Row>, conv: nat, limit: nat, next: Option<string>): string {
    RangeNote(rows) + NextLink(conv, limit, next) + FirstLink(conv)
  }

  const WRAPPER_BYTES: nat := |SECTION_OPEN + SECTION_CLOSE|

  // chrome + section + footer: the blocks are joined by newlines.
  function HtmlPageBytes(chrome: nat, blocks: seq<seq<Row>>, split: bool, footer: string): int {
    chrome + |SECTION_OPEN| + BlocksBytes(blocks) + (if blocks == [] then 0 else |blocks| - 1)
    + (if split then |CONTINUED_NOTE| else 0) + |SECTION_CLOSE| + |footer|
  }

  lemma FooterFits(rows: seq<Row>, conv: nat, limit: nat, next: Option<Cursor>)
    requires AllStorable(rows) && |rows| <= FETCH_ROWS_MAX && Storable(conv) && limit <= LIMIT_MAX
    requires next.Some? ==> Storable(next.value.turn) && Storable(next.value.id)
    ensures |Footer(rows, conv, limit, CursorLink(next))| <= 500
  {
    NineteenDigits(conv);
    NineteenDigits(limit);
    NineteenDigits(|rows|);
    if rows != [] {
      NineteenDigits(rows[0].turn);
      NineteenDigits(rows[|rows| - 1].turn);
    }
    assert |RangeNote(rows)| <= 150;
    LinkLength(next);
    assert |NextLink(conv, limit, CursorLink(next))| <= 200;
    assert |FirstLink(conv)| <= 100;
  }

  // An HTML page within the budget, or of one message that is too large on its own.
  predicate HtmlFits(chrome: nat, rows: seq<Row>, blocks: seq<seq<Row>>, split: bool, footer: string, budget: nat) {
    || HtmlPageBytes(chrome, blocks, split, footer) <= budget
    || (|rows| == 1 && chrome + PAGE_SUFFIX_BYTES + WRAPPER_BYTES + rows[0].html + rows[0].link > budget)
  }

  lemma HtmlPageWithinBudget(chrome: nat, messages: seq<Row>, n: nat, blocks: seq<seq<Row>>, conv: nat, limit: nat,
                             next: Option<Cursor>, budget: nat)
    requires messages != [] && AllStorable(messages) && |messages| <= FETCH_ROWS_MAX && Storable(conv) && limit <= LIMIT_MAX
    requires next.Some? ==> Storable(next.value.turn) && Storable(next.value.id)
    requires n == Admitted(messages, Costs(Html, messages), 0, chrome + PAGE_SUFFIX_BYTES + WRAPPER_BYTES, budget)
    requires |blocks| <= n && BlocksBytes(blocks) == Sum(Costs(Html, messages), 0, n)
    ensures 0 < n <= |messages|
    ensures HtmlFits(chrome, messages[..n], blocks, CutsTurn(messages, n),
                     Footer(messages[..n], conv, limit, CursorLink(next)), budget)
  {
    var costs, seed := Costs(Html, messages), chrome + PAGE_SUFFIX_BYTES + WRAPPER_BYTES;
    AdmissionIsDetermined(messages, costs, n, seed, budget);
    FooterFits(messages[..n], conv, limit, next);
    if n == 1 {
      assert Sum(costs, 0, 1) == Sum(costs, 0, 0) + costs[0];
    }
  }
}
