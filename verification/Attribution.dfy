// The source lines of an answer: only canonical renderings of pairs the searches
// returned may stand, and one always does.

module Attribution {
  import opened Common
  import Decimal
  import opened TextLines

  datatype Pair = Pair(filename: string, page: Option<nat>)

  const MAX_SOURCE_PAIRS: nat := 5

  // -- Whitespace ----------------------------------------------------------------

  function LeftStrip(s: string): (r: string)
    ensures r != "" ==> !IsSpace(r[0])
    ensures |r| <= |s|
  {
    if s != "" && IsSpace(s[0]) then LeftStrip(s[1..]) else s
  }

  function RightStrip(s: string): (r: string)
    ensures r <= s && (r != "" ==> !IsSpace(r[|r| - 1]))
  {
    if s != "" && IsSpace(s[|s| - 1]) then RightStrip(s[..|s| - 1]) else s
  }

  function Strip(s: string): string {
    RightStrip(LeftStrip(s))
  }

  // A text no stripping changes.
  predicate Trim(s: string) {
    s != "" && !IsSpace(s[0]) && !IsSpace(s[|s| - 1])
  }

  lemma TrimIsStripped(s: string)
    requires Trim(s)
    ensures Strip(s) == s
  {
  }

  // -- Rendering -----------------------------------------------------------------

  // Filenames in first-seen order.
  function Names(pairs: seq<Pair>, n: nat): (r: seq<string>)
    requires n <= |pairs|
    ensures forall f :: f in r <==> exists i :: 0 <= i < n && pairs[i].filename == f
    ensures forall i, j :: 0 <= i < j < |r| ==> r[i] != r[j]
  {
    if n == 0 then []
    else
      var before := Names(pairs, n - 1);
      if pairs[n - 1].filename in before then before else before + [pairs[n - 1].filename]
  }

  // A file's distinct pages in first-seen order.
  function PagesOf(pairs: seq<Pair>, n: nat, filename: string): (r: seq<nat>)
    requires n <= |pairs|
    ensures forall i, j :: 0 <= i < j < |r| ==> r[i] != r[j]
  {
    if n == 0 then []
    else
      var before, p := PagesOf(pairs, n - 1, filename), pairs[n - 1];
      if p.filename == filename && p.page.Some? && p.page.value !in before then before + [p.page.value] else before
  }

  function Numbers(pages: seq<nat>): string {
    if pages == [] then ""
    else if |pages| == 1 then Decimal.Render(pages[0])
    else Numbers(pages[..|pages| - 1]) + ", " + Decimal.Render(pages[|pages| - 1])
  }

  function Part(filename: string, pages: seq<nat>): string {
    if pages == [] then filename
    else if |pages| == 1 then filename + " (page " + Decimal.Render(pages[0]) + ")"
    else filename + " (pages " + Numbers(pages) + ")"
  }

  function JoinParts(pairs: seq<Pair>, names: seq<string>, k: nat): string
    requires k <= |names|
  {
    if k == 0 then ""
    else
      JoinParts(pairs, names, k - 1) + (if k == 1 then "" else ", ")
        + Part(names[k - 1], PagesOf(pairs, |pairs|, names[k - 1]))
  }

  function Render(pairs: seq<Pair>): string {
    JoinParts(pairs, Names(pairs, |pairs|), |Names(pairs, |pairs|)|)
  }

  method RenderSources(pairs: seq<Pair>) returns (text: string)
    ensures text == Render(pairs)
  {
    var order: seq<string>, pagesBy: map<string, seq<nat>> := [], map[];
    for i := 0 to |pairs|
      invariant order == Names(pairs, i)
      invariant forall f :: f in pagesBy <==> f in order
      invariant forall f <- pagesBy :: pagesBy[f] == PagesOf(pairs, i, f)
    {
      var p := pairs[i];
      UnseenHasNoPages(pairs, i, p.filename);
      if p.filename !in pagesBy {
        pagesBy := pagesBy[p.filename := []];
        order := order + [p.filename];
      }
      if p.page.Some? && p.page.value !in pagesBy[p.filename] {
        pagesBy := pagesBy[p.filename := pagesBy[p.filename] + [p.page.value]];
      }
    }
    text := "";
    for k := 0 to |order|
      invariant text == JoinParts(pairs, order, k)
    {
      assert order[k] in order;
      text := text + (if k == 0 then "" else ", ") + Part(order[k], pagesBy[order[k]]);
    }
  }

  lemma {:induction false} UnseenHasNoPages(pairs: seq<Pair>, n: nat, filename: string)
    requires n <= |pairs|
    ensures filename !in Names(pairs, n) ==> PagesOf(pairs, n, filename) == []
  {
    if n > 0 {
      UnseenHasNoPages(pairs, n - 1, filename);
    }
  }

  // -- What a rendered line names ---------------------------------------------------

  lemma {:induction false} PagesAreThose(pairs: seq<Pair>, n: nat, filename: string, page: nat)
    requires n <= |pairs|
    ensures page in PagesOf(pairs, n, filename) <==> exists i :: 0 <= i < n && pairs[i] == Pair(filename, Some(page))
  {
    if n > 0 {
      PagesAreThose(pairs, n - 1, filename, page);
    }
  }

  function LastComma(s: string): Option<nat> {
    if s == "" then None else if s[|s| - 1] == ',' then Some(|s| - 1) else LastComma(s[..|s| - 1])
  }

  // The numbers of a list as a reader of it finds them.
  function ReadNumbers(s: string): seq<nat> {
    var comma := LastComma(s);
    if comma.None? then (if Decimal.AllDigits(s) then [Decimal.Value(s)] else [])
    else if comma.value >= |s| - 1 || !Decimal.AllDigits(s[comma.value + 2..]) then []
    else ReadNumbers(s[..comma.value]) + [Decimal.Value(s[comma.value + 2..])]
  }

  lemma {:induction false} CommaBeforeDigits(a: string, b: string)
    requires Decimal.AllDigits(b)
    ensures LastComma(a + ", " + b) == Some(|a|)
    decreases |b|
  {
    var s := a + ", " + b;
    if b != "" {
      CommaBeforeDigits(a, b[..|b| - 1]);
      assert s[..|s| - 1] == a + ", " + b[..|b| - 1];
    } else {
      assert s == (a + ",") + " ";
      assert s[..|s| - 1] == a + ",";
    }
  }

  lemma {:induction false} NoComma(s: string)
    requires Decimal.AllDigits(s)
    ensures LastComma(s) == None
  {
    if s != "" {
      NoComma(s[..|s| - 1]);
    }
  }

  lemma {:induction false} NumbersReadBack(pages: seq<nat>)
    requires pages != []
    ensures ReadNumbers(Numbers(pages)) == pages
  {
    var n := |pages| - 1;
    var last := Decimal.Render(pages[n]);
    Decimal.RenderThenValue(pages[n]);
    if n == 0 {
      NoComma(last);
    } else {
      NumbersReadBack(pages[..n]);
      var before := Numbers(pages[..n]);
      CommaBeforeDigits(before, last);
      ReadLast(before, last);
    }
  }

  lemma ReadLast(before: string, last: string)
    requires Decimal.AllDigits(last) && last != "" && LastComma(before + ", " + last) == Some(|before|)
    ensures ReadNumbers(before + ", " + last) == ReadNumbers(before) + [Decimal.Value(last)]
  {
    var s := before + ", " + last;
    assert s[..|before|] == before && s[|before| + 2..] == last;
  }

  ghost predicate Contains(s: string, part: string) {
    exists before, after :: s == before + part + after
  }

  lemma ContainsLast(before: string, part: string)
    ensures Contains(before + part, part)
  {
    assert before + part == before + part + "";
  }

  lemma ContainsLonger(s: string, part: string, more: string)
    requires Contains(s, part)
    ensures Contains(s + more, part)
  {
    var before, after :| s == before + part + after;
    assert s + more == before + part + (after + more);
  }

  lemma {:induction false} PartIsThere(pairs: seq<Pair>, names: seq<string>, k: nat, j: nat)
    requires j < k <= |names|
    ensures Contains(JoinParts(pairs, names, k), Part(names[j], PagesOf(pairs, |pairs|, names[j])))
  {
    var before, comma := JoinParts(pairs, names, k - 1), if k == 1 then "" else ", ";
    var last := Part(names[k - 1], PagesOf(pairs, |pairs|, names[k - 1]));
    if j == k - 1 {
      ContainsLast(before + comma, last);
    } else {
      var part := Part(names[j], PagesOf(pairs, |pairs|, names[j]));
      PartIsThere(pairs, names, k - 1, j);
      ContainsLonger(before, part, comma);
      ContainsLonger(before + comma, part, last);
    }
  }

  // How a file is written with its pages: the numbers in brackets read back.
  ghost predicate NamesPages(part: string, filename: string, pages: seq<nat>) {
    if pages == [] then part == filename
    else exists numbers ::
      && part == filename + (if |pages| == 1 then " (page " else " (pages ") + numbers + ")"
      && ReadNumbers(numbers) == pages
  }

  // The rendered line names every file of the pairs, each with exactly its pages: a page
  // read back from the brackets is one of the pairs, and every pair's page is there.
  lemma RenderNamesPages(pairs: seq<Pair>, filename: string) returns (part: string, pages: seq<nat>)
    requires exists i :: 0 <= i < |pairs| && pairs[i].filename == filename
    ensures Contains(Render(pairs), part) && NamesPages(part, filename, pages)
    ensures forall i, j :: 0 <= i < j < |pages| ==> pages[i] != pages[j]
    ensures forall page :: page in pages <==> exists i :: 0 <= i < |pairs| && pairs[i] == Pair(filename, Some(page))
  {
    var names := Names(pairs, |pairs|);
    pages := PagesOf(pairs, |pairs|, filename);
    part := Part(filename, pages);
    assert filename in names;
    var j :| 0 <= j < |names| && names[j] == filename;
    PartIsThere(pairs, names, |names|, j);
    if pages != [] {
      NumbersReadBack(pages);
      assert |pages| == 1 ==> Numbers(pages) == Decimal.Render(pages[0]);
    }
    forall page ensures page in pages <==> exists i :: 0 <= i < |pairs| && pairs[i] == Pair(filename, Some(page)) {
      PagesAreThose(pairs, |pairs|, filename, page);
    }
  }

  // -- Canonical lines --------------------------------------------------------------

  // Every selection of the pairs, in first-seen order.
  function Selections(pairs: seq<Pair>): set<seq<Pair>> {
    if pairs == [] then {[]}
    else
      var rest := Selections(pairs[..|pairs| - 1]);
      rest + set s | s in rest :: s + [pairs[|pairs| - 1]]
  }

  function ValidLines(pairs: seq<Pair>): set<string> {
    (set s | s in Selections(pairs) && s != [] :: "Source: " + Render(s))
      + set s | s in Selections(pairs) && s != [] :: "Sources: " + Render(s)
  }

  // A selection is what some increasing choice of places picks out.
  ghost predicate Picks(pairs: seq<Pair>, places: seq<nat>, s: seq<Pair>) {
    && |places| == |s|
    && (places != [] ==> places[|places| - 1] < |pairs|)
    && (forall i, j :: 0 <= i < j < |places| ==> places[i] < places[j])
    && (forall i :: 0 <= i < |places| ==> places[i] < |pairs| && s[i] == pairs[places[i]])
  }

  lemma {:induction false} SelectionsArePicks(pairs: seq<Pair>, s: seq<Pair>)
    ensures s in Selections(pairs) <==> exists places :: Picks(pairs, places, s)
    decreases |pairs|
  {
    if pairs == [] {
      assert Picks(pairs, [], []);
    } else {
      var n := |pairs| - 1;
      var before := pairs[..n];
      if s in Selections(pairs) {
        if s in Selections(before) {
          SelectionsArePicks(before, s);
          var places :| Picks(before, places, s);
          assert Picks(pairs, places, s);
        } else {
          var shorter :| shorter in Selections(before) && s == shorter + [pairs[n]];
          SelectionsArePicks(before, shorter);
          var places :| Picks(before, places, shorter);
          assert Picks(pairs, places + [n], s);
        }
      }
      forall places | Picks(pairs, places, s) ensures s in Selections(pairs) {
        PickIsSelected(pairs, places, s);
      }
    }
  }

  lemma {:induction false} PickIsSelected(pairs: seq<Pair>, places: seq<nat>, s: seq<Pair>)
    requires Picks(pairs, places, s)
    ensures s in Selections(pairs)
    decreases |pairs|
  {
    if pairs == [] {
      assert s == [];
    } else {
      var n, m := |pairs| - 1, |places| - 1;
      if m >= 0 && places[m] == n {
        PickIsSelected(pairs[..n], places[..m], s[..m]);
        assert s == s[..m] + [pairs[n]];
      } else {
        PickIsSelected(pairs[..n], places, s);
      }
    }
  }

  // -- Filenames ------------------------------------------------------------------

  // What cleaning and typing leave of an uploaded name: one line, ending in a
  // known extension.
  ghost predicate GoodName(f: string) {
    Trim(f) && '\n' !in f
  }

  ghost predicate GoodPairs(pairs: seq<Pair>) {
    forall i :: 0 <= i < |pairs| ==> GoodName(pairs[i].filename)
  }

  lemma {:induction false} NumbersAreOneLine(pages: seq<nat>)
    ensures '\n' !in Numbers(pages)
    decreases |pages|
  {
    if |pages| > 1 {
      NumbersAreOneLine(pages[..|pages| - 1]);
    }
  }

  lemma PartIsGood(filename: string, pages: seq<nat>)
    requires GoodName(filename)
    ensures GoodName(Part(filename, pages))
  {
    NumbersAreOneLine(pages);
  }

  lemma JoinedIsGood(a: string, b: string)
    requires GoodName(a) && GoodName(b)
    ensures GoodName(a + ", " + b)
  {
  }

  lemma {:induction false} PartsAreGood(pairs: seq<Pair>, names: seq<string>, k: nat)
    requires 0 < k <= |names| && forall i :: 0 <= i < |names| ==> GoodName(names[i])
    ensures GoodName(JoinParts(pairs, names, k))
  {
    var part := Part(names[k - 1], PagesOf(pairs, |pairs|, names[k - 1]));
    PartIsGood(names[k - 1], PagesOf(pairs, |pairs|, names[k - 1]));
    if k > 1 {
      PartsAreGood(pairs, names, k - 1);
      JoinedIsGood(JoinParts(pairs, names, k - 1), part);
    } else {
      assert "" + "" + part == part;
    }
  }

  lemma RenderIsGood(pairs: seq<Pair>)
    requires GoodPairs(pairs) && pairs != []
    ensures GoodName(Render(pairs))
  {
    var names := Names(pairs, |pairs|);
    assert pairs[0].filename in names;
    forall i | 0 <= i < |names| ensures GoodName(names[i]) {
      assert names[i] in names;
    }
    PartsAreGood(pairs, names, |names|);
  }

  // -- Stripping and attaching --------------------------------------------------------

  predicate IsSourceLine(line: string) {
    "Source:" <= Strip(line) || "Sources:" <= Strip(line)
  }

  predicate Stays(line: string, keep: set<string>) {
    !IsSourceLine(line) || Strip(line) in keep
  }

  // The lines that stay, in order.
  function Kept(lines: seq<string>, n: nat, keep: set<string>): (r: seq<string>)
    requires n <= |lines|
    ensures forall i :: 0 <= i < |r| ==> r[i] in lines && Stays(r[i], keep)
  {
    if n == 0 then []
    else Kept(lines, n - 1, keep) + if Stays(lines[n - 1], keep) then [lines[n - 1]] else []
  }

  predicate HasValid(lines: seq<string>, n: nat, keep: set<string>)
    requires n <= |lines|
  {
    exists i :: 0 <= i < n && IsSourceLine(lines[i]) && Strip(lines[i]) in keep
  }

  method StripSourceLines(reply: string, keep: set<string>) returns (text: string, keptValid: bool)
    ensures text == Join(Kept(Split(reply), |Split(reply)|, keep))
    ensures keptValid == HasValid(Split(reply), |Split(reply)|, keep)
  {
    var lines, kept := Split(reply), [];
    keptValid := false;
    for i := 0 to |lines|
      invariant kept == Kept(lines, i, keep)
      invariant keptValid == HasValid(lines, i, keep)
    {
      if IsSourceLine(lines[i]) {
        if Strip(lines[i]) in keep {
          kept := kept + [lines[i]];
          keptValid := true;
        }
      } else {
        kept := kept + [lines[i]];
      }
    }
    text := Join(kept);
  }

  // Distinct pairs of all searches in first-seen order, at most five.
  function Collected(passages: seq<Pair>, n: nat): (r: seq<Pair>)
    requires n <= |passages|
    ensures forall p :: p in r <==> p in passages[..n]
    ensures forall i, j :: 0 <= i < j < |r| ==> r[i] != r[j]
  {
    if n == 0 then []
    else
      assert passages[..n] == passages[..n - 1] + [passages[n - 1]];
      var before := Collected(passages, n - 1);
      if passages[n - 1] in before then before else before + [passages[n - 1]]
  }

  function SourcePairs(passages: seq<Pair>): (r: seq<Pair>)
    ensures |r| <= MAX_SOURCE_PAIRS
  {
    var all := Collected(passages, |passages|);
    if |all| <= MAX_SOURCE_PAIRS then all else all[..MAX_SOURCE_PAIRS]
  }

  // The first n passages show p before they show q, if they show q at all.
  ghost predicate SeenBefore(passages: seq<Pair>, n: nat, p: Pair, q: Pair)
    requires n <= |passages|
  {
    exists k :: 0 <= k < n && passages[k] == p && forall m :: 0 <= m <= k ==> passages[m] != q
  }

  ghost predicate InSeenOrder(passages: seq<Pair>, n: nat, r: seq<Pair>)
    requires n <= |passages|
  {
    forall i, j :: 0 <= i < j < |r| ==> SeenBefore(passages, n, r[i], r[j])
  }

  lemma {:induction false} CollectedInOrder(passages: seq<Pair>, n: nat)
    requires n <= |passages|
    ensures InSeenOrder(passages, n, Collected(passages, n))
  {
    if n > 0 {
      var before, p := Collected(passages, n - 1), passages[n - 1];
      CollectedInOrder(passages, n - 1);
      assert forall q <- before :: q in passages[..n - 1];
      SeenLonger(passages, n - 1, before);
      if p !in before {
        assert p !in passages[..n - 1];
        forall i | 0 <= i < |before| ensures SeenBefore(passages, n, before[i], p) {
          NewIsSeenLast(passages, n - 1, before[i], p);
        }
      }
    }
  }

  lemma SeenLonger(passages: seq<Pair>, n: nat, r: seq<Pair>)
    requires n < |passages| && InSeenOrder(passages, n, r)
    ensures InSeenOrder(passages, n + 1, r)
  {
    forall i, j | 0 <= i < j < |r| ensures SeenBefore(passages, n + 1, r[i], r[j]) {
      assert SeenBefore(passages, n, r[i], r[j]);
    }
  }

  lemma NewIsSeenLast(passages: seq<Pair>, n: nat, p: Pair, q: Pair)
    requires n < |passages| && p in passages[..n] && q !in passages[..n]
    ensures SeenBefore(passages, n + 1, p, q)
  {
    var k :| 0 <= k < n && passages[..n][k] == p;
    assert forall m :: 0 <= m <= k ==> passages[m] == passages[..n][m];
  }

  // The pairs an answer is attributed to: the first five different ones the searches
  // returned, in the order they were first seen.
  lemma SourcePairsAreFirst(passages: seq<Pair>)
    ensures var r := SourcePairs(passages);
            && (forall p <- r :: p in passages) && InSeenOrder(passages, |passages|, r)
            && (forall q <- passages :: q in r || (|r| == MAX_SOURCE_PAIRS
                                                   && forall p <- r :: SeenBefore(passages, |passages|, p, q)))
  {
    var all := Collected(passages, |passages|);
    CollectedInOrder(passages, |passages|);
    assert passages[..|passages|] == passages;
    FirstOfSeen(passages, all, SourcePairs(passages));
  }

  lemma FirstOfSeen(passages: seq<Pair>, all: seq<Pair>, r: seq<Pair>)
    requires InSeenOrder(passages, |passages|, all) && r <= all && (r == all || |r| == MAX_SOURCE_PAIRS)
    ensures InSeenOrder(passages, |passages|, r)
    ensures forall q <- all :: q in r || (|r| == MAX_SOURCE_PAIRS && forall p <- r :: SeenBefore(passages, |passages|, p, q))
  {
    forall q | q in all && q !in r
      ensures |r| == MAX_SOURCE_PAIRS && forall p <- r :: SeenBefore(passages, |passages|, p, q)
    {
      var j :| 0 <= j < |all| && all[j] == q;
      assert forall i :: 0 <= i < |r| ==> r[i] == all[i] && all[i] in r;
      assert j >= |r|;
    }
  }

  function Flatten(calls: seq<seq<Pair>>): seq<Pair> {
    if calls == [] then [] else Flatten(calls[..|calls| - 1]) + calls[|calls| - 1]
  }

  // The answer with its sources: `calls` are the passages of each search.
  // The passages of earlier calls come first.
  lemma {:induction false} CallsInOrder(a: seq<seq<Pair>>, b: seq<seq<Pair>>)
    ensures Flatten(a + b) == Flatten(a) + Flatten(b)
    ensures |b| == 1 ==> Flatten(b) == b[0]
    decreases |b|
  {
    if b == [] {
      assert a + b == a;
    } else {
      var rest := b[..|b| - 1];
      CallsInOrder(a, rest);
      assert (a + b)[..|a + b| - 1] == a + rest;
      assert Flatten(a) + (Flatten(rest) + b[|b| - 1]) == (Flatten(a) + Flatten(rest)) + b[|b| - 1];
    }
  }

  function Attached(reply: string, calls: seq<seq<Pair>>): string {
    if calls == [] then reply
    else
      var lines, passages := Split(reply), Flatten(calls);
      var pairs := SourcePairs(passages);
      var keep := if passages == [] then {} else ValidLines(pairs);
      var text := Join(Kept(lines, |lines|, keep));
      if passages == [] || HasValid(lines, |lines|, keep) then text else text + "\n\n" + SourcesLine(pairs)
  }

  function SourcesLine(pairs: seq<Pair>): string {
    "Sources: " + Render(pairs)
  }

  method AttachSources(reply: string, calls: seq<seq<Pair>>) returns (text: string, changed: bool)
    ensures text == Attached(reply, calls) && changed == (text != reply)
  {
    if calls == [] {
      return reply, false;
    }
    var passages := Flatten(calls);
    var valid;
    if passages == [] {
      text, valid := StripSourceLines(reply, {});
    } else {
      var pairs := SourcePairs(passages);
      text, valid := StripSourceLines(reply, ValidLines(pairs));
      if !valid {
        var rendered := RenderSources(pairs);
        text := text + "\n\n" + ("Sources: " + rendered);
      }
    }
    changed := text != reply;
  }

  // -- What the reader of an answer may rely on -------------------------------------------

  function OneOrMore(lines: seq<string>): seq<string> {
    if lines == [] then [""] else lines
  }

  lemma {:induction false} KeptHasNoNewlines(lines: seq<string>, n: nat, keep: set<string>)
    requires n <= |lines| && forall i :: 0 <= i < |lines| ==> '\n' !in lines[i]
    ensures forall i :: 0 <= i < |Kept(lines, n, keep)| ==> '\n' !in Kept(lines, n, keep)[i]
  {
    if n > 0 {
      KeptHasNoNewlines(lines, n - 1, keep);
    }
  }

  lemma SplitKept(reply: string, keep: set<string>)
    ensures var lines := Split(reply); var kept := Kept(lines, |lines|, keep);
            Split(Join(kept)) == OneOrMore(kept)
  {
    var lines := Split(reply);
    SplitThenJoin(reply);
    KeptHasNoNewlines(lines, |lines|, keep);
    if Kept(lines, |lines|, keep) != [] {
      JoinThenSplit(Kept(lines, |lines|, keep));
    }
  }

  lemma BlockLines(text: string, line: string)
    requires '\n' !in line
    ensures Split(text + "\n\n" + line) == Split(text) + ["", line]
  {
    SplitSnoc(text, '\n');
    SplitSnoc(text + "\n", '\n');
    assert text + "\n" + "\n" == text + "\n\n";
    SplitAppend(text + "\n\n", line);
    LastLine(Split(text) + [""], line);
    assert Split(text) + [""] + [line] == Split(text) + ["", line];
  }

  // The appended line is canonical.
  lemma SourcesLineIsValid(pairs: seq<Pair>)
    requires GoodPairs(pairs) && pairs != []
    ensures '\n' !in SourcesLine(pairs)
    ensures IsSourceLine(SourcesLine(pairs)) && Strip(SourcesLine(pairs)) in ValidLines(pairs)
  {
    RenderIsGood(pairs);
    AllIsSelected(pairs);
    SourcesLineStrips(pairs, Render(pairs));
  }

  lemma SourcesLineStrips(pairs: seq<Pair>, text: string)
    requires text == Render(pairs) && Trim(text) && '\n' !in text
    ensures '\n' !in SourcesLine(pairs) && IsSourceLine(SourcesLine(pairs)) && Strip(SourcesLine(pairs)) == "Sources: " + text
  {
    TrimIsStripped(SourcesLine(pairs));
  }

  lemma {:induction false} AllIsSelected(pairs: seq<Pair>)
    ensures pairs in Selections(pairs)
    decreases |pairs|
  {
    if pairs != [] {
      AllIsSelected(pairs[..|pairs| - 1]);
      assert pairs == pairs[..|pairs| - 1] + [pairs[|pairs| - 1]];
    }
  }

  // After attaching with at least one passage: the lines are those of the answer
  // that may stand, in order, followed by the canonical block when none of them
  // was a valid source line; so every source line is canonical, and there is one.
  lemma AttachedLines(reply: string, calls: seq<seq<Pair>>)
    requires Flatten(calls) != [] && GoodPairs(SourcePairs(Flatten(calls)))
    ensures var pairs := SourcePairs(Flatten(calls)); var keep := ValidLines(pairs);
            var lines := Split(reply); var kept := Kept(lines, |lines|, keep);
            Split(Attached(reply, calls)) ==
            OneOrMore(kept) + if HasValid(lines, |lines|, keep) then [] else ["", SourcesLine(pairs)]
  {
    var pairs := SourcePairs(Flatten(calls));
    var lines, keep := Split(reply), ValidLines(pairs);
    SplitKept(reply, keep);
    CollectedIsNotEmpty(Flatten(calls));
    if !HasValid(lines, |lines|, keep) {
      SourcesLineIsValid(pairs);
      BlockLines(Join(Kept(lines, |lines|, keep)), SourcesLine(pairs));
    }
  }

  lemma CollectedIsNotEmpty(passages: seq<Pair>)
    requires passages != []
    ensures SourcePairs(passages) != []
  {
    assert passages[0] in passages[..|passages|];
  }

  lemma {:induction false} StayingLineIsKept(lines: seq<string>, n: nat, keep: set<string>, i: nat)
    requires i < n <= |lines| && Stays(lines[i], keep)
    ensures lines[i] in Kept(lines, n, keep)
  {
    if i < n - 1 {
      StayingLineIsKept(lines, n - 1, keep, i);
    }
  }

  lemma ValidIsKept(lines: seq<string>, keep: set<string>)
    requires HasValid(lines, |lines|, keep)
    ensures var kept := Kept(lines, |lines|, keep); HasValid(kept, |kept|, keep)
  {
    var i :| 0 <= i < |lines| && IsSourceLine(lines[i]) && Strip(lines[i]) in keep;
    StayingLineIsKept(lines, |lines|, keep, i);
    var kept := Kept(lines, |lines|, keep);
    var j :| 0 <= j < |kept| && kept[j] == lines[i];
    assert IsSourceLine(kept[j]) && Strip(kept[j]) in keep;
  }

  lemma BlockIsCanonical(kept: seq<string>, line: string, keep: set<string>)
    requires forall i :: 0 <= i < |kept| ==> Stays(kept[i], keep)
    requires IsSourceLine(line) && Strip(line) in keep
    ensures var lines := OneOrMore(kept) + ["", line];
            (forall i :: 0 <= i < |lines| ==> Stays(lines[i], keep)) && HasValid(lines, |lines|, keep)
  {
    var lines := OneOrMore(kept) + ["", line];
    EmptyLineStays(keep);
    assert lines[|lines| - 1] == line;
  }

  // The lines that are not source lines.
  function Others(lines: seq<string>, n: nat): seq<string>
    requires n <= |lines|
  {
    if n == 0 then [] else Others(lines, n - 1) + if IsSourceLine(lines[n - 1]) then [] else [lines[n - 1]]
  }

  lemma {:induction false} OthersPrefix(a: seq<string>, b: seq<string>, n: nat)
    requires n <= |a| && n <= |b| && forall i :: 0 <= i < n ==> a[i] == b[i]
    ensures Others(a, n) == Others(b, n)
  {
    if n > 0 {
      OthersPrefix(a, b, n - 1);
    }
  }

  lemma OthersSnoc(a: seq<string>, line: string)
    ensures Others(a + [line], |a| + 1) == Others(a, |a|) + if IsSourceLine(line) then [] else [line]
  {
    OthersPrefix(a, a + [line], |a|);
  }

  // One line more, kept or not.
  lemma OthersStep(lines: seq<string>, n: nat, keep: set<string>, before: seq<string>, after: seq<string>)
    requires 0 < n <= |lines| && before == Kept(lines, n - 1, keep) && after == Kept(lines, n, keep)
    ensures Others(after, |after|) == Others(before, |before|) + if IsSourceLine(lines[n - 1]) then [] else [lines[n - 1]]
  {
    if Stays(lines[n - 1], keep) {
      OthersSnoc(before, lines[n - 1]);
      assert after == before + [lines[n - 1]];
    } else {
      assert after == before;
    }
  }

  // They keep their text and their order, all of them.
  lemma OtherLinesAreKept(lines: seq<string>, n: nat, keep: set<string>)
    requires n <= |lines|
    ensures Others(Kept(lines, n, keep), |Kept(lines, n, keep)|) == Others(lines, n)
  {
    OthersOfKept(lines, n, keep, Kept(lines, n, keep));
  }

  lemma {:induction false} OthersOfKept(lines: seq<string>, n: nat, keep: set<string>, r: seq<string>)
    requires n <= |lines| && r == Kept(lines, n, keep)
    ensures Others(r, |r|) == Others(lines, n)
    decreases n
  {
    if n > 0 {
      var before := Kept(lines, n - 1, keep);
      OthersOfKept(lines, n - 1, keep, before);
      OthersStep(lines, n, keep, before, r);
    }
  }

  // So every source line of the answer is canonical, and there is at least one.
  lemma AnswerIsCanonical(reply: string, calls: seq<seq<Pair>>)
    requires Flatten(calls) != [] && GoodPairs(SourcePairs(Flatten(calls)))
    ensures var lines := Split(Attached(reply, calls)); var keep := ValidLines(SourcePairs(Flatten(calls)));
            && (forall i :: 0 <= i < |lines| ==> Stays(lines[i], keep))
            && HasValid(lines, |lines|, keep)
  {
    var pairs := SourcePairs(Flatten(calls));
    var keep, before := ValidLines(pairs), Split(reply);
    var kept := Kept(before, |before|, keep);
    AttachedLines(reply, calls);
    if !HasValid(before, |before|, keep) {
      CollectedIsNotEmpty(Flatten(calls));
      SourcesLineIsValid(pairs);
      BlockIsCanonical(kept, SourcesLine(pairs), keep);
    } else {
      ValidIsKept(before, keep);
      assert OneOrMore(kept) + [] == kept;
    }
  }

  lemma EmptyLineStays(keep: set<string>)
    ensures Stays("", keep)
  {
    assert Strip("") == "";
  }

  lemma {:induction false} AllKept(lines: seq<string>, n: nat, keep: set<string>)
    requires n <= |lines| && forall i :: 0 <= i < |lines| ==> Stays(lines[i], keep)
    ensures Kept(lines, n, keep) == lines[..n]
  {
    if n > 0 {
      AllKept(lines, n - 1, keep);
    }
  }

  lemma NothingToChange(text: string, calls: seq<seq<Pair>>, keep: set<string>)
    requires calls != [] && keep == if Flatten(calls) == [] then {} else ValidLines(SourcePairs(Flatten(calls)))
    requires forall i :: 0 <= i < |Split(text)| ==> Stays(Split(text)[i], keep)
    requires Flatten(calls) == [] || HasValid(Split(text), |Split(text)|, keep)
    ensures Attached(text, calls) == text
  {
    AllKept(Split(text), |Split(text)|, keep);
    assert Split(text)[..|Split(text)|] == Split(text);
    SplitThenJoin(text);
  }

  // Attaching twice is attaching once.
  lemma AttachIsIdempotent(reply: string, calls: seq<seq<Pair>>)
    requires GoodPairs(SourcePairs(Flatten(calls)))
    ensures Attached(Attached(reply, calls), calls) == Attached(reply, calls)
  {
    if calls != [] {
      var text := Attached(reply, calls);
      if Flatten(calls) == [] {
        SplitKept(reply, {});
        EmptyLineStays({});
        NothingToChange(text, calls, {});
      } else {
        AnswerIsCanonical(reply, calls);
        NothingToChange(text, calls, ValidLines(SourcePairs(Flatten(calls))));
      }
    }
  }

  // -- Uploaded filenames -----------------------------------------------------------------

  const CLEAN_FILENAME_MAX_CHARS: nat := 120

  predicate IsKeptChar(c: char) {
    c != '/' && c != '\\' && c as int >= 32 && c as int != 0x7F
  }

  function KeptChars(raw: string): (r: string)
    ensures forall i :: 0 <= i < |r| ==> IsKeptChar(r[i])
  {
    if raw == "" then "" else (if IsKeptChar(raw[0]) then [raw[0]] else "") + KeptChars(raw[1..])
  }

  function CleanFilename(raw: string): Option<string> {
    var cleaned := Strip(KeptChars(raw));
    var capped := if |cleaned| <= CLEAN_FILENAME_MAX_CHARS then cleaned else cleaned[..CLEAN_FILENAME_MAX_CHARS];
    if capped == "" then None else Some(capped)
  }

  function Lower(s: string): (r: string)
    ensures |r| == |s|
  {
    seq(|s|, i requires 0 <= i < |s| => if 'A' <= s[i] <= 'Z' then (s[i] as int + 32) as char else s[i])
  }

  // What follows the last dot.
  function Extension(name: string): (r: Option<string>)
    ensures r.Some? ==> |r.value| < |name| && name[|name| - |r.value|..] == r.value
  {
    if name == "" then None
    else if name[|name| - 1] == '.' then Some("")
    else
      var before := Extension(name[..|name| - 1]);
      if before.Some? then Some(before.value + [name[|name| - 1]]) else None
  }

  predicate Accepted(name: string) {
    Extension(name).Some? && Lower(Extension(name).value) in {"txt", "md", "docx", "pdf"}
  }

  lemma {:induction false} LeftStripKeeps(s: string)
    ensures forall c :: c in LeftStrip(s) ==> c in s
  {
    if s != "" && IsSpace(s[0]) {
      LeftStripKeeps(s[1..]);
    }
  }

  // Cutting a cleaned name at 120 characters could leave a trailing blank, but such
  // a name has no known extension: an accepted one is fit for a source line.
  lemma AcceptedNamesAreGood(raw: string)
    requires CleanFilename(raw).Some? && Accepted(CleanFilename(raw).value)
    ensures GoodName(CleanFilename(raw).value) && |CleanFilename(raw).value| <= CLEAN_FILENAME_MAX_CHARS
  {
    var kept, name := KeptChars(raw), CleanFilename(raw).value;
    var extension := Extension(name).value;
    LeftStripKeeps(kept);
    assert name <= LeftStrip(kept);
    forall i | 0 <= i < |name| ensures name[i] != '\n' {
      assert name[i] in LeftStrip(kept);
    }
    assert Lower(extension)[|extension| - 1] in {'t', 'd', 'x', 'f'};
    assert name[|name| - 1] == extension[|extension| - 1];
  }
}
