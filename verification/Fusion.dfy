// Reciprocal-rank fusion of two rankings, and what a rerank may do to the order.

module Fusion {
  import opened Common

  const RRF_K: int := 60
  const HYBRID_CANDIDATES: nat := 10

  // -- Scores -------------------------------------------------------------------

  function Share(rank: nat): (r: real)
    ensures r > 0.0
  {
    1.0 / (RRF_K + rank) as real
  }

  // What the first n places of one ranking give an id.
  function RankScore(ranking: seq<int>, n: nat, id: int): real
    requires n <= |ranking|
  {
    if n == 0 then 0.0 else RankScore(ranking, n - 1, id) + if ranking[n - 1] == id then Share(n - 1) else 0.0
  }

  function Score(rankings: seq<seq<int>>, n: nat, id: int): real
    requires n <= |rankings|
  {
    if n == 0 then 0.0 else Score(rankings, n - 1, id) + RankScore(rankings[n - 1], |rankings[n - 1]|, id)
  }

  predicate Ranked(rankings: seq<seq<int>>, n: nat, id: int)
    requires n <= |rankings|
  {
    exists i :: 0 <= i < n && id in rankings[i]
  }

  // Descending score, ties by ascending id.
  ghost predicate Before(rankings: seq<seq<int>>, a: int, b: int) {
    var x, y := Score(rankings, |rankings|, a), Score(rankings, |rankings|, b);
    x > y || (x == y && a < b)
  }

  // Each ranked id once, and in order.
  ghost predicate IsFused(rankings: seq<seq<int>>, order: seq<int>) {
    && (forall id :: id in order <==> Ranked(rankings, |rankings|, id))
    && (forall i, j :: 0 <= i < j < |order| ==> Before(rankings, order[i], order[j]))
  }

  // That determines the result.
  lemma {:induction false} FusionIsDetermined(rankings: seq<seq<int>>, a: seq<int>, b: seq<int>)
    requires (forall id :: id in a <==> id in b)
    requires forall i, j :: 0 <= i < j < |a| ==> Before(rankings, a[i], a[j])
    requires forall i, j :: 0 <= i < j < |b| ==> Before(rankings, b[i], b[j])
    ensures a == b
    decreases |a|
  {
    assert a == [] <==> b == [] by {
      if a != [] { assert a[0] in a; }
      if b != [] { assert b[0] in b; }
    }
    if a != [] {
      assert a[0] in a && b[0] in b;
      assert a[0] in b && b[0] in a;
      assert a[0] == b[0];
      forall id ensures id in a[1..] <==> id in b[1..] {
        assert id in a[1..] ==> id in a && id != a[0];
        assert id in b[1..] ==> id in b && id != b[0];
        assert id in a && id != a[0] ==> id in a[1..];
        assert id in b && id != b[0] ==> id in b[1..];
      }
      FusionIsDetermined(rankings, a[1..], b[1..]);
    }
  }

  // -- Dominance ------------------------------------------------------------------

  ghost predicate Distinct(s: seq<int>) {
    forall i, j :: 0 <= i < j < |s| ==> s[i] != s[j]
  }

  // In this ranking a stands no worse than b: wherever b is, a is at or before it.
  ghost predicate NoWorse(ranking: seq<int>, a: int, b: int) {
    forall j :: 0 <= j < |ranking| && ranking[j] == b ==> exists i :: 0 <= i <= j && ranking[i] == a
  }

  ghost predicate Better(ranking: seq<int>, a: int, b: int) {
    a in ranking && NoWorse(ranking, a, b)
  }

  lemma {:induction false} RankScoreOf(ranking: seq<int>, n: nat, id: int, at: nat)
    requires Distinct(ranking) && n <= |ranking| && at < |ranking| && ranking[at] == id
    ensures RankScore(ranking, n, id) == if at < n then Share(at) else 0.0
  {
    if n > 0 {
      RankScoreOf(ranking, n - 1, id, at);
    }
  }

  lemma {:induction false} RankScoreAbsent(ranking: seq<int>, n: nat, id: int)
    requires n <= |ranking| && id !in ranking[..n]
    ensures RankScore(ranking, n, id) == 0.0
  {
    if n > 0 {
      assert ranking[n - 1] in ranking[..n];
      assert forall i :: 0 <= i < n - 1 ==> ranking[..n - 1][i] == ranking[..n][i];
      RankScoreAbsent(ranking, n - 1, id);
    }
  }

  lemma SharesFall(i: nat, j: nat)
    requires i <= j
    ensures Share(i) >= Share(j) && (i < j ==> Share(i) > Share(j))
  {
    Reciprocal((RRF_K + i) as real, (RRF_K + j) as real);
  }

  lemma Reciprocal(a: real, b: real)
    requires 0.0 < a <= b
    ensures 1.0 / a >= 1.0 / b && (a < b ==> 1.0 / a > 1.0 / b)
  {
    assert 1.0 / a - 1.0 / b == (b - a) / (a * b);
  }

  lemma RankingFavours(ranking: seq<int>, a: int, b: int)
    requires Distinct(ranking) && NoWorse(ranking, a, b) && a != b
    ensures RankScore(ranking, |ranking|, a) >= RankScore(ranking, |ranking|, b)
    ensures Better(ranking, a, b) ==> RankScore(ranking, |ranking|, a) > RankScore(ranking, |ranking|, b)
  {
    assert ranking[..|ranking|] == ranking;
    if b in ranking {
      var j :| 0 <= j < |ranking| && ranking[j] == b;
      var i :| 0 <= i <= j && ranking[i] == a;
      RankScoreOf(ranking, |ranking|, a, i);
      RankScoreOf(ranking, |ranking|, b, j);
      SharesFall(i, j);
    } else {
      RankScoreAbsent(ranking, |ranking|, b);
      if a in ranking {
        var i :| 0 <= i < |ranking| && ranking[i] == a;
        RankScoreOf(ranking, |ranking|, a, i);
      } else {
        RankScoreAbsent(ranking, |ranking|, a);
      }
    }
  }

  lemma {:induction false} ScoreFavours(rankings: seq<seq<int>>, n: nat, a: int, b: int)
    requires n <= |rankings| && a != b
    requires forall i :: 0 <= i < n ==> Distinct(rankings[i]) && NoWorse(rankings[i], a, b)
    ensures Score(rankings, n, a) >= Score(rankings, n, b)
    ensures (exists i :: 0 <= i < n && Better(rankings[i], a, b)) ==> Score(rankings, n, a) > Score(rankings, n, b)
  {
    if n > 0 {
      ScoreFavours(rankings, n - 1, a, b);
      RankingFavours(rankings[n - 1], a, b);
    }
  }

  // An id ranked no worse than another in every ranking, and better in one, comes
  // before it.
  lemma DominantComesFirst(rankings: seq<seq<int>>, order: seq<int>, i: nat, j: nat, k: nat)
    requires IsFused(rankings, order) && i < |order| && j < |order| && order[i] != order[j]
    requires forall r :: 0 <= r < |rankings| ==> Distinct(rankings[r]) && NoWorse(rankings[r], order[i], order[j])
    requires k < |rankings| && Better(rankings[k], order[i], order[j])
    ensures i < j
  {
    ScoreFavours(rankings, |rankings|, order[i], order[j]);
    assert j < i ==> Before(rankings, order[j], order[i]);
  }

  // -- The fusion as it is computed ---------------------------------------------------

  method Rrf(rankings: seq<seq<int>>) returns (order: seq<int>)
    ensures IsFused(rankings, order)
  {
    var scores: map<int, real> := map[];
    for r := 0 to |rankings|
      invariant forall id :: id in scores <==> Ranked(rankings, r, id)
      invariant forall id :: (if id in scores then scores[id] else 0.0) == Score(rankings, r, id)
    {
      scores := AddRanking(scores, rankings, r);
    }
    order := SortByScore(scores);
  }

  method AddRanking(scores: map<int, real>, rankings: seq<seq<int>>, r: nat) returns (added: map<int, real>)
    requires r < |rankings|
    requires forall id :: id in scores <==> Ranked(rankings, r, id)
    requires forall id :: (if id in scores then scores[id] else 0.0) == Score(rankings, r, id)
    ensures forall id :: id in added <==> Ranked(rankings, r + 1, id)
    ensures forall id :: (if id in added then added[id] else 0.0) == Score(rankings, r + 1, id)
  {
    var ranking := rankings[r];
    added := scores;
    for rank := 0 to |ranking|
      invariant forall id :: id in added <==> id in scores || id in ranking[..rank]
      invariant forall id :: (if id in added then added[id] else 0.0) == Score(rankings, r, id) + RankScore(ranking, rank, id)
    {
      var id := ranking[rank];
      assert ranking[..rank + 1] == ranking[..rank] + [id];
      added := added[id := (if id in added then added[id] else 0.0) + Share(rank)];
    }
    assert ranking[..|ranking|] == ranking;
    assert forall id :: Ranked(rankings, r + 1, id) <==> Ranked(rankings, r, id) || id in rankings[r];
  }

  predicate Precedes(scores: map<int, real>, a: int, b: int) {
    a in scores && b in scores &&
    (scores[a] > scores[b] || (scores[a] == scores[b] && a < b))
  }

  method First(scores: map<int, real>, left: set<int>) returns (best: int)
    requires left != {} && left <= scores.Keys
    ensures best in left && forall id <- left :: id != best ==> Precedes(scores, best, id)
  {
    best := Any(left);
    var others := left - {best};
    while others != {}
      invariant others <= left && best in left && best !in others
      invariant forall id <- left - others :: id != best ==> Precedes(scores, best, id)
    {
      var id := Any(others);
      ghost var seen, former := left - others, best;
      others := others - {id};
      if Precedes(scores, id, best) {
        best := id;
      }
      forall x | x in left - others && x != best ensures Precedes(scores, best, x) {
        assert x in seen || x == id;
        assert x in seen && x != former ==> Precedes(scores, former, x);
      }
    }
  }

  method Any(left: set<int>) returns (id: int)
    requires left != {}
    ensures id in left
  {
    assert exists x :: x in left by {
      assert (forall x :: x !in left) ==> left == {};
    }
    id :| id in left;
  }

  method SortByScore(scores: map<int, real>) returns (order: seq<int>)
    ensures forall id :: id in order <==> id in scores
    ensures forall i, j :: 0 <= i < j < |order| ==> Precedes(scores, order[i], order[j])
  {
    order := [];
    var left := scores.Keys;
    while left != {}
      invariant left <= scores.Keys
      invariant forall id :: id in order <==> id in scores.Keys - left
      invariant forall i, j :: 0 <= i < j < |order| ==> Precedes(scores, order[i], order[j])
      invariant forall i, id :: 0 <= i < |order| && id in left ==> Precedes(scores, order[i], id)
    {
      var best := First(scores, left);
      order := order + [best];
      left := left - {best};
    }
  }

  // -- Reranking ----------------------------------------------------------------------

  // An element of the array the model returned: an integer, or anything else.
  datatype Item = Number(n: int) | Other

  // 1-based places, all usable and none twice.
  ghost predicate Usable(items: seq<Item>, n: nat) {
    && items != []
    && (forall i :: 0 <= i < |items| ==> items[i].Number? && 1 <= items[i].n <= n)
    && (forall i, j :: 0 <= i < j < |items| ==> items[i] != items[j])
  }

  method ParseRerankReply(reply: Option<seq<Item>>, n: nat) returns (order: Option<seq<nat>>)
    ensures order.Some? <==> reply.Some? && Usable(reply.value, n)
    ensures order.Some? ==> |order.value| == |reply.value|
                            && forall i :: 0 <= i < |order.value| ==> order.value[i] + 1 == reply.value[i].n
  {
    if reply.None? || reply.value == [] {
      return None;
    }
    var items := reply.value;
    var seen: set<int> := {};
    var indices: seq<nat> := [];
    for k := 0 to |items|
      invariant |indices| == k
      invariant forall i :: 0 <= i < k ==> items[i].Number? && 1 <= items[i].n <= n && indices[i] + 1 == items[i].n
      invariant forall x :: x in seen <==> exists i :: 0 <= i < k && items[i] == Number(x)
      invariant forall i, j :: 0 <= i < j < k ==> items[i] != items[j]
    {
      var item := items[k];
      if item.Other? || item.n < 1 || item.n > n || item.n in seen {
        return None;
      }
      seen := seen + {item.n};
      indices := indices + [item.n - 1];
    }
    order := Some(indices);
  }

  // Every place of 0..n-1 exactly once.
  ghost predicate IsPermutation(p: seq<nat>, n: nat) {
    && (forall i :: 0 <= i < |p| ==> p[i] < n)
    && (forall i, j :: 0 <= i < j < |p| ==> p[i] != p[j])
    && (forall x: nat :: x < n ==> x in p)
  }

  function Missing(order: seq<nat>, n: nat): (r: seq<nat>)
    ensures forall x: nat :: x in r <==> x < n && x !in order
    ensures forall i :: 0 <= i < |r| ==> r[i] < n
    ensures forall i, j :: 0 <= i < j < |r| ==> r[i] < r[j]
  {
    if n == 0 then [] else Missing(order, n - 1) + if n - 1 in order then [] else [n - 1]
  }

  function Picked<T>(candidates: seq<T>, p: seq<nat>): (r: seq<T>)
    requires forall i :: 0 <= i < |p| ==> p[i] < |candidates|
    ensures |r| == |p|
  {
    seq(|p|, i requires 0 <= i < |p| => candidates[p[i]])
  }

  ghost predicate Indexes(order: seq<nat>, n: nat) {
    && (forall i :: 0 <= i < |order| ==> order[i] < n)
    && (forall i, j :: 0 <= i < j < |order| ==> order[i] != order[j])
  }

  // The named candidates in the order given, then the others in theirs.
  function Reorder<T>(candidates: seq<T>, order: seq<nat>): seq<T>
    requires Indexes(order, |candidates|)
  {
    Picked(candidates, order) + Picked(candidates, Missing(order, |candidates|))
  }

  lemma ReorderIsPermutation<T>(candidates: seq<T>, order: seq<nat>)
    requires Indexes(order, |candidates|)
    ensures IsPermutation(order + Missing(order, |candidates|), |candidates|)
    ensures Reorder(candidates, order) == Picked(candidates, order + Missing(order, |candidates|))
  {
    var missing := Missing(order, |candidates|);
    forall i, j | 0 <= i < |order| && 0 <= j < |missing| ensures order[i] != missing[j] {
      assert missing[j] in missing && order[i] in order;
    }
    forall x: nat | x < |candidates| ensures x in order + missing {
      assert x in order || x in missing;
    }
  }

  // -- The search ----------------------------------------------------------------------

  // How the rerank ended: not tried, no usable reply, an exception, or an array.
  datatype Rerank = Off | Raised | Replied(reply: Option<seq<Item>>)

  datatype Passage = Passage(id: int, text: string)

  // The fused ids that are still stored, in fused order.
  function Hydrated(hybrid: seq<int>, rows: map<int, string>): (r: seq<Passage>)
    ensures forall i :: 0 <= i < |r| ==> r[i].id in hybrid && r[i].id in rows && rows[r[i].id] == r[i].text
    ensures forall id :: id in hybrid && id in rows ==> Passage(id, rows[id]) in r
  {
    if hybrid == [] then []
    else
      var id := hybrid[|hybrid| - 1];
      Hydrated(hybrid[..|hybrid| - 1], rows) + if id in rows then [Passage(id, rows[id])] else []
  }

  function Best(fused: seq<int>): seq<int> {
    if |fused| <= HYBRID_CANDIDATES then fused else fused[..HYBRID_CANDIDATES]
  }

  ghost predicate InFusedOrder(rankings: seq<seq<int>>, passages: seq<Passage>, from: nat) {
    forall i, j :: from <= i < j < |passages| ==> Before(rankings, passages[i].id, passages[j].id)
  }

  // The stored ones among the ten best, best first.
  ghost predicate AreCandidates(rankings: seq<seq<int>>, fused: seq<int>, rows: map<int, string>, candidates: seq<Passage>) {
    && InFusedOrder(rankings, candidates, 0)
    && (forall c <- candidates :: AmongBest(fused, c.id) && c.id in rows && rows[c.id] == c.text)
    && (forall id :: AmongBest(fused, id) && id in rows ==> Passage(id, rows[id]) in candidates)
  }

  predicate AmongBest(fused: seq<int>, id: int) {
    exists i :: 0 <= i < |fused| && i < HYBRID_CANDIDATES && fused[i] == id
  }

  lemma {:induction false} HydratedInOrder(rankings: seq<seq<int>>, hybrid: seq<int>, rows: map<int, string>)
    requires forall i, j :: 0 <= i < j < |hybrid| ==> Before(rankings, hybrid[i], hybrid[j])
    ensures InFusedOrder(rankings, Hydrated(hybrid, rows), 0)
  {
    if hybrid != [] {
      var n := |hybrid| - 1;
      var rest := Hydrated(hybrid[..n], rows);
      HydratedInOrder(rankings, hybrid[..n], rows);
      forall i | 0 <= i < |rest| ensures Before(rankings, rest[i].id, hybrid[n]) {
        var k :| 0 <= k < n && hybrid[k] == rest[i].id;
        assert Before(rankings, hybrid[k], hybrid[n]);
      }
    }
  }

  lemma HydratedAreCandidates(rankings: seq<seq<int>>, fused: seq<int>, rows: map<int, string>)
    requires IsFused(rankings, fused)
    ensures AreCandidates(rankings, fused, rows, Hydrated(Best(fused), rows))
  {
    var best := Best(fused);
    assert forall i :: 0 <= i < |best| ==> best[i] == fused[i];
    HydratedInOrder(rankings, best, rows);
    forall id ensures id in best <==> AmongBest(fused, id) {
      if AmongBest(fused, id) {
        var i :| 0 <= i < |fused| && i < HYBRID_CANDIDATES && fused[i] == id;
        assert best[i] == id;
      }
    }
  }

  // Stored and unstored ids leave one list of candidates.
  lemma CandidatesAreDetermined(rankings: seq<seq<int>>, fused: seq<int>, rows: map<int, string>,
                                a: seq<Passage>, b: seq<Passage>)
    requires AreCandidates(rankings, fused, rows, a) && AreCandidates(rankings, fused, rows, b)
    ensures a == b
  {
    var x, y := Ids(a), Ids(b);
    IdsAreStored(rankings, fused, rows, a);
    IdsAreStored(rankings, fused, rows, b);
    FusionIsDetermined(rankings, x, y);
    assert |a| == |x| == |y| == |b|;
    forall i | 0 <= i < |a| ensures a[i] == b[i] {
      assert a[i] in a && b[i] in b && x[i] == y[i];
    }
  }

  function Ids(passages: seq<Passage>): (r: seq<int>)
    ensures |r| == |passages|
  {
    seq(|passages|, i requires 0 <= i < |passages| => passages[i].id)
  }

  lemma IdsAreStored(rankings: seq<seq<int>>, fused: seq<int>, rows: map<int, string>, c: seq<Passage>)
    requires AreCandidates(rankings, fused, rows, c)
    ensures forall id :: id in Ids(c) <==> AmongBest(fused, id) && id in rows
  {
    forall id | AmongBest(fused, id) && id in rows ensures id in Ids(c) {
      var i :| 0 <= i < |c| && c[i] == Passage(id, rows[id]);
      assert Ids(c)[i] == id;
    }
    forall id | id in Ids(c) ensures AmongBest(fused, id) && id in rows {
      var i :| 0 <= i < |c| && Ids(c)[i] == id;
      assert c[i] in c;
    }
  }

  // A reply the rerank can use.
  ghost predicate Reranks(rerank: Rerank, n: nat) {
    rerank.Replied? && n >= 2 && rerank.reply.Some? && Usable(rerank.reply.value, n)
  }

  // Without one: the best first, none left out for a worse one.
  ghost predicate BestFirst(rankings: seq<seq<int>>, candidates: seq<Passage>, topK: nat, result: seq<Passage>) {
    && |result| <= topK && InFusedOrder(rankings, result, 0)
    && (forall i, j :: 0 <= i < j < |result| ==> result[i].id != result[j].id)
    && (forall r <- result :: r in candidates)
    && (forall c <- candidates :: c in result || (|result| == topK && forall r <- result :: Before(rankings, r.id, c.id)))
  }

  // With one: those it names in its order, then the others, the best of them first.
  ghost predicate NamedFirst(rankings: seq<seq<int>>, candidates: seq<Passage>, items: seq<Item>, topK: nat,
                             result: seq<Passage>)
    requires Usable(items, |candidates|)
  {
    && |result| == (if |candidates| <= topK then |candidates| else topK)
    && (forall i :: 0 <= i < |items| && i < |result| ==> result[i] == candidates[items[i].n - 1])
    && InFusedOrder(rankings, result, |items|)
    && (forall r <- result :: r in candidates)
    && (forall i, j :: 0 <= i < j < |result| ==> result[i].id != result[j].id)
    && (forall c <- candidates :: c in result || (|result| == topK && forall i :: |items| <= i < topK ==> Before(rankings, result[i].id, c.id)))
  }

  function Top<T>(s: seq<T>, k: nat): seq<T> {
    if |s| <= k then s else s[..k]
  }

  // The candidates stand in the order of their ids, so they are all different.
  lemma CandidatesDiffer(rankings: seq<seq<int>>, candidates: seq<Passage>)
    requires InFusedOrder(rankings, candidates, 0)
    ensures forall i, j :: 0 <= i < |candidates| && 0 <= j < |candidates| && i != j ==> candidates[i].id != candidates[j].id
  {
    forall i, j | 0 <= i < j < |candidates| ensures candidates[i].id != candidates[j].id {
      assert Before(rankings, candidates[i].id, candidates[j].id);
    }
  }

  lemma PlainIsBestFirst(rankings: seq<seq<int>>, candidates: seq<Passage>, topK: nat)
    requires InFusedOrder(rankings, candidates, 0)
    ensures BestFirst(rankings, candidates, topK, Top(candidates, topK))
  {
    var result := Top(candidates, topK);
    CandidatesDiffer(rankings, candidates);
    assert forall i :: 0 <= i < |result| ==> result[i] == candidates[i] && candidates[i] in result;
    forall c | c in candidates && c !in result
      ensures |result| == topK && forall r <- result :: Before(rankings, r.id, c.id)
    {
      var k :| 0 <= k < |candidates| && candidates[k] == c;
      assert k >= |result|;
    }
  }

  // What Reorder puts in each place: past the named ones, ascending places.
  lemma PlacesOfReorder(candidates: seq<Passage>, order: seq<nat>, p: seq<nat>, final: seq<Passage>)
    requires Indexes(order, |candidates|) && p == order + Missing(order, |candidates|) && final == Reorder(candidates, order)
    ensures IsPermutation(p, |candidates|) && |p| == |candidates| == |final|
    ensures forall i :: 0 <= i < |final| ==> final[i] == candidates[p[i]]
    ensures forall i :: 0 <= i < |order| ==> p[i] == order[i]
    ensures forall i, j :: |order| <= i < j < |p| ==> p[i] < p[j]
  {
    ReorderIsPermutation(candidates, order);
    PermutationLength(p, |candidates|);
  }

  lemma {:induction false} PermutationLength(p: seq<nat>, n: nat)
    requires IsPermutation(p, n)
    ensures |p| == n
  {
    var places := set i | 0 <= i < |p| :: p[i];
    forall x: nat ensures x in places <==> x in Below(n) {
      if x < n {
        assert x in p;
      }
    }
    assert places == Below(n);
    DistinctCount(p, |p|);
  }

  ghost function Below(n: nat): (r: set<nat>)
    ensures |r| == n && forall x: nat :: x in r <==> x < n
  {
    if n == 0 then {} else Below(n - 1) + {n - 1}
  }

  lemma {:induction false} DistinctCount(p: seq<nat>, k: nat)
    requires k <= |p| && forall i, j :: 0 <= i < j < |p| ==> p[i] != p[j]
    ensures |set i | 0 <= i < k :: p[i]| == k
  {
    if k > 0 {
      DistinctCount(p, k - 1);
      assert (set i | 0 <= i < k :: p[i]) == (set i | 0 <= i < k - 1 :: p[i]) + {p[k - 1]};
    }
  }

  lemma ReorderIsNamedFirst(rankings: seq<seq<int>>, candidates: seq<Passage>, items: seq<Item>, topK: nat,
                            p: seq<nat>, final: seq<Passage>)
    requires InFusedOrder(rankings, candidates, 0) && Usable(items, |candidates|)
    requires IsPermutation(p, |candidates|) && |p| == |candidates| == |final|
    requires forall i :: 0 <= i < |final| ==> final[i] == candidates[p[i]]
    requires |items| <= |p| && forall i :: 0 <= i < |items| ==> p[i] + 1 == items[i].n
    requires forall i, j :: |items| <= i < j < |p| ==> p[i] < p[j]
    ensures NamedFirst(rankings, candidates, items, topK, Top(final, topK))
  {
    var result := Top(final, topK);
    CandidatesDiffer(rankings, candidates);
    assert forall i :: 0 <= i < |result| ==> result[i] == candidates[p[i]] && candidates[p[i]] in result;
    forall c | c in candidates && c !in result
      ensures |result| == topK && forall i :: |items| <= i < topK ==> Before(rankings, result[i].id, c.id)
    {
      var x: nat :| x < |candidates| && candidates[x] == c;
      assert x in p;
      var k :| 0 <= k < |p| && p[k] == x;
      assert k >= |result|;
    }
  }

  class Searcher {
    var calls: seq<seq<Passage>>

    constructor ()
      ensures calls == []
    {
      calls := [];
    }

    // The candidates as they are handed on: in the places p, which start with those a
    // usable reply names and are otherwise ascending.
    method ApplyRerank(candidates: seq<Passage>, rerank: Rerank) returns (final: seq<Passage>, ghost p: seq<nat>)
      ensures IsPermutation(p, |candidates|) && |p| == |candidates| && final == Picked(candidates, p)
      ensures !Reranks(rerank, |candidates|) ==> final == candidates
      ensures Reranks(rerank, |candidates|) ==>
                && |rerank.reply.value| <= |p|
                && (forall i :: 0 <= i < |rerank.reply.value| ==> p[i] + 1 == rerank.reply.value[i].n)
                && (forall i, j :: |rerank.reply.value| <= i < j < |p| ==> p[i] < p[j])
    {
      final, p := candidates, seq(|candidates|, i => i);
      forall x: nat | x < |candidates| ensures x in p {
        assert p[x] == x;
      }
      if rerank.Replied? && |candidates| >= 2 {
        var parsed := ParseRerankReply(rerank.reply, |candidates|);
        if parsed.Some? {
          final := Reorder(candidates, parsed.value);
          p := parsed.value + Missing(parsed.value, |candidates|);
          PlacesOfReorder(candidates, parsed.value, p, final);
        }
      }
    }

    // The first topK of a permutation of the candidates: the best of them, best first,
    // unless the rerank's reply is usable, and then those it names before the others.
    method Search(rankings: seq<seq<int>>, rows: map<int, string>, rerank: Rerank, topK: nat)
      returns (result: seq<Passage>, ghost fused: seq<int>, ghost candidates: seq<Passage>, ghost p: seq<nat>)
      modifies this
      ensures IsFused(rankings, fused) && AreCandidates(rankings, fused, rows, candidates)
      ensures candidates == Hydrated(Best(fused), rows)
      ensures !Reranks(rerank, |candidates|) ==> BestFirst(rankings, candidates, topK, result)
      ensures Reranks(rerank, |candidates|) ==> NamedFirst(rankings, candidates, rerank.reply.value, topK, result)
      ensures IsPermutation(p, |candidates|) && result == Top(Picked(candidates, p), topK)
      ensures Reranks(rerank, |candidates|) ==>
                forall i :: 0 <= i < |rerank.reply.value| ==> i < |p| && p[i] + 1 == rerank.reply.value[i].n
      ensures !Reranks(rerank, |candidates|) ==> Picked(candidates, p) == candidates
      ensures calls == old(calls) + [result]
    {
      var order := Rrf(rankings);
      fused := order;
      var hydrated := Hydrated(Best(order), rows);
      candidates := hydrated;
      HydratedAreCandidates(rankings, fused, rows);
      var final;
      final, p := ApplyRerank(hydrated, rerank);
      result := Top(final, topK);
      calls := calls + [result];
      if Reranks(rerank, |candidates|) {
        ReorderIsNamedFirst(rankings, candidates, rerank.reply.value, topK, p, final);
      } else {
        PlainIsBestFirst(rankings, candidates, topK);
      }
    }
  }
}
