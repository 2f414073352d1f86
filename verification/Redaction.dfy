// Registered secrets: replacing them by a placeholder, and cutting a secret's
// beginning off the end of a text.

module Redaction {
  const REDACTION: string := "***REDACTED***"
  const MIN_SECRET_LENGTH: nat := 8
  const SECRET_FRAGMENT_MIN: nat := 8

  // -- Occurrences and replacement ---------------------------------------------

  predicate At(text: string, x: string, i: nat) {
    i + |x| <= |text| && forall j :: 0 <= j < |x| ==> x[j] == text[i + j]
  }

  ghost predicate Contains(text: string, x: string) {
    exists i: nat :: At(text, x, i)
  }

  // The leftmost occurrence at or after i, or |text|.
  function Find(text: string, x: string, i: nat): (k: nat)
    requires x != [] && i <= |text|
    ensures i <= k <= |text|
    ensures k < |text| ==> At(text, x, k)
    ensures forall j: nat :: i <= j < k ==> !At(text, x, j)
    decreases |text| - i
  {
    if i == |text| || At(text, x, i) then i else Find(text, x, i + 1)
  }

  // str.replace: leftmost occurrences first, none overlapping.
  function Replace(text: string, x: string): string
    requires x != []
    decreases |text|
  {
    var k := Find(text, x, 0);
    if k == |text| then text else text[..k] + REDACTION + Replace(text[k + |x|..], x)
  }

  lemma NotFoundMeansAbsent(text: string, x: string)
    requires x != []
    ensures Find(text, x, 0) == |text| <==> !Contains(text, x)
  {
    var k := Find(text, x, 0);
    if k < |text| {
      assert At(text, x, k);
    } else {
      forall i: nat ensures !At(text, x, i) {
        assert i < |text| ==> !At(text, x, i);
      }
    }
  }

  // -- Which secrets the placeholder can rebuild ----------------------------------

  // x laid over the placeholder at offset d agrees with it wherever both have a
  // character.
  predicate Agrees(x: string, d: int) {
    && -|x| < d < |REDACTION|
    && forall j :: 0 <= j < |x| && 0 <= j + d < |REDACTION| ==> x[j] == REDACTION[j + d]
  }

  ghost predicate Clashes(x: string) {
    exists d: int :: Agrees(x, d)
  }

  lemma OverlapClashes(before: string, after: string, y: string, i: nat)
    requires At(before + REDACTION + after, y, i)
    requires |before| - |y| < i < |before| + |REDACTION|
    ensures Clashes(y)
  {
    assert Agrees(y, i - |before|);
  }

  // An occurrence in the rest of the text is an occurrence in the text.
  lemma PieceOccurs(text: string, from: nat, y: string)
    requires from <= |text| && Contains(text[from..], y)
    ensures Contains(text, y)
  {
    var j: nat :| At(text[from..], y, j);
    assert At(text, y, from + j);
  }

  lemma OccursEarlier(text: string, x: string, k: nat, y: string, i: nat)
    requires x != [] && k <= |text| && k == Find(text, x, 0) && y != [] && At(text[..k], y, i)
    ensures Contains(text, y) && y != x
  {
    assert At(text, y, i);
  }

  // Where an occurrence in a replaced text lies.
  lemma OccurrenceLies(before: string, after: string, y: string, i: nat)
    requires y != [] && !Clashes(y) && At(before + REDACTION + after, y, i)
    ensures At(before, y, i) || (i >= |before| + |REDACTION| && At(after, y, i - |before| - |REDACTION|))
  {
    if |before| - |y| < i < |before| + |REDACTION| {
      OverlapClashes(before, after, y, i);
    }
  }

  lemma ReplaceParts(text: string, x: string, k: nat)
    requires x != [] && k == Find(text, x, 0)
    ensures k == |text| ==> Replace(text, x) == text
    ensures k < |text| ==> Replace(text, x) == text[..k] + REDACTION + Replace(text[k + |x|..], x)
  {
  }

  // An occurrence behind the placeholder is one in the rest.
  lemma LaterOccurs(text: string, x: string, k: nat, y: string)
    requires x != [] && k + |x| <= |text| && Contains(text[k + |x|..], y)
    ensures Contains(text, y)
  {
    PieceOccurs(text, k + |x|, y);
  }

  // A secret that overlaps the placeholder nowhere is in the output only where the
  // input already had it, and the replaced secret itself is nowhere.
  lemma {:induction false} ReplaceAddsNothing(text: string, x: string, y: string, i: nat, out: string)
    requires x != [] && y != [] && !Clashes(y) && out == Replace(text, x) && At(out, y, i)
    ensures Contains(text, y) && y != x
    decreases |text|
  {
    var k := Find(text, x, 0);
    ReplaceParts(text, x, k);
    if k == |text| {
      NotFoundMeansAbsent(text, x);
      assert Contains(text, y);
    } else {
      var before, rest := text[..k], text[k + |x|..];
      OccurrenceLies(before, Replace(rest, x), y, i);
      if At(before, y, i) {
        OccursEarlier(text, x, k, y, i);
      } else {
        ReplaceAddsNothing(rest, x, y, i - k - |REDACTION|, Replace(rest, x));
        LaterOccurs(text, x, k, y);
      }
    }
  }

  // -- Redaction -------------------------------------------------------------------

  predicate AllPresent(secrets: seq<string>) {
    forall i :: 0 <= i < |secrets| ==> secrets[i] != []
  }

  // Every secret is replaced in turn.
  function Redact(secrets: seq<string>, text: string): string
    requires AllPresent(secrets)
    decreases |secrets|
  {
    if secrets == [] then text else Redact(secrets[1..], Replace(text, secrets[0]))
  }

  // Whatever the order, the output contains none of them.
  lemma {:induction false} RedactedIsClean(secrets: seq<string>, text: string, y: string)
    requires AllPresent(secrets)
    requires y != [] && !Clashes(y) && (y in secrets || !Contains(text, y))
    ensures !Contains(Redact(secrets, text), y)
    decreases |secrets|
  {
    if secrets != [] {
      var next := Replace(text, secrets[0]);
      if Contains(next, y) {
        var i: nat :| At(next, y, i);
        ReplaceAddsNothing(text, secrets[0], y, i, next);
      }
      RedactedIsClean(secrets[1..], next, y);
    }
  }

  lemma {:induction false} CleanIsUnchanged(secrets: seq<string>, text: string)
    requires AllPresent(secrets) && forall i :: 0 <= i < |secrets| ==> !Contains(text, secrets[i])
    ensures Redact(secrets, text) == text
    decreases |secrets|
  {
    if secrets != [] {
      NotFoundMeansAbsent(text, secrets[0]);
      CleanIsUnchanged(secrets[1..], text);
    }
  }

  // So redacting twice is redacting once.
  lemma RedactIsIdempotent(secrets: seq<string>, text: string)
    requires AllPresent(secrets) && forall i :: 0 <= i < |secrets| ==> !Clashes(secrets[i])
    ensures Redact(secrets, Redact(secrets, text)) == Redact(secrets, text)
  {
    forall i | 0 <= i < |secrets| ensures !Contains(Redact(secrets, text), secrets[i]) {
      RedactedIsClean(secrets, text, secrets[i]);
    }
    CleanIsUnchanged(secrets, Redact(secrets, text));
  }

  lemma PlainAgreement(x: string, d: int)
    requires |x| >= MIN_SECRET_LENGTH && '*' !in x && Agrees(x, d)
    ensures x == "REDACTED"
  {
    var low, high := if d < 0 then 0 else d, if d + |x| > 14 then 13 else d + |x| - 1;
    assert x[low - d] == REDACTION[low] && x[high - d] == REDACTION[high];
    assert x[low - d] in x && x[high - d] in x;
    assert forall j :: 0 <= j < 8 ==> x[j] == REDACTION[j + 3];
  }

  // A secret of eight or more characters with no asterisk, other than the word
  // inside the placeholder, is safe.
  lemma PlainSecretsAreSafe(x: string)
    requires |x| >= MIN_SECRET_LENGTH && '*' !in x && x != "REDACTED"
    ensures !Clashes(x)
  {
    forall d: int ensures !Agrees(x, d) {
      if Agrees(x, d) {
        PlainAgreement(x, d);
      }
    }
  }

  // -- And only those ---------------------------------------------------------------

  lemma RedactOne(x: string, text: string)
    requires x != []
    ensures Redact([x], text) == Replace(text, x)
  {
    assert [x][1..] == [];
  }

  function Min(a: int, b: int): int {
    if a < b then a else b
  }

  lemma ReplaceOnce(before: string, x: string, after: string)
    requires x != [] && |after| < |x| && Find(before + x + after, x, 0) == |before|
    ensures Redact([x], before + x + after) == before + REDACTION + after
  {
    var text := before + x + after;
    assert text[..|before|] == before && text[|before| + |x|..] == after;
    assert Find(after, x, 0) == |after|;
    RedactOne(x, text);
  }

  lemma OccursInside(before: string, x: string, after: string)
    ensures At(before + x + after, x, |before|)
  {
  }

  // A text in which redaction rebuilds the secret it removes.
  lemma LeaksForward(x: string, d: nat) returns (text: string)
    requires x != [] && Agrees(x, d)
    ensures Contains(Redact([x], text), x)
  {
    var after := x[Min(|x|, |REDACTION| - d)..];
    text := [] + x + after;
    OccursInside([], x, after);
    ReplaceOnce([], x, after);
    assert At([] + REDACTION + after, x, d);
  }

  // If x occurs too early in the text, it begins as it does |before| characters in.
  lemma EarlyOccurrence(x: string, a: nat, after: string, p: nat)
    requires p < a < |x| && At(x[..a] + x + after, x, p)
    ensures x[a] == x[0]
  {
    var text := x[..a] + x + after;
    assert x[0] == text[p] == x[p];
    assert x[a] == text[p + a] == x[p];
  }

  lemma StartsWithStar(x: string, d: int, after: string, p: nat)
    requires Agrees(x, d) && d < 0 && p < -d && At(x[..-d] + x + after, x, p)
    ensures Agrees(x, 13)
  {
    EarlyOccurrence(x, -d, after, p);
    assert x[-d] == REDACTION[-d + d];
  }

  lemma LeaksBackward(x: string, d: int) returns (text: string)
    requires x != [] && Agrees(x, d) && d < 0
    ensures Contains(Redact([x], text), x)
  {
    var before, after := x[..-d], x[Min(|x|, |REDACTION| - d)..];
    text := before + x + after;
    OccursInside(before, x, after);
    var p := Find(text, x, 0);
    if p < -d {
      StartsWithStar(x, d, after, p);
      text := LeaksForward(x, 13);
    } else {
      ReplaceOnce(before, x, after);
      Rebuilds(x, d);
    }
  }

  lemma Rebuilds(x: string, d: int)
    requires Agrees(x, d) && d < 0
    ensures Contains(x[..-d] + REDACTION + x[Min(|x|, |REDACTION| - d)..], x)
  {
    var out := x[..-d] + REDACTION + x[Min(|x|, |REDACTION| - d)..];
    assert At(out, x, 0);
  }

  ghost predicate Leaks(text: string, x: string)
    requires x != []
  {
    Contains(Redact([x], text), x)
  }

  // A single registered secret is always removed exactly when it does not clash
  // with the placeholder.
  lemma SafeIffNoClash(x: string)
    requires x != []
    ensures (forall text :: !Leaks(text, x)) <==> !Clashes(x)
  {
    if d: int :| Agrees(x, d) {
      var text;
      if d >= 0 {
        text := LeaksForward(x, d);
      } else {
        text := LeaksBackward(x, d);
      }
      assert Clashes(x) && Leaks(text, x);
    } else {
      forall text ensures !Leaks(text, x) {
        RedactedIsClean([x], text, x);
      }
    }
  }

  // -- Redacting twice -----------------------------------------------------------------

  lemma {:induction false} PlaceholderIsFixed(text: string)
    ensures Replace(text, REDACTION) == text
    decreases |text|
  {
    var k := Find(text, REDACTION, 0);
    ReplaceParts(text, REDACTION, k);
    if k < |text| {
      PlaceholderIsFixed(text[k + 14..]);
      assert text == text[..k] + text[k..k + 14] + text[k + 14..];
      assert text[k..k + 14] == REDACTION;
    }
  }

  // Replacing a secret shorter than the placeholder never shortens a text, and replacing
  // a longer one never lengthens it.
  lemma {:induction false} ReplacedLength(text: string, x: string)
    requires x != []
    ensures |x| <= |REDACTION| ==> |text| <= |Replace(text, x)|
    ensures |x| >= |REDACTION| ==> |Replace(text, x)| <= |text|
    decreases |text|
  {
    var k := Find(text, x, 0);
    ReplaceParts(text, x, k);
    if k < |text| {
      ReplacedLength(text[k + |x|..], x);
    }
  }

  // So a text that holds a secret other than the placeholder is changed.
  lemma ReplaceChanges(text: string, x: string)
    requires x != [] && x != REDACTION && Contains(text, x)
    ensures Replace(text, x) != text
  {
    var k, out := Find(text, x, 0), Replace(text, x);
    NotFoundMeansAbsent(text, x);
    ReplaceParts(text, x, k);
    ReplacedLength(text[k + |x|..], x);
    if |x| == |REDACTION| {
      assert exists j :: 0 <= j < |x| && x[j] != REDACTION[j] by {
        assert (forall j :: 0 <= j < |x| ==> x[j] == REDACTION[j]) ==> x == REDACTION;
      }
      var j :| 0 <= j < |x| && x[j] != REDACTION[j];
      assert out[k + j] == REDACTION[j] && text[k + j] == x[j];
    }
  }

  ghost predicate Settles(text: string, x: string)
    requires x != []
  {
    Redact([x], Redact([x], text)) == Redact([x], text)
  }

  // Redacting a single secret twice is redacting once, on every text, exactly when it
  // overlaps the placeholder nowhere or is the placeholder itself.
  lemma IdempotentIff(x: string)
    requires x != []
    ensures (forall text :: Settles(text, x)) <==> !Clashes(x) || x == REDACTION
  {
    if x == REDACTION {
      forall text ensures Settles(text, x) {
        RedactOne(x, text);
        RedactOne(x, Redact([x], text));
        PlaceholderIsFixed(text);
      }
    } else if !Clashes(x) {
      forall text ensures Settles(text, x) {
        RedactIsIdempotent([x], text);
      }
    } else {
      SafeIffNoClash(x);
      var text :| Leaks(text, x);
      RedactOne(x, Redact([x], text));
      ReplaceChanges(Redact([x], text), x);
      assert !Settles(text, x);
    }
  }

  // Two secrets the registry accepts and cannot remove.
  lemma UnsafeSecrets()
    ensures Clashes("REDACTED") && Clashes("abcdefg*")
  {
    assert Agrees("REDACTED", 3);
    assert Agrees("abcdefg*", -7);
  }

  // -- Several secrets at once --------------------------------------------------------

  // Two secrets of the same length; the second ends like the placeholder begins.
  const SAFE_SECRET: string := "gabcdefg"
  const STARRED_SECRET: string := "abcdefg*"

  ghost predicate NeverLeaks(secrets: seq<string>, y: string)
    requires AllPresent(secrets)
  {
    forall text :: !Contains(Redact(secrets, text), y)
  }

  // An occurrence of the starred secret in a replaced text begins seven characters
  // before a placeholder that took its place.
  lemma StarredComesBefore(before: string, after: string, i: nat)
    requires At(before + REDACTION + after, STARRED_SECRET, i)
    ensures At(before, STARRED_SECRET, i) || i + 7 == |before| || i >= |before| + |REDACTION|
  {
    var text := before + REDACTION + after;
    if |before| < i + 8 && i < |before| + |REDACTION| {
      assert STARRED_SECRET[0] == text[i + 0] && STARRED_SECRET[7] == text[i + 7];
      if i < |before| {
        assert text[|before|] == '*' && text[|before|] == STARRED_SECRET[|before| - i];
      }
    }
  }

  // What stands there spells the safe secret.
  lemma SafeStandsBefore(text: string, k: nat)
    requires k + 8 <= |text| && At(text, STARRED_SECRET, k) && 7 <= k
    requires forall j :: 0 <= j < 7 ==> text[k - 7 + j] == STARRED_SECRET[j]
    ensures At(text, SAFE_SECRET, k - 1)
  {
    assert text[k - 7 + 6] == STARRED_SECRET[6];
    forall j | 0 <= j < 8 ensures SAFE_SECRET[j] == text[k - 1 + j] {
      if j > 0 {
        assert STARRED_SECRET[j - 1] == text[k + (j - 1)];
      }
    }
  }

  lemma BeforeIsText(text: string, before: string, after: string, k: nat, i: nat)
    requires k <= |text| && before == text[..k] && i + 7 == k && At(before + REDACTION + after, STARRED_SECRET, i)
    ensures forall j :: 0 <= j < 7 ==> text[i + j] == STARRED_SECRET[j]
  {
    var whole := before + REDACTION + after;
    forall j | 0 <= j < 7 ensures text[i + j] == STARRED_SECRET[j] {
      assert whole[i + j] == STARRED_SECRET[j] && whole[i + j] == text[i + j];
    }
  }

  // Replacing the starred secret leaves or makes an occurrence of it only in a text that
  // holds the safe one.
  lemma {:induction false} StarredNeedsSafe(text: string, i: nat, out: string)
    requires out == Replace(text, STARRED_SECRET) && At(out, STARRED_SECRET, i)
    ensures Contains(text, SAFE_SECRET)
    decreases |text|
  {
    var k := Find(text, STARRED_SECRET, 0);
    ReplaceParts(text, STARRED_SECRET, k);
    if k == |text| {
      NotFoundMeansAbsent(text, STARRED_SECRET);
      assert Contains(text, STARRED_SECRET);
    } else {
      var before, tail := text[..k], Replace(text[k + 8..], STARRED_SECRET);
      StarredComesBefore(before, tail, i);
      if At(before, STARRED_SECRET, i) {
        OccursEarlier(text, STARRED_SECRET, k, STARRED_SECRET, i);
      } else if i + 7 == k {
        BeforeIsText(text, before, tail, k, i);
        SafeStandsBefore(text, k);
      } else {
        LaterOccurrence(before, tail, i);
        StarredNeedsSafe(text[k + 8..], i - k - |REDACTION|, tail);
        PieceOccurs(text, k + 8, SAFE_SECRET);
      }
    }
  }

  lemma LaterOccurrence(before: string, after: string, i: nat)
    requires i >= |before| + |REDACTION| && At(before + REDACTION + after, STARRED_SECRET, i)
    ensures At(after, STARRED_SECRET, i - |before| - |REDACTION|)
  {
  }

  lemma SafeFirstIsClean(text: string)
    ensures !Contains(Redact([SAFE_SECRET, STARRED_SECRET], text), STARRED_SECRET)
  {
    var between := Replace(text, SAFE_SECRET);
    PlainSecretsAreSafe(SAFE_SECRET);
    RedactOne(SAFE_SECRET, text);
    RedactedIsClean([SAFE_SECRET], text, SAFE_SECRET);
    RedactOne(STARRED_SECRET, between);
    RedactTwo(SAFE_SECRET, STARRED_SECRET, text);
    var out := Replace(between, STARRED_SECRET);
    if Contains(out, STARRED_SECRET) {
      var i: nat :| At(out, STARRED_SECRET, i);
      StarredNeedsSafe(between, i, out);
    }
  }

  lemma RedactTwo(x: string, y: string, text: string)
    requires x != [] && y != []
    ensures Redact([x, y], text) == Replace(Replace(text, x), y)
  {
    assert [x, y][1..] == [y];
    RedactOne(y, Replace(text, x));
  }

  // The other way round, the starred secret is rebuilt and stays.
  lemma StarredFirstLeaks()
    ensures Contains(Redact([STARRED_SECRET, SAFE_SECRET], "abcdefg" + STARRED_SECRET), STARRED_SECRET)
  {
    var text := "abcdefg" + STARRED_SECRET;
    var between := "abcdefg" + REDACTION;
    assert text + [] == text && between + [] == between;
    FirstStarred();
    ReplaceOnce("abcdefg", STARRED_SECRET, []);
    RedactOne(STARRED_SECRET, text);
    RedactTwo(STARRED_SECRET, SAFE_SECRET, text);
    NoSafeThere();
    NotFoundMeansAbsent(between, SAFE_SECRET);
    assert At(between, STARRED_SECRET, 0);
  }

  lemma FirstStarred()
    ensures Find("abcdefg" + STARRED_SECRET + [], STARRED_SECRET, 0) == 7
  {
    var text := "abcdefg" + STARRED_SECRET + [];
    assert At(text, STARRED_SECRET, 7);
    assert text[7] == 'a' && text[14] == '*';
    forall i: nat | i < 7 ensures !At(text, STARRED_SECRET, i) {
      assert STARRED_SECRET[7] != text[i + 7];
    }
  }

  lemma NoSafeThere()
    ensures !Contains("abcdefg" + REDACTION, SAFE_SECRET)
  {
    var text := "abcdefg" + REDACTION;
    forall i: nat ensures !At(text, SAFE_SECRET, i) {
      if i + 8 <= |text| {
        assert SAFE_SECRET[0] != text[i + 0] || SAFE_SECRET[1] != text[i + 1];
      }
    }
  }

  // So whether a registry is safe is not decided by its secrets: both orders replace
  // longer secrets first, and one leaks what the other always removes.
  lemma OrderDecides()
    ensures AllPresent([SAFE_SECRET, STARRED_SECRET]) && AllPresent([STARRED_SECRET, SAFE_SECRET])
    ensures LongestFirst([SAFE_SECRET, STARRED_SECRET]) && LongestFirst([STARRED_SECRET, SAFE_SECRET])
    ensures NeverLeaks([SAFE_SECRET, STARRED_SECRET], STARRED_SECRET)
    ensures !NeverLeaks([STARRED_SECRET, SAFE_SECRET], STARRED_SECRET)
    ensures Clashes(STARRED_SECRET) && !Clashes(SAFE_SECRET)
  {
    forall text ensures !Contains(Redact([SAFE_SECRET, STARRED_SECRET], text), STARRED_SECRET) {
      SafeFirstIsClean(text);
    }
    StarredFirstLeaks();
    UnsafeSecrets();
    PlainSecretsAreSafe(SAFE_SECRET);
  }

  // -- Fragments -------------------------------------------------------------------

  // The last n characters are a proper beginning of a secret.
  predicate IsFragment(secrets: set<string>, text: string, n: nat) {
    SECRET_FRAGMENT_MIN <= n <= |text| && exists s | s in secrets :: n < |s| && text[|text| - n..] == s[..n]
  }

  function LongestFragment(secrets: set<string>, text: string, n: nat): (best: nat)
    ensures best <= n
    ensures best > 0 ==> IsFragment(secrets, text, best)
    ensures forall m :: best < m <= n ==> !IsFragment(secrets, text, m)
  {
    if n == 0 then 0 else if IsFragment(secrets, text, n) then n else LongestFragment(secrets, text, n - 1)
  }

  // What is cut is exactly the longest such end, and nothing when there is none.
  function StripFragment(secrets: set<string>, text: string): (kept: string)
    ensures kept <= text
    ensures forall n: nat :: IsFragment(secrets, text, n) ==> |text| - |kept| >= n
    ensures kept != text ==> IsFragment(secrets, text, |text| - |kept|)
  {
    text[..|text| - LongestFragment(secrets, text, |text|)]
  }

  // -- The registry -------------------------------------------------------------------

  ghost predicate LongestFirst(secrets: seq<string>) {
    forall i, j :: 0 <= i < j < |secrets| ==> |secrets[i]| >= |secrets[j]|
  }

  class Registry {
    var secrets: set<string>

    ghost predicate Valid()
      reads this
    {
      forall s <- secrets :: |s| >= MIN_SECRET_LENGTH
    }

    constructor ()
      ensures Valid() && secrets == {}
    {
      secrets := {};
    }

    method RegisterSecret(value: string)
      requires Valid()
      modifies this
      ensures Valid()
      ensures secrets == if |value| >= MIN_SECRET_LENGTH then old(secrets) + {value} else old(secrets)
    {
      if |value| >= MIN_SECRET_LENGTH {
        secrets := secrets + {value};
      }
    }

    method Longest(left: set<string>) returns (s: string)
      requires left != {}
      ensures s in left && forall x <- left :: |x| <= |s|
    {
      s := Any(left);
      var others := left - {s};
      while others != {}
        invariant others <= left && s in left
        invariant forall x <- left - others :: |x| <= |s|
      {
        var x := Any(others);
        if |x| > |s| {
          s := x;
        }
        others := others - {x};
      }
    }

    method Any(left: set<string>) returns (s: string)
      requires left != {}
      ensures s in left
    {
      assert exists x :: x in left by {
        assert (forall x :: x !in left) ==> left == {};
      }
      s :| s in left;
    }

    method SortedByLength() returns (ordered: seq<string>)
      ensures LongestFirst(ordered) && forall s :: s in ordered <==> s in secrets
    {
      ordered := [];
      var left := secrets;
      while left != {}
        invariant left <= secrets
        invariant forall s :: s in ordered <==> s in secrets - left
        invariant LongestFirst(ordered)
        invariant forall s, i :: s in left && 0 <= i < |ordered| ==> |s| <= |ordered[i]|
      {
        var s := Longest(left);
        ordered := ordered + [s];
        left := left - {s};
      }
    }

    // No registered secret that is safe is left in the result.
    method RedactText(text: string) returns (result: string, ghost ordered: seq<string>)
      requires Valid()
      ensures LongestFirst(ordered) && (forall s :: s in ordered <==> s in secrets)
      ensures AllPresent(ordered) && result == Redact(ordered, text)
      ensures forall s <- secrets :: !Clashes(s) ==> !Contains(result, s)
    {
      var order := SortedByLength();
      ordered := order;
      result := text;
      assert order[0..] == order;
      for i := 0 to |order|
        invariant AllPresent(order[i..])
        invariant Redact(order[i..], result) == Redact(order, text)
      {
        assert order[i..][0] == order[i] && order[i..][1..] == order[i + 1..];
        result := Replace(result, order[i]);
      }
      assert order[|order|..] == [];
      forall s | s in secrets && !Clashes(s) ensures !Contains(result, s) {
        RedactedIsClean(order, text, s);
      }
    }

    method StripSecretFragment(text: string) returns (kept: string)
      ensures kept == StripFragment(secrets, text)
    {
      var best: nat, left := 0, secrets;
      while left != {}
        invariant left <= secrets && best <= |text|
        invariant best > 0 ==> IsFragment(secrets, text, best)
        invariant forall m: nat :: best < m ==> !IsFragment(secrets - left, text, m)
      {
        var s := Any(left);
        var length := if |text| < |s| - 1 then |text| else |s| - 1;
        while length >= SECRET_FRAGMENT_MIN
          invariant length <= |text| && length < |s|
          invariant forall m: nat :: length < m ==> !IsFragment({s}, text, m)
          invariant best <= |text| && (best > 0 ==> IsFragment(secrets, text, best))
        {
          if text[|text| - length..] == s[..length] {
            if length > best {
              best := length;
            }
            break;
          }
          length := length - 1;
        }
        forall m: nat | best < m ensures !IsFragment(secrets - (left - {s}), text, m) {
          assert !IsFragment(secrets - left, text, m) && !IsFragment({s}, text, m);
        }
        left := left - {s};
      }
      assert secrets - left == secrets;
      kept := text[..|text| - best];
    }
  }
}
