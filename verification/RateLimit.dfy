// A token bucket per user, with time as real numbers.

module RateLimit {
  import opened Common

  datatype Bucket = Bucket(tokens: real, at: real)

  // A limiter's settings: at least one call at once, a positive refill time.
  datatype Limit = Limit(capacity: real, refill: real)

  ghost predicate Sane(l: Limit) {
    l.capacity >= 1.0 && l.refill > 0.0
  }

  function Min(a: real, b: real): real {
    if a < b then a else b
  }

  // The tokens a bucket holds at a moment; an unused bucket is full.
  function Level(l: Limit, b: Option<Bucket>, now: real): real
    requires l.refill > 0.0
  {
    if b.None? then l.capacity else Min(l.capacity, b.value.tokens + (now - b.value.at) / l.refill)
  }

  predicate Allows(l: Limit, b: Option<Bucket>, now: real)
    requires l.refill > 0.0
  {
    Level(l, b, now) >= 1.0
  }

  function After(l: Limit, b: Option<Bucket>, now: real): Bucket
    requires l.refill > 0.0
  {
    var level := Level(l, b, now);
    Bucket(if level < 1.0 then level else level - 1.0, now)
  }

  datatype Call = Call(key: int, now: real)

  ghost predicate Clocked(calls: seq<Call>) {
    forall i, j :: 0 <= i <= j < |calls| ==> calls[i].now <= calls[j].now
  }

  // The bucket of one key after the first n calls.
  function BucketAt(l: Limit, calls: seq<Call>, n: nat, key: int): Option<Bucket>
    requires l.refill > 0.0 && n <= |calls|
  {
    if n == 0 then None
    else if calls[n - 1].key == key then Some(After(l, BucketAt(l, calls, n - 1, key), calls[n - 1].now))
    else BucketAt(l, calls, n - 1, key)
  }

  predicate AllowedAt(l: Limit, calls: seq<Call>, i: nat, key: int)
    requires l.refill > 0.0 && i < |calls|
  {
    calls[i].key == key && Allows(l, BucketAt(l, calls, i, key), calls[i].now)
  }

  // How many of calls[from..upTo] by this key are allowed.
  function Allowed(l: Limit, calls: seq<Call>, from: nat, upTo: nat, key: int): nat
    requires l.refill > 0.0 && upTo <= |calls|
    decreases upTo
  {
    if upTo <= from then 0
    else Allowed(l, calls, from, upTo - 1, key) + if AllowedAt(l, calls, upTo - 1, key) then 1 else 0
  }

  // -- Bounds ---------------------------------------------------------------------

  // A bucket's tokens stay between zero and the capacity, and its time is that of
  // the key's last call.
  lemma {:induction false} TokensInRange(l: Limit, calls: seq<Call>, n: nat, key: int)
    requires Sane(l) && Clocked(calls) && n <= |calls|
    ensures var b := BucketAt(l, calls, n, key);
            b.Some? ==> 0.0 <= b.value.tokens <= l.capacity && exists i :: 0 <= i < n && calls[i].now == b.value.at
  {
    if n > 0 {
      TokensInRange(l, calls, n - 1, key);
      if calls[n - 1].key == key {
        var b := BucketAt(l, calls, n - 1, key);
        LevelInRange(l, b, calls[n - 1].now);
        assert calls[n - 1].now == BucketAt(l, calls, n, key).value.at;
      }
    }
  }

  lemma LevelInRange(l: Limit, b: Option<Bucket>, now: real)
    requires Sane(l) && (b.Some? ==> 0.0 <= b.value.tokens && b.value.at <= now)
    ensures 0.0 <= Level(l, b, now) <= l.capacity
  {
    if b.Some? {
      assert (now - b.value.at) / l.refill >= 0.0;
    }
  }

  lemma LevelBefore(l: Limit, calls: seq<Call>, n: nat, key: int, now: real)
    requires Sane(l) && Clocked(calls) && n <= |calls| && (n > 0 ==> calls[n - 1].now <= now)
    ensures 0.0 <= Level(l, BucketAt(l, calls, n, key), now) <= l.capacity
  {
    TokensInRange(l, calls, n, key);
    LevelInRange(l, BucketAt(l, calls, n, key), now);
  }

  // Waiting adds at most one token per refill time.
  lemma LevelGrows(l: Limit, b: Option<Bucket>, s: real, t: real)
    requires Sane(l) && s <= t
    ensures Level(l, b, t) <= Level(l, b, s) + (t - s) / l.refill
  {
    Division(t - s, l.refill);
    if b.Some? {
      var x, y, z := (s - b.value.at) / l.refill, (t - b.value.at) / l.refill, (t - s) / l.refill;
      DivisionAdds(s - b.value.at, t - s, l.refill);
      assert y == x + z;
    }
  }

  lemma Division(a: real, c: real)
    requires a >= 0.0 && c > 0.0
    ensures a / c >= 0.0
  {
  }

  lemma DivisionAdds(a: real, b: real, c: real)
    requires c > 0.0
    ensures (a + b) / c == a / c + b / c
  {
  }

  lemma SpendingOne(l: Limit, b: Option<Bucket>, now: real)
    requires Sane(l) && 0.0 <= Level(l, b, now) <= l.capacity
    ensures Level(l, Some(After(l, b, now)), now) == Level(l, b, now) - if Allows(l, b, now) then 1.0 else 0.0
  {
    assert (now - now) / l.refill == 0.0;
  }

  // Calls allowed plus tokens left never exceed the tokens there at the start plus
  // what time added.
  lemma {:induction false} AllowedPlusLevel(l: Limit, calls: seq<Call>, from: nat, upTo: nat, key: int, now: real)
    requires Sane(l) && Clocked(calls) && from < upTo <= |calls| && calls[upTo - 1].now <= now
    ensures Allowed(l, calls, from, upTo, key) as real + Level(l, BucketAt(l, calls, upTo, key), now)
            <= l.capacity + (now - calls[from].now) / l.refill
    decreases upTo
  {
    var last := calls[upTo - 1].now;
    var b := BucketAt(l, calls, upTo - 1, key);
    LevelBefore(l, calls, upTo - 1, key, last);
    LevelGrows(l, BucketAt(l, calls, upTo, key), last, now);
    DivisionAdds(last - calls[from].now, now - last, l.refill);
    if calls[upTo - 1].key == key {
      SpendingOne(l, b, last);
    }
    if from < upTo - 1 {
      AllowedPlusLevel(l, calls, from, upTo - 1, key, last);
    } else {
      assert (last - calls[from].now) / l.refill == 0.0;
      assert Allowed(l, calls, from, upTo - 1, key) == 0;
    }
  }

  // In any interval [s, t] of a run with a non-decreasing clock, one key is allowed
  // at most the capacity plus one call per refill time of the interval.
  lemma WindowBound(l: Limit, calls: seq<Call>, from: nat, upTo: nat, key: int, s: real, t: real)
    requires Sane(l) && Clocked(calls) && from < upTo <= |calls|
    requires s <= calls[from].now && calls[upTo - 1].now <= t
    ensures Allowed(l, calls, from, upTo, key) as real <= l.capacity + (t - s) / l.refill
  {
    var first := calls[from].now;
    AllowedPlusLevel(l, calls, from, upTo, key, t);
    LevelBefore(l, calls, upTo, key, t);
    Division(first - s, l.refill);
    DivisionAdds(t - first, first - s, l.refill);
  }

  // What the bucket lacks is what its own calls since some moment have spent.
  ghost predicate Owed(l: Limit, calls: seq<Call>, m: nat, n: nat, key: int, now: real)
    requires Sane(l) && m < n <= |calls|
  {
    && calls[m].key == key
    && Level(l, BucketAt(l, calls, n, key), now) + Allowed(l, calls, m, n, key) as real
       == l.capacity + (now - calls[m].now) / l.refill
  }

  lemma {:induction false} FullOrOwed(l: Limit, calls: seq<Call>, n: nat, key: int, now: real) returns (m: nat)
    requires Sane(l) && Clocked(calls) && n <= |calls| && (n > 0 ==> calls[n - 1].now <= now)
    ensures Level(l, BucketAt(l, calls, n, key), now) == l.capacity || (m < n && Owed(l, calls, m, n, key, now))
  {
    m := 0;
    if n > 0 {
      var last := calls[n - 1];
      if last.key != key {
        m := FullOrOwed(l, calls, n - 1, key, now);
      } else {
        m := FullOrOwed(l, calls, n - 1, key, last.now);
        if Level(l, BucketAt(l, calls, n - 1, key), last.now) == l.capacity {
          m := n - 1;
          assert Allowed(l, calls, n - 1, n - 1, key) == 0;
          assert (last.now - last.now) / l.refill == 0.0;
        }
        SpendingOwes(l, calls, m, n, key, now);
      }
    }
  }

  lemma SpendingOwes(l: Limit, calls: seq<Call>, m: nat, n: nat, key: int, now: real)
    requires Sane(l) && Clocked(calls) && m < n <= |calls| && calls[n - 1].key == key && calls[n - 1].now <= now
    requires calls[m].key == key
    requires Level(l, BucketAt(l, calls, n - 1, key), calls[n - 1].now) + Allowed(l, calls, m, n - 1, key) as real
             == l.capacity + (calls[n - 1].now - calls[m].now) / l.refill
    ensures Level(l, BucketAt(l, calls, n, key), now) == l.capacity || Owed(l, calls, m, n, key, now)
  {
    var last, b := calls[n - 1].now, BucketAt(l, calls, n - 1, key);
    LevelBefore(l, calls, n - 1, key, last);
    SpendingOne(l, b, last);
    DivisionAdds(last - calls[m].now, now - last, l.refill);
  }

  // The exact rule: a call is allowed exactly when, counted from every earlier call of its
  // key, one more stays within the capacity plus one call per refill time. So a fresh key
  // gets its whole burst, and nothing is refused that the bound leaves room for.
  lemma AllowedIff(l: Limit, calls: seq<Call>, n: nat, key: int, now: real)
    requires Sane(l) && Clocked(calls) && n <= |calls| && (n > 0 ==> calls[n - 1].now <= now)
    ensures Allows(l, BucketAt(l, calls, n, key), now) <==>
            forall m: nat :: m < n && calls[m].key == key ==>
              Allowed(l, calls, m, n, key) as real + 1.0 <= l.capacity + (now - calls[m].now) / l.refill
  {
    if Allows(l, BucketAt(l, calls, n, key), now) {
      forall m: nat | m < n && calls[m].key == key
        ensures Allowed(l, calls, m, n, key) as real + 1.0 <= l.capacity + (now - calls[m].now) / l.refill
      {
        AllowedPlusLevel(l, calls, m, n, key, now);
      }
    } else {
      var m := FullOrOwed(l, calls, n, key, now);
      assert m < n && Owed(l, calls, m, n, key, now);
    }
  }

  // -- Independence and progress ------------------------------------------------------

  function OnlyKey(calls: seq<Call>, n: nat, key: int): seq<Call>
    requires n <= |calls|
  {
    if n == 0 then []
    else OnlyKey(calls, n - 1, key) + if calls[n - 1].key == key then [calls[n - 1]] else []
  }

  lemma {:induction false} BucketPrefix(l: Limit, a: seq<Call>, b: seq<Call>, n: nat, key: int)
    requires l.refill > 0.0 && n <= |a| <= |b| && forall i :: 0 <= i < n ==> a[i] == b[i]
    ensures BucketAt(l, a, n, key) == BucketAt(l, b, n, key)
  {
    if n > 0 {
      BucketPrefix(l, a, b, n - 1, key);
    }
  }

  // Calls of other keys have no effect: a key's bucket is what its own calls alone
  // would have left.
  lemma {:induction false} OtherKeysAreIrrelevant(l: Limit, calls: seq<Call>, n: nat, key: int)
    requires l.refill > 0.0 && n <= |calls|
    ensures BucketAt(l, calls, n, key) == BucketAt(l, OnlyKey(calls, n, key), |OnlyKey(calls, n, key)|, key)
  {
    if n > 0 {
      OtherKeysAreIrrelevant(l, calls, n - 1, key);
      var before, own := OnlyKey(calls, n - 1, key), OnlyKey(calls, n, key);
      if calls[n - 1].key == key {
        BucketPrefix(l, before, own, |before|, key);
      } else {
        assert own == before;
      }
    }
  }

  // A call made a whole refill time after the key's last one is always allowed.
  lemma PatientCallsAreAllowed(l: Limit, calls: seq<Call>, n: nat, key: int, now: real)
    requires Sane(l) && Clocked(calls) && n <= |calls|
    requires forall i :: 0 <= i < n && calls[i].key == key ==> now - calls[i].now >= l.refill
    ensures Allows(l, BucketAt(l, calls, n, key), now)
  {
    TokensInRange(l, calls, n, key);
    var b := BucketAt(l, calls, n, key);
    if b.Some? {
      LastCallTime(l, calls, n, key);
      WholeRefill(now - b.value.at, l.refill);
      ThenAllowed(l, b.value, now);
    }
  }

  lemma WholeRefill(a: real, c: real)
    requires a >= c > 0.0
    ensures a / c >= 1.0
  {
  }

  lemma ThenAllowed(l: Limit, b: Bucket, now: real)
    requires Sane(l) && b.tokens >= 0.0 && (now - b.at) / l.refill >= 1.0
    ensures Allows(l, Some(b), now)
  {
  }

  lemma {:induction false} LastCallTime(l: Limit, calls: seq<Call>, n: nat, key: int)
    requires l.refill > 0.0 && n <= |calls| && BucketAt(l, calls, n, key).Some?
    ensures exists i :: 0 <= i < n && calls[i].key == key && calls[i].now == BucketAt(l, calls, n, key).value.at
  {
    if calls[n - 1].key != key {
      LastCallTime(l, calls, n - 1, key);
    } else {
      assert calls[n - 1].now == BucketAt(l, calls, n, key).value.at;
    }
  }

  // -- The limiter ------------------------------------------------------------------

  class RateLimiter {
    const limit: Limit
    var buckets: map<int, Bucket>

    constructor (capacity: real, refill: real)
      requires refill > 0.0
      ensures limit == Limit(capacity, refill) && forall key :: BucketOf(key).None?
    {
      limit := Limit(capacity, refill);
      buckets := map[];
    }

    function BucketOf(key: int): Option<Bucket>
      reads this
    {
      if key in buckets then Some(buckets[key]) else None
    }

    method Allow(key: int, now: real) returns (allowed: bool)
      requires limit.refill > 0.0
      modifies this
      ensures allowed == Allows(limit, old(BucketOf(key)), now)
      ensures forall k :: BucketOf(k) == if k == key then Some(After(limit, old(BucketOf(key)), now)) else old(BucketOf(k))
    {
      var tokens, updatedAt := limit.capacity, now;
      if key in buckets {
        tokens, updatedAt := buckets[key].tokens, buckets[key].at;
      }
      assert (now - now) / limit.refill == 0.0;
      tokens := Min(limit.capacity, tokens + (now - updatedAt) / limit.refill);
      if tokens < 1.0 {
        buckets := buckets[key := Bucket(tokens, now)];
        return false;
      }
      buckets := buckets[key := Bucket(tokens - 1.0, now)];
      allowed := true;
    }
  }
}
