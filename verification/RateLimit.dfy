/** A token bucket per key: `limit` calls a minute, with bursts of up to `limit`. */
module RateLimit {
  import opened Common

  datatype Bucket = Bucket(tokens: real, at: real)

  // What time earns: limit tokens in a minute.
  function Earned(limit: int, elapsed: real): real { elapsed * (limit as real / 60.0) }

  // What a key may draw on now. A key not seen before starts full.
  function Refilled(b: Option<Bucket>, limit: int, now: real): real {
    match b
    case None => limit as real
    case Some(b) =>
      var tokens := b.tokens + Earned(limit, now - b.at);
      if tokens < limit as real then tokens else limit as real
  }

  predicate Allowed(b: Option<Bucket>, limit: int, now: real) { Refilled(b, limit, now) >= 1.0 }

  function Drawn(b: Option<Bucket>, limit: int, now: real): Bucket {
    Bucket(Refilled(b, limit, now) - (if Allowed(b, limit, now) then 1.0 else 0.0), now)
  }

  class RateLimiter {
    var buckets: map<string, Bucket>

    constructor ()
      ensures buckets == map[]
    {
      buckets := map[];
    }

    method Allow(key: string, limit: int, now: real) returns (ok: bool)
      modifies this
      ensures ok == Allowed(Get(old(buckets), key), limit, now)
      ensures buckets == old(buckets)[key := Drawn(Get(old(buckets), key), limit, now)]
    {
      EarnsNothing(limit);
      var b := if key in buckets then buckets[key] else Bucket(limit as real, now);
      var tokens := b.tokens + Earned(limit, now - b.at);
      b := Bucket(if tokens < limit as real then tokens else limit as real, now);
      ok := b.tokens >= 1.0;
      if ok {
        b := b.(tokens := b.tokens - 1.0);
      }
      buckets := buckets[key := b];
    }
  }

  lemma EarnsNothing(limit: int)
    ensures Earned(limit, 0.0) == 0.0
  {
  }

  // --- Runs ------------------------------------------------------------------

  datatype Call = Call(key: string, limit: int, now: real)

  function After(calls: seq<Call>, n: nat): map<string, Bucket>
    requires n <= |calls|
  {
    if n == 0 then map[]
    else
      var before, c := After(calls, n - 1), calls[n - 1];
      before[c.key := Drawn(Get(before, c.key), c.limit, c.now)]
  }

  predicate Granted(calls: seq<Call>, i: nat)
    requires i < |calls|
  {
    Allowed(Get(After(calls, i), calls[i].key), calls[i].limit, calls[i].now)
  }

  // The calls of a key that were allowed, among calls i to n - 1.
  function Grants(calls: seq<Call>, key: string, i: nat, n: nat): (g: nat)
    requires i <= n <= |calls|
    ensures g <= n - i
  {
    if i == n then 0
    else Grants(calls, key, i, n - 1) + if calls[n - 1].key == key && Granted(calls, n - 1) then 1 else 0
  }

  ghost predicate Monotonic(calls: seq<Call>) { forall a, b | 0 <= a <= b < |calls| :: calls[a].now <= calls[b].now }

  ghost predicate FixedLimit(calls: seq<Call>, key: string, limit: nat) {
    forall c <- calls | c.key == key :: c.limit == limit
  }

  lemma EarnedAddsUp(limit: int, a: real, b: real)
    ensures Earned(limit, a) + Earned(limit, b) == Earned(limit, a + b)
  {
  }

  lemma EarnedGrows(limit: nat, a: real, b: real)
    requires a <= b
    ensures Earned(limit, a) <= Earned(limit, b)
  {
    EarnedAddsUp(limit, a, b - a);
    EarnedSign(limit, b - a);
  }

  lemma EarnedSign(limit: nat, a: real)
    requires a >= 0.0
    ensures Earned(limit, a) >= 0.0
  {
    var rate := limit as real / 60.0;
    assert rate >= 0.0;
    ProductSign(a, rate);
  }

  lemma ProductSign(a: real, b: real)
    requires a >= 0.0 && b >= 0.0
    ensures a * b >= 0.0
  {
  }

  // Tokens stay within 0..limit, and buckets are never stamped in the future.
  lemma {:induction false} TokensBounded(calls: seq<Call>, key: string, limit: nat, n: nat)
    requires n <= |calls| && Monotonic(calls) && FixedLimit(calls, key, limit)
    ensures key in After(calls, n) ==>
              var b := After(calls, n)[key];
              0.0 <= b.tokens <= limit as real && n > 0 && b.at <= calls[n - 1].now
  {
    if n > 0 {
      TokensBounded(calls, key, limit, n - 1);
      var c, before := calls[n - 1], Get(After(calls, n - 1), key);
      if c.key == key {
        assert c in calls;
        if before.Some? {
          EarnedSign(limit, c.now - before.value.at);
        }
      }
    }
  }

  lemma DrawSpends(b: Option<Bucket>, limit: nat, now: real)
    ensures Drawn(b, limit, now).tokens + (if Allowed(b, limit, now) then 1.0 else 0.0) <= limit as real
    ensures b.Some? ==>
              Drawn(b, limit, now).tokens + (if Allowed(b, limit, now) then 1.0 else 0.0)
              <= b.value.tokens + Earned(limit, now - b.value.at)
  {
  }

  // Grants are paid for: by the tokens held, at most limit, and by what time earned.
  lemma {:induction false} GrantsPaidFor(calls: seq<Call>, key: string, limit: nat, i: nat, n: nat)
    requires i <= n <= |calls| && Monotonic(calls) && FixedLimit(calls, key, limit)
    ensures Grants(calls, key, i, n) == 0
            || (key in After(calls, n) && i < n && calls[i].now <= After(calls, n)[key].at <= calls[n - 1].now
                && Grants(calls, key, i, n) as real + After(calls, n)[key].tokens
                   <= limit as real + Earned(limit, After(calls, n)[key].at - calls[i].now))
  {
    if i < n {
      GrantsPaidFor(calls, key, limit, i, n - 1);
      var c, before := calls[n - 1], Get(After(calls, n - 1), key);
      if c.key == key {
        assert c in calls;
        DrawSpends(before, limit, c.now);
        EarnedSign(limit, c.now - calls[i].now);
        if before.Some? {
          EarnedAddsUp(limit, before.value.at - calls[i].now, c.now - before.value.at);
        }
      }
    }
  }

  // Calls that span T seconds hold at most limit + T * limit / 60 grants for a key,
  // whatever the times of the calls and whatever other keys do.
  lemma WindowBounded(calls: seq<Call>, key: string, limit: nat, i: nat, n: nat, T: real)
    requires i < n <= |calls| && Monotonic(calls) && FixedLimit(calls, key, limit)
    requires calls[n - 1].now - calls[i].now <= T
    ensures Grants(calls, key, i, n) as real <= limit as real + T * (limit as real / 60.0)
  {
    GrantsPaidFor(calls, key, limit, i, n);
    TokensBounded(calls, key, limit, n);
    EarnedSign(limit, calls[n - 1].now - calls[i].now);
    EarnedGrows(limit, calls[n - 1].now - calls[i].now, T);
    if Grants(calls, key, i, n) > 0 {
      EarnedGrows(limit, After(calls, n)[key].at - calls[i].now, calls[n - 1].now - calls[i].now);
    }
  }

  // The bucket was last full at some call, and has earned and spent exactly since.
  lemma {:induction false} FullSince(calls: seq<Call>, key: string, limit: nat, n: nat) returns (i: nat)
    requires n <= |calls| && FixedLimit(calls, key, limit) && key in After(calls, n)
    ensures i < n && calls[i].key == key
    ensures After(calls, n)[key].tokens + Grants(calls, key, i, n) as real
            == limit as real + Earned(limit, After(calls, n)[key].at - calls[i].now)
  {
    var c, before := calls[n - 1], Get(After(calls, n - 1), key);
    assert c in calls;
    if c.key != key {
      i := FullSince(calls, key, limit, n - 1);
    } else if before.Some? && before.value.tokens + Earned(limit, c.now - before.value.at) < limit as real {
      i := FullSince(calls, key, limit, n - 1);
      EarnedAddsUp(limit, before.value.at - calls[i].now, c.now - before.value.at);
    } else {
      i := n - 1;
      EarnsNothing(limit);
      assert Grants(calls, key, n - 1, n - 1) == 0;
    }
  }

  // Grants among the calls from i on are within what a full bucket and time could pay.
  ghost predicate Affordable(calls: seq<Call>, key: string, limit: nat, i: nat, n: nat)
    requires i <= n < |calls|
  {
    Grants(calls, key, i, n) as real + 1.0 <= limit as real + Earned(limit, calls[n].now - calls[i].now)
  }

  lemma AffordableMeans(calls: seq<Call>, key: string, limit: nat, i: nat, n: nat)
    requires i <= n < |calls|
    ensures var T := calls[n].now - calls[i].now;
            Affordable(calls, key, limit, i, n)
            <==> Grants(calls, key, i, n) as real + 1.0 <= limit as real + T * (limit as real / 60.0)
  {
  }

  lemma LastCall(calls: seq<Call>, n: nat)
    requires n < |calls|
    ensures var key, c := calls[n].key, calls[n];
            && key in After(calls, n + 1)
            && After(calls, n + 1)[key] == Drawn(Get(After(calls, n), key), c.limit, c.now)
            && (forall i: nat | i <= n ::
                  Grants(calls, key, i, n + 1) == Grants(calls, key, i, n) + if Granted(calls, n) then 1 else 0)
  {
  }

  lemma AllowedAffords(calls: seq<Call>, limit: nat, i: nat, n: nat)
    requires i <= n < |calls| && Monotonic(calls) && FixedLimit(calls, calls[n].key, limit) && Granted(calls, n)
    ensures Affordable(calls, calls[n].key, limit, i, n)
  {
    LastCall(calls, n);
    GrantsPaidFor(calls, calls[n].key, limit, i, n + 1);
    TokensBounded(calls, calls[n].key, limit, n + 1);
  }

  // A refused call names a stretch that could not afford it.
  lemma RefusedCannotAfford(calls: seq<Call>, limit: nat, n: nat) returns (i: nat)
    requires n < |calls| && FixedLimit(calls, calls[n].key, limit) && !Granted(calls, n)
    ensures i <= n && !Affordable(calls, calls[n].key, limit, i, n)
  {
    assert calls[n] in calls;
    LastCall(calls, n);
    i := FullSince(calls, calls[n].key, limit, n + 1);
  }

  // A call is allowed if and only if allowing it keeps every stretch of calls that ends
  // with it within limit + T * limit / 60 grants: the limiter refuses nothing it need not.
  lemma AllowedExactly(calls: seq<Call>, limit: nat, n: nat)
    requires n < |calls| && Monotonic(calls) && FixedLimit(calls, calls[n].key, limit)
    ensures Granted(calls, n) <==> forall i: nat | i <= n :: Affordable(calls, calls[n].key, limit, i, n)
  {
    if Granted(calls, n) {
      forall i: nat | i <= n ensures Affordable(calls, calls[n].key, limit, i, n) {
        AllowedAffords(calls, limit, i, n);
      }
    } else {
      var i := RefusedCannotAfford(calls, limit, n);
    }
  }

  // A key that has waited for one token's worth of time is allowed.
  lemma WaitingHelps(calls: seq<Call>, limit: nat, i: nat)
    requires i < |calls| && Monotonic(calls) && FixedLimit(calls, calls[i].key, limit) && limit > 0
    requires forall j | 0 <= j < i && calls[j].key == calls[i].key ::
             calls[i].now - calls[j].now >= 60.0 / limit as real
    ensures Granted(calls, i)
  {
    var key := calls[i].key;
    assert calls[i] in calls;
    TokensBounded(calls, key, limit, i);
    LastStamp(calls, key, i);
    if key in After(calls, i) {
      EarnedGrows(limit, 60.0 / limit as real, calls[i].now - After(calls, i)[key].at);
      OneToken(limit);
    }
  }

  lemma OneToken(limit: nat)
    requires limit > 0
    ensures Earned(limit, 60.0 / limit as real) == 1.0
  {
    var l := limit as real;
    assert l > 0.0;
    assert (60.0 / l) * (l / 60.0) == 1.0;
  }

  // A bucket is stamped by a call of its key.
  lemma {:induction false} LastStamp(calls: seq<Call>, key: string, n: nat)
    requires n <= |calls|
    ensures key in After(calls, n) ==>
              exists j :: 0 <= j < n && calls[j].key == key && calls[j].now == After(calls, n)[key].at
  {
    if n > 0 {
      LastStamp(calls, key, n - 1);
      if key in After(calls, n) && calls[n - 1].key != key {
        assert After(calls, n)[key] == After(calls, n - 1)[key];
        var j :| 0 <= j < n - 1 && calls[j].key == key && calls[j].now == After(calls, n - 1)[key].at;
      }
    }
  }

  // A burst on a new key: of calls at one instant exactly the first `limit` are allowed.
  lemma {:induction false} BurstIsLimit(calls: seq<Call>, key: string, limit: nat, now: real, i: nat)
    requires i < |calls| && forall c <- calls :: c == Call(key, limit, now)
    ensures Granted(calls, i) <==> i < limit
    ensures key in After(calls, i + 1)
    ensures After(calls, i + 1)[key] == Bucket(if i < limit then (limit - i - 1) as real else 0.0, now)
  {
    assert calls[i] in calls;
    if i > 0 {
      BurstIsLimit(calls, key, limit, now, i - 1);
      EarnsNothing(limit);
    }
  }

  // --- Keys do not affect each other -----------------------------------------

  function Own(calls: seq<Call>, key: string): seq<Call> {
    if calls == [] then []
    else
      var last := calls[|calls| - 1];
      Own(calls[..|calls| - 1], key) + if last.key == key then [last] else []
  }

  lemma {:induction false} AfterPrefix(calls: seq<Call>, more: seq<Call>, n: nat)
    requires n <= |calls|
    ensures After(calls + more, n) == After(calls, n)
  {
    if n > 0 {
      AfterPrefix(calls, more, n - 1);
    }
  }

  // A key's bucket, and with it every later verdict on the key, is what it would be had
  // no other key ever called.
  lemma {:induction false} KeysIndependent(calls: seq<Call>, key: string)
    ensures Get(After(calls, |calls|), key) == Get(After(Own(calls, key), |Own(calls, key)|), key)
  {
    if calls != [] {
      var front, last := calls[..|calls| - 1], calls[|calls| - 1];
      KeysIndependent(front, key);
      assert calls == front + [last];
      AfterPrefix(front, [last], |front|);
      AfterPrefix(Own(front, key), [last], |Own(front, key)|);
      if last.key != key {
        assert Own(calls, key) == Own(front, key);
      }
    }
  }
}
