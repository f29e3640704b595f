/** The per-connection token bucket of pkg/ares/transport/rate_limit.go; time is in seconds. */
module RateLimit {
  import opened Reals

  datatype Bucket = Bucket(capacity: real, rate: real, tokens: real, last: real) {
    ghost predicate Valid() { capacity > 0.0 && rate > 0.0 && 0.0 <= tokens <= capacity }
  }

  /** The tokens a stretch of time brings in. */
  function Earned(rate: real, elapsed: real): real { elapsed * rate }

  /** Tokens come back with elapsed time, up to capacity; a clock that steps back changes nothing. */
  function Refilled(b: Bucket, now: real): Bucket {
    var elapsed := now - b.last;
    if elapsed > 0.0 then b.(tokens := Min(b.tokens + Earned(b.rate, elapsed), b.capacity), last := now) else b
  }

  predicate Allows(b: Bucket, now: real) { Refilled(b, now).tokens >= 1.0 }

  function After(b: Bucket, now: real): Bucket {
    var r := Refilled(b, now);
    if r.tokens >= 1.0 then r.(tokens := r.tokens - 1.0) else r
  }

  /** A limiter is absent when limiting is switched off; an absent limiter admits everything. */
  class RateLimiter {
    const capacity: real
    const refillRate: real
    var tokens: real
    var lastTick: real

    ghost function View(): Bucket
      reads this
    {
      Bucket(capacity, refillRate, tokens, lastTick)
    }

    constructor (rate: real, burst: real, now: real)
      ensures View() == Bucket(burst, rate, burst, now)
    {
      capacity, refillRate, tokens, lastTick := burst, rate, burst, now;
    }

    method Allow(now: real) returns (ok: bool)
      modifies this
      ensures View() == After(old(View()), now)
      ensures ok <==> Allows(old(View()), now)
    {
      var elapsed := now - lastTick;
      if elapsed > 0.0 {
        tokens := tokens + elapsed * refillRate;
        if tokens > capacity { tokens := capacity; }
        lastTick := now;
      }
      if tokens >= 1.0 {
        tokens := tokens - 1.0;
        return true;
      }
      return false;
    }
  }

  method NewRateLimiter(rate: real, burst: real, now: real) returns (r: RateLimiter?)
    ensures r == null <==> rate <= 0.0 || burst <= 0.0
    ensures r != null ==> fresh(r) && r.View() == Bucket(burst, rate, burst, now) && r.View().Valid()
  {
    if rate <= 0.0 || burst <= 0.0 { return null; }
    r := new RateLimiter(rate, burst, now);
  }

  method AllowOrDisabled(rl: RateLimiter?, now: real) returns (ok: bool)
    modifies rl
    ensures rl == null ==> ok
    ensures rl != null ==> rl.View() == After(old(rl.View()), now) && (ok <==> Allows(old(rl.View()), now))
  {
    if rl == null { return true; }
    ok := rl.Allow(now);
  }

  // ---- runs -------------------------------------------------------------------

  function Run(b: Bucket, times: seq<real>): Bucket {
    if times == [] then b else After(Run(b, times[..|times| - 1]), times[|times| - 1])
  }

  /** How many of the calls were let through. */
  function Allowed(b: Bucket, times: seq<real>): nat {
    if times == [] then 0 else
      var n := |times| - 1;
      Allowed(b, times[..n]) + (if Allows(Run(b, times[..n]), times[n]) then 1 else 0)
  }

  /** The latest time seen, starting from t. */
  function Latest(t: real, times: seq<real>): real {
    if times == [] then t else
      var m := Latest(t, times[..|times| - 1]);
      if times[|times| - 1] > m then times[|times| - 1] else m
  }

  lemma EarnedMore(rate: real, d: real)
    requires rate > 0.0 && d > 0.0
    ensures Earned(rate, d) > 0.0
  {}

  lemma EarnedAdds(rate: real, d: real, e: real)
    ensures Earned(rate, d) + Earned(rate, e) == Earned(rate, d + e)
  {}

  lemma EarnedNothing(rate: real)
    ensures Earned(rate, 0.0) == 0.0
  {}

  lemma RefillGains(b: Bucket, now: real)
    requires b.Valid()
    ensures var r := Refilled(b, now);
      r.Valid() && r.capacity == b.capacity && r.rate == b.rate
      && b.tokens <= r.tokens <= b.tokens + Earned(b.rate, r.last - b.last)
      && r.last == (if now > b.last then now else b.last)
  {
    EarnedNothing(b.rate);
    if now > b.last { EarnedMore(b.rate, now - b.last); } else { assert Refilled(b, now) == b; }
  }

  lemma StepPays(b: Bucket, now: real)
    requires b.Valid()
    ensures var c := After(b, now);
      c.Valid() && c.capacity == b.capacity && c.rate == b.rate
      && c.tokens + (if Allows(b, now) then 1.0 else 0.0) <= b.tokens + Earned(b.rate, c.last - b.last)
      && c.last == (if now > b.last then now else b.last)
  {
    RefillGains(b, now);
  }

  /** Tokens are paid for by time: what is left plus what was let through never exceeds what came in. */
  lemma {:induction false} TokensAreConserved(b: Bucket, times: seq<real>)
    requires b.Valid()
    ensures var c := Run(b, times);
      && c.Valid() && c.capacity == b.capacity && c.rate == b.rate && c.last == Latest(b.last, times)
      && c.tokens + Allowed(b, times) as real <= b.tokens + Earned(b.rate, c.last - b.last)
  {
    if times == [] { EarnedNothing(b.rate); assert b.last - b.last == 0.0; return; }
    var n := |times| - 1;
    var c := Run(b, times[..n]);
    TokensAreConserved(b, times[..n]);
    StepPays(c, times[n]);
    EarnedAdds(b.rate, c.last - b.last, After(c, times[n]).last - c.last);
  }

  /**
   * In any stretch of calls, even with a clock that steps backwards, at most
   * capacity + rate * (advance of the latest time seen) are let through.
   */
  lemma BurstIsBounded(b: Bucket, before: seq<real>, times: seq<real>)
    requires b.Valid()
    ensures var c := Run(b, before);
      Allowed(c, times) as real <= b.capacity + Earned(b.rate, Latest(c.last, times) - Latest(b.last, before))
  {
    TokensAreConserved(b, before);
    TokensAreConserved(Run(b, before), times);
  }

  /** Calls in order, each at least 1/rate after the one before, the first not before t. */
  ghost predicate Spaced(t: real, rate: real, times: seq<real>) {
    && (times != [] ==> times[0] >= t)
    && forall i :: 0 < i < |times| ==> times[i] > times[i - 1] && Earned(rate, times[i] - times[i - 1]) >= 1.0
  }

  /** A bucket that is full, or has had time for a whole token, serves a call that is not in its past. */
  lemma ServedWhenDue(c: Bucket, now: real)
    requires c.Valid() && c.capacity >= 1.0
    requires (c.tokens == c.capacity && now >= c.last) || (now > c.last && Earned(c.rate, now - c.last) >= 1.0)
    ensures Allows(c, now) && After(c, now).last == now
  {
    RefillGains(c, now);
  }

  lemma {:induction false} SteadySenderServed(b: Bucket, times: seq<real>)
    requires b.Valid() && b.tokens == b.capacity >= 1.0 && Spaced(b.last, b.rate, times) && times != []
    ensures Allowed(b, times) == |times| && Run(b, times).last == times[|times| - 1]
  {
    var n := |times| - 1;
    if n == 0 {
      assert times[..0] == [];
      ServedWhenDue(b, times[0]);
    } else {
      SteadySenderServed(b, times[..n]);
      TokensAreConserved(b, times[..n]);
      assert times[n] > times[n - 1] && Earned(b.rate, times[n] - times[n - 1]) >= 1.0;
      ServedWhenDue(Run(b, times[..n]), times[n]);
    }
  }

  lemma {:induction false} SmallBucketStarves(b: Bucket, times: seq<real>)
    requires b.Valid() && b.capacity < 1.0
    ensures Allowed(b, times) == 0
  {
    if times == [] { return; }
    var n := |times| - 1;
    SmallBucketStarves(b, times[..n]);
    TokensAreConserved(b, times[..n]);
    RefillGains(Run(b, times[..n]), times[n]);
  }

  /** A sender at or below the rate, starting from a full bucket, is never refused exactly when a whole token fits. */
  lemma NeverRefusedIff(b: Bucket, times: seq<real>)
    requires b.Valid() && b.tokens == b.capacity && Spaced(b.last, b.rate, times) && times != []
    ensures Allowed(b, times) == |times| <==> b.capacity >= 1.0
  {
    if b.capacity >= 1.0 { SteadySenderServed(b, times); } else { SmallBucketStarves(b, times); }
  }

  // ---- a burst ------------------------------------------------------------------

  /** n calls at one instant. */
  function AtOnce(now: real, n: nat): seq<real> { seq(n, _ => now) }

  /** Each call of a burst takes one token, until less than one is left. */
  lemma {:induction false} BurstDrains(b: Bucket, now: real, n: nat)
    requires b.Valid() && b.tokens == b.capacity && now >= b.last
    ensures var r := Run(b, AtOnce(now, n));
      && r.Valid() && r.capacity == b.capacity && r.rate == b.rate && r.last == (if n == 0 then b.last else now)
      && Allowed(b, AtOnce(now, n)) == (if n <= b.capacity.Floor then n else b.capacity.Floor)
      && r.tokens == b.capacity - Allowed(b, AtOnce(now, n)) as real
  {
    if n == 0 { return; }
    BurstDrains(b, now, n - 1);
    assert AtOnce(now, n)[..n - 1] == AtOnce(now, n - 1);
    var c := Run(b, AtOnce(now, n - 1));
    StepPays(c, now);
    NoRefillNow(c, now);
  }

  /** A bucket that is full, or was last seen now, gains nothing now. */
  lemma NoRefillNow(c: Bucket, now: real)
    requires c.Valid() && now >= c.last && (c.tokens == c.capacity || now == c.last)
    ensures Refilled(c, now).tokens == c.tokens
  {
    if now > c.last { EarnedMore(c.rate, now - c.last); }
  }

  /** A full bucket lets through exactly the whole tokens it holds, however many calls come at once. */
  lemma BurstIsExact(b: Bucket, now: real, n: nat)
    requires b.Valid() && b.tokens == b.capacity && now >= b.last
    ensures Allowed(b, AtOnce(now, n)) == if n <= b.capacity.Floor then n else b.capacity.Floor
  {
    BurstDrains(b, now, n);
  }
}
