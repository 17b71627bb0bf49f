/** The token bucket in front of the paged endpoint; times are in milliseconds. */
module RateLimit {
  const MIN_WAIT_MS := 5.0

  datatype Bucket = Bucket(capacity: real, ratePerSec: real, tokens: real, last: real)

  function Min(x: real, y: real): real { if x <= y then x else y }

  /** Tokens earned in `ms` milliseconds. */
  function Earned(rate: real, ms: real): real { ms / 1000.0 * rate }

  function Refill(b: Bucket, now: real): Bucket {
    b.(tokens := Min(b.capacity, b.tokens + Earned(b.ratePerSec, now - b.last)), last := now)
  }

  /** One attempt: a `tryAcquire`, or one turn of the loop of `acquire`. */
  function Attempt(b: Bucket, now: real): (Bucket, bool) {
    var r := Refill(b, now);
    if r.tokens >= 1.0 then (r.(tokens := r.tokens - 1.0), true) else (r, false)
  }

  class TokenBucket {
    const capacity: real
    const ratePerSec: real
    var tokens: real
    var last: real

    ghost function Current(): Bucket
      reads this
    {
      Bucket(capacity, ratePerSec, tokens, last)
    }

    constructor (capacity: real, ratePerSec: real, now: real)
      ensures Current() == Bucket(capacity, ratePerSec, capacity, now)
    {
      this.capacity, this.ratePerSec, tokens, last := capacity, ratePerSec, capacity, now;
    }

    method RefillNow(now: real)
      modifies this
      ensures Current() == Refill(old(Current()), now)
    {
      tokens := Min(capacity, tokens + Earned(ratePerSec, now - last));
      last := now;
    }

    method TryAcquire(now: real) returns (granted: bool)
      modifies this
      ensures (Current(), granted) == Attempt(old(Current()), now)
    {
      RefillNow(now);
      if tokens >= 1.0 {
        tokens := tokens - 1.0;
        return true;
      }
      return false;
    }

    /**
     * How long `acquire` sleeps after a refused attempt: until a whole token will have been earned, and
     * no longer than that unless the 5 ms floor makes it so.
     */
    method WaitMs() returns (ms: real)
      requires ratePerSec > 0.0
      ensures IsWait(Current(), ms)
    {
      ms := (1.0 - tokens) / ratePerSec * 1000.0;
      EarnedInTime(ratePerSec, 1.0 - tokens);
      if ms < MIN_WAIT_MS {
        EarnedGrows(ratePerSec, ms, MIN_WAIT_MS);
        ms := MIN_WAIT_MS;
      }
    }
  }

  /** A thousandth of the rate per millisecond. */
  lemma EarnedIsRate(rate: real, ms: real)
    ensures Earned(rate, ms) * 1000.0 == ms * rate
  {
  }

  /** What the bucket can spend at `now`: its tokens and what was earned since, capped. */
  ghost predicate CanSpend(b: Bucket, now: real, have: real) {
    var full := b.tokens + Earned(b.ratePerSec, now - b.last);
    have == if full > b.capacity then b.capacity else full
  }

  /** A grant takes exactly one token, and is given exactly when there is a whole one. */
  lemma AttemptTakesOne(b: Bucket, now: real, have: real)
    requires CanSpend(b, now, have)
    ensures var (next, granted) := Attempt(b, now);
            && (granted <==> have >= 1.0)
            && next == Bucket(b.capacity, b.ratePerSec, if granted then have - 1.0 else have, now)
  {
    hide Earned;
  }

  /** A burst is served at once: as many attempts at one time are granted as the bucket has whole tokens. */
  lemma {:induction false} BurstIsGranted(b: Bucket, now: real, n: nat)
    requires 0.0 <= b.tokens <= b.capacity && now == b.last && n as real <= b.tokens
    ensures Grants(b, seq(n, _ => now)) == n
    ensures After(b, seq(n, _ => now)) == b.(tokens := b.tokens - n as real)
  {
    if n > 0 {
      BurstIsGranted(b, now, n - 1);
      assert seq(n, _ => now)[..n - 1] == seq(n - 1, _ => now);
      var mid := b.(tokens := b.tokens - (n - 1) as real);
      NothingEarned(b.ratePerSec);
      AttemptTakesOne(mid, now, mid.tokens);
    }
  }

  lemma NothingEarned(rate: real)
    ensures Earned(rate, 0.0) == 0.0
  {
  }

  /** At no attempt does the bucket run over its capacity. */
  ghost predicate NeverFull(b: Bucket, times: seq<real>) {
    times == [] ||
    var n := |times| - 1;
    var before := After(b, times[..n]);
    NeverFull(b, times[..n]) && before.tokens + Earned(before.ratePerSec, times[n] - before.last) <= before.capacity
  }

  lemma AttemptAccounts(b: Bucket, now: real)
    requires b.tokens + Earned(b.ratePerSec, now - b.last) <= b.capacity
    ensures var (next, granted) := Attempt(b, now);
            && next.ratePerSec == b.ratePerSec && next.last == now
            && next.tokens + (if granted then 1.0 else 0.0) == b.tokens + Earned(b.ratePerSec, now - b.last)
  {
    hide Earned;
  }

  /**
   * No token is lost but to the cap: as long as the bucket never runs full, what is left plus what was
   * granted is what was there plus what was earned.
   */
  lemma {:induction false} NothingIsLost(b: Bucket, times: seq<real>)
    requires times != [] && NeverFull(b, times)
    ensures var e := After(b, times);
            && e.ratePerSec == b.ratePerSec && e.last == times[|times| - 1]
            && e.tokens + Grants(b, times) as real == b.tokens + Earned(b.ratePerSec, times[|times| - 1] - b.last)
  {
    hide Earned, Attempt;
    var n := |times| - 1;
    AttemptAccounts(After(b, times[..n]), times[n]);
    if n > 0 {
      NothingIsLost(b, times[..n]);
      EarnedAdds(b.ratePerSec, times[n - 1] - b.last, times[n] - times[n - 1]);
      assert times[n - 1] - b.last + (times[n] - times[n - 1]) == times[n] - b.last;
    }
  }

  ghost predicate IsWait(b: Bucket, ms: real) {
    && ms >= 5.0
    && b.tokens + Earned(b.ratePerSec, ms) >= 1.0
    && (ms > 5.0 ==> b.tokens + Earned(b.ratePerSec, ms) == 1.0)
  }

  lemma EarnedInTime(rate: real, amount: real)
    requires rate > 0.0
    ensures Earned(rate, amount / rate * 1000.0) == amount
  {
    assert amount / rate * 1000.0 / 1000.0 == amount / rate;
    assert amount / rate * rate == amount;
  }

  lemma EarnedGrows(rate: real, x: real, y: real)
    requires rate > 0.0 && x < y
    ensures Earned(rate, x) < Earned(rate, y)
  {
    assert x / 1000.0 < y / 1000.0;
    assert x / 1000.0 * rate < y / 1000.0 * rate;
  }

  predicate Sound(b: Bucket) {
    b.capacity >= 0.0 && b.ratePerSec >= 0.0 && 0.0 <= b.tokens <= b.capacity
  }

  predicate Monotone(times: seq<real>) {
    forall i, j | 0 <= i <= j < |times| :: times[i] <= times[j]
  }

  function After(b: Bucket, times: seq<real>): Bucket {
    if times == [] then b else Attempt(After(b, times[..|times| - 1]), times[|times| - 1]).0
  }

  /** Attempts granted, over any interleaving of callers given by the times of their attempts. */
  function Grants(b: Bucket, times: seq<real>): nat {
    if times == [] then 0
    else
      var n := |times| - 1;
      Grants(b, times[..n]) + (if Attempt(After(b, times[..n]), times[n]).1 then 1 else 0)
  }

  lemma EarnedAdds(rate: real, x: real, y: real)
    ensures Earned(rate, x + y) == Earned(rate, x) + Earned(rate, y)
  {
  }

  lemma EarnedNonNegative(rate: real, x: real)
    requires rate >= 0.0 && x >= 0.0
    ensures Earned(rate, x) >= 0.0
  {
  }

  /** Tokens left plus grants so far never exceed the capacity plus what was earned since the first attempt. */
  lemma {:induction false} Budget(b: Bucket, times: seq<real>)
    requires Sound(b) && times != [] && Monotone(times) && b.last <= times[0]
    ensures var e := After(b, times);
            && Sound(e) && e.capacity == b.capacity && e.ratePerSec == b.ratePerSec && e.last == times[|times| - 1]
            && e.tokens + Grants(b, times) as real <= b.capacity + Earned(b.ratePerSec, times[|times| - 1] - times[0])
  {
    hide Earned;
    var n := |times| - 1;
    if n == 0 {
      EarnedNonNegative(b.ratePerSec, times[0] - b.last);
      EarnedNonNegative(b.ratePerSec, 0.0);
      assert After(b, times[..0]) == b && Grants(b, times[..0]) == 0;
    } else {
      Budget(b, times[..n]);
      EarnedNonNegative(b.ratePerSec, times[n] - times[n - 1]);
      EarnedAdds(b.ratePerSec, times[n - 1] - times[0], times[n] - times[n - 1]);
      assert times[n - 1] - times[0] + (times[n] - times[n - 1]) == times[n] - times[0];
    }
  }

  /** In any window of any run, at most the burst capacity plus the refill of the window is granted. */
  lemma WindowBound(b: Bucket, before: seq<real>, window: seq<real>)
    requires Sound(b) && window != [] && Monotone(before + window) && (before + window)[0] >= b.last
    ensures Grants(After(b, before), window) as real
            <= b.capacity + Earned(b.ratePerSec, window[|window| - 1] - window[0])
  {
    hide Earned;
    assert forall i | 0 <= i < |window| :: window[i] == (before + window)[|before| + i];
    assert forall i | 0 <= i < |before| :: before[i] == (before + window)[i];
    if before == [] {
      Budget(b, window);
    } else {
      Budget(b, before);
      assert before[|before| - 1] <= window[0];
      Budget(After(b, before), window);
    }
  }

  /**
   * A caller that sleeps as `acquire` does is granted its next attempt exactly when the bucket can hold
   * a token, and no attempt is granted earlier unless within the 5 ms floor.
   */
  lemma WaitIsEnough(b: Bucket, ms: real)
    requires b.ratePerSec > 0.0 && IsWait(b, ms)
    ensures Attempt(b, b.last + ms).1 <==> b.capacity >= 1.0
    ensures forall now | b.last <= now < b.last + ms && ms > 5.0 :: !Attempt(b, now).1
  {
    assert b.last + ms - b.last == ms;
    forall now | b.last <= now < b.last + ms && ms > 5.0 ensures !Attempt(b, now).1 {
      EarnedGrows(b.ratePerSec, now - b.last, ms);
    }
  }
}
