/** A token bucket over real-valued time. */
module RateLimiter {

  datatype Bucket = Bucket(tokens: real, last: real)

  datatype Outcome = Outcome(bucket: Bucket, granted: bool)

  function Min(x: real, y: real): real {
    if x <= y then x else y
  }

  function Refilled(b: Bucket, now: real, rate: real, capacity: real): real {
    Min(capacity, b.tokens + Earned(b.last, now, rate))
  }

  /** One call: refill for the elapsed time, then take a token if there is a whole one. */
  function Acquired(b: Bucket, now: real, rate: real, capacity: real): Outcome {
    var t := Refilled(b, now, rate, capacity);
    if t < 1.0 then Outcome(Bucket(t, now), false) else Outcome(Bucket(t - 1.0, now), true)
  }

  /** The bucket after the first `n` calls. */
  function After(b: Bucket, times: seq<real>, n: nat, rate: real, capacity: real): Bucket
    requires n <= |times|
  {
    if n == 0 then b else Acquired(After(b, times, n - 1, rate, capacity), times[n - 1], rate, capacity).bucket
  }

  predicate Granted(b: Bucket, times: seq<real>, i: nat, rate: real, capacity: real)
    requires i < |times|
  {
    Acquired(After(b, times, i, rate, capacity), times[i], rate, capacity).granted
  }

  /** How many of the calls `i`, ..., `j - 1` are granted. */
  function Grants(b: Bucket, times: seq<real>, i: nat, j: nat, rate: real, capacity: real): nat
    requires i <= j <= |times|
  {
    if i == j then 0
    else Grants(b, times, i, j - 1, rate, capacity) + if Granted(b, times, j - 1, rate, capacity) then 1 else 0
  }

  ghost predicate Forward(b: Bucket, times: seq<real>) {
    && (forall i | 0 <= i < |times| :: b.last <= times[i])
    && (forall i, j | 0 <= i < j < |times| :: times[i] <= times[j])
  }

  function Earned(from: real, to: real, rate: real): real {
    (to - from) * rate
  }

  lemma EarnedIsAdditive(x: real, y: real, z: real, rate: real)
    ensures Earned(x, x, rate) == 0.0
    ensures Earned(x, z, rate) == Earned(x, y, rate) + Earned(y, z, rate)
  {
  }

  lemma EarnedIsPositive(from: real, to: real, rate: real)
    requires from <= to && rate >= 0.0
    ensures Earned(from, to, rate) >= 0.0
  {
  }

  lemma OneCall(b: Bucket, now: real, rate: real, capacity: real)
    requires b.last <= now && rate >= 0.0 && 0.0 <= b.tokens <= capacity
    ensures var o := Acquired(b, now, rate, capacity);
            && 0.0 <= o.bucket.tokens <= capacity && o.bucket.last == now
            && o.bucket.tokens + (if o.granted then 1.0 else 0.0) <= capacity
            && o.bucket.tokens + (if o.granted then 1.0 else 0.0) <= b.tokens + Earned(b.last, now, rate)
  {
    EarnedIsPositive(b.last, now, rate);
  }

  /** Tokens stay between zero and the capacity. */
  lemma {:induction false} TokensInRange(b: Bucket, times: seq<real>, n: nat, rate: real, capacity: real)
    requires n <= |times| && Forward(b, times) && rate >= 0.0 && 0.0 <= b.tokens <= capacity
    ensures 0.0 <= After(b, times, n, rate, capacity).tokens <= capacity
    ensures After(b, times, n, rate, capacity).last == if n == 0 then b.last else times[n - 1]
  {
    if n > 0 {
      TokensInRange(b, times, n - 1, rate, capacity);
      OneCall(After(b, times, n - 1, rate, capacity), times[n - 1], rate, capacity);
    }
  }

  /** What is left after call `j` plus what was granted since call `i` fits in the budget of that window. */
  lemma {:induction false} BudgetHolds(b: Bucket, times: seq<real>, i: nat, j: nat, rate: real, capacity: real)
    requires i <= j < |times| && Forward(b, times) && rate >= 0.0 && 0.0 <= b.tokens <= capacity
    ensures After(b, times, j + 1, rate, capacity).tokens + Grants(b, times, i, j + 1, rate, capacity) as real
            <= capacity + Earned(times[i], times[j], rate)
    decreases j
  {
    TokensInRange(b, times, j, rate, capacity);
    var before := After(b, times, j, rate, capacity);
    OneCall(before, times[j], rate, capacity);
    var o := Acquired(before, times[j], rate, capacity);
    assert After(b, times, j + 1, rate, capacity) == o.bucket;
    assert Grants(b, times, i, j + 1, rate, capacity) == Grants(b, times, i, j, rate, capacity) + if o.granted then 1 else 0;
    if i == j {
      EarnedIsAdditive(times[i], times[i], times[i], rate);
    } else {
      BudgetHolds(b, times, i, j - 1, rate, capacity);
      EarnedIsAdditive(times[i], times[j - 1], times[j], rate);
    }
  }

  /** Between any two calls at most `capacity + rate * elapsed` are granted, in every run. */
  lemma GrantsBounded(b: Bucket, times: seq<real>, i: nat, j: nat, rate: real, capacity: real)
    requires i <= j < |times| && Forward(b, times) && rate >= 0.0 && 0.0 <= b.tokens <= capacity
    ensures Grants(b, times, i, j + 1, rate, capacity) as real <= capacity + Earned(times[i], times[j], rate)
  {
    BudgetHolds(b, times, i, j, rate, capacity);
    TokensInRange(b, times, j + 1, rate, capacity);
  }

  // ---- exactly which calls are granted ----

  /** What the tokens at the start, and all earned since, leave for call `j`. */
  function LeftOfStart(b: Bucket, times: seq<real>, j: nat, rate: real, capacity: real): real
    requires j < |times|
  {
    b.tokens + Earned(b.last, times[j], rate) - Grants(b, times, 0, j, rate, capacity) as real
  }

  /** What a full bucket at call `i`, and all earned since, leave for call `j`. */
  function LeftOfWindow(b: Bucket, times: seq<real>, i: nat, j: nat, rate: real, capacity: real): real
    requires i <= j < |times|
  {
    capacity + Earned(times[i], times[j], rate) - Grants(b, times, i, j, rate, capacity) as real
  }

  /** The budget of call `j` is spent in no window that ends with it. */
  ghost predicate FitsBudget(b: Bucket, times: seq<real>, j: nat, rate: real, capacity: real)
    requires j < |times|
  {
    && LeftOfStart(b, times, j, rate, capacity) >= 1.0
    && forall i: nat | i <= j :: LeftOfWindow(b, times, i, j, rate, capacity) >= 1.0
  }

  /** The tokens that call `j` finds are the least of what these windows leave; `at` is the one, or `j + 1` for the start. */
  lemma {:induction false} FindsLeast(b: Bucket, times: seq<real>, j: nat, rate: real, capacity: real) returns (at: nat)
    requires j < |times|
    ensures var t := Refilled(After(b, times, j, rate, capacity), times[j], rate, capacity);
            && t <= LeftOfStart(b, times, j, rate, capacity)
            && (forall i: nat | i <= j :: t <= LeftOfWindow(b, times, i, j, rate, capacity))
            && at <= j + 1
            && t == if at == j + 1 then LeftOfStart(b, times, j, rate, capacity) else LeftOfWindow(b, times, at, j, rate, capacity)
    decreases j
  {
    var t := Refilled(After(b, times, j, rate, capacity), times[j], rate, capacity);
    EarnedIsAdditive(times[j], times[j], times[j], rate);
    if j == 0 {
      at := if t == capacity then 0 else 1;
    } else {
      var before := FindsLeast(b, times, j - 1, rate, capacity);
      CallLeaves(b, times, j, rate, capacity);
      LaterLeft(b, times, j, rate, capacity);
      at := if t == capacity then j else if before == j then j + 1 else before;
    }
  }

  /** What call `j - 1` leaves behind. */
  lemma CallLeaves(b: Bucket, times: seq<real>, j: nat, rate: real, capacity: real)
    requires 0 < j < |times|
    ensures var found := Refilled(After(b, times, j - 1, rate, capacity), times[j - 1], rate, capacity);
            After(b, times, j, rate, capacity) ==
            Bucket(found - if Granted(b, times, j - 1, rate, capacity) then 1.0 else 0.0, times[j - 1])
  {
  }

  /** From one call to the next every window earns the time between and loses the grant. */
  lemma LaterLeft(b: Bucket, times: seq<real>, j: nat, rate: real, capacity: real)
    requires 0 < j < |times|
    ensures var gain := Earned(times[j - 1], times[j], rate) - if Granted(b, times, j - 1, rate, capacity) then 1.0 else 0.0;
            && LeftOfStart(b, times, j, rate, capacity) == LeftOfStart(b, times, j - 1, rate, capacity) + gain
            && forall i: nat | i < j ::
                 LeftOfWindow(b, times, i, j, rate, capacity) == LeftOfWindow(b, times, i, j - 1, rate, capacity) + gain
  {
    EarnedIsAdditive(b.last, times[j - 1], times[j], rate);
    forall i: nat | i < j
      ensures Earned(times[i], times[j], rate) == Earned(times[i], times[j - 1], rate) + Earned(times[j - 1], times[j], rate)
    {
      EarnedIsAdditive(times[i], times[j - 1], times[j], rate);
    }
  }

  /** A call is granted exactly when its budget is spent in no window: a refusal always has one whose budget is. */
  lemma GrantedIffFits(b: Bucket, times: seq<real>, j: nat, rate: real, capacity: real)
    requires j < |times|
    ensures Granted(b, times, j, rate, capacity) <==> FitsBudget(b, times, j, rate, capacity)
  {
    var at := FindsLeast(b, times, j, rate, capacity);
    if FitsBudget(b, times, j, rate, capacity) && at <= j {
      assert LeftOfWindow(b, times, at, j, rate, capacity) >= 1.0;
    }
  }

  lemma {:induction false} GrantsAtMostCalls(b: Bucket, times: seq<real>, i: nat, j: nat, rate: real, capacity: real)
    requires i <= j <= |times|
    ensures Grants(b, times, i, j, rate, capacity) <= j - i
    decreases j
  {
    if i < j { GrantsAtMostCalls(b, times, i, j - 1, rate, capacity); }
  }

  /** So a full bucket grants a burst of as many calls as it holds tokens. */
  lemma BurstGranted(b: Bucket, times: seq<real>, j: nat, rate: real, capacity: real)
    requires j < |times| && Forward(b, times) && rate >= 0.0 && b.tokens == capacity && (j + 1) as real <= capacity
    ensures Granted(b, times, j, rate, capacity)
  {
    EarnedIsPositive(b.last, times[j], rate);
    GrantsAtMostCalls(b, times, 0, j, rate, capacity);
    forall i: nat | i <= j ensures LeftOfWindow(b, times, i, j, rate, capacity) >= 1.0 {
      EarnedIsPositive(times[i], times[j], rate);
      GrantsAtMostCalls(b, times, i, j, rate, capacity);
    }
    GrantedIffFits(b, times, j, rate, capacity);
  }

  /** A full bucket and requests at least `1 / rate` apart: every call is granted. */
  lemma {:induction false} SpacedCallerNeverRefused(b: Bucket, times: seq<real>, n: nat, rate: real, capacity: real)
    requires n < |times| && Forward(b, times) && rate > 0.0 && capacity >= 1.0 && b.tokens == capacity
    requires forall i | 0 <= i < |times| - 1 :: times[i + 1] - times[i] >= 1.0 / rate
    ensures Granted(b, times, n, rate, capacity)
  {
    TokensInRange(b, times, n, rate, capacity);
    if n == 0 {
      EarnedIsPositive(b.last, times[0], rate);
    } else {
      assert times[n - 1 + 1] - times[n - 1] >= 1.0 / rate;
      SpacingEarnsToken(times[n - 1], times[n], rate);
    }
  }

  lemma SpacingEarnsToken(from: real, to: real, rate: real)
    requires rate > 0.0 && to - from >= 1.0 / rate
    ensures Earned(from, to, rate) >= 1.0
  {
    assert (1.0 / rate) * rate == 1.0;
    assert (to - from - 1.0 / rate) * rate >= 0.0;
  }

  class TokenBucket {
    const rate: real
    const capacity: real
    var tokens: real
    var last: real

    /** `now` is the reading of the monotonic clock. */
    constructor (rate: real, capacity: real, now: real)
      ensures this.rate == rate && this.capacity == capacity && Model() == Bucket(capacity, now)
    {
      this.rate, this.capacity, tokens, last := rate, capacity, capacity, now;
    }

    function Model(): Bucket
      reads this
    {
      Bucket(tokens, last)
    }

    /** False stands for RateLimitExceeded. */
    method Acquire(now: real) returns (granted: bool)
      modifies this
      ensures Outcome(Model(), granted) == Acquired(old(Model()), now, rate, capacity)
    {
      var elapsed := now - last;
      tokens := Min(capacity, tokens + elapsed * rate);
      last := now;
      if tokens < 1.0 {
        return false;
      }
      tokens := tokens - 1.0;
      granted := true;
    }
  }
}
