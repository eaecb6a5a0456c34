/**
 The gateway's token bucket (ohttp-gateway/ratelimit.go). The lock serialises the calls and the
 clock is monotone, so a run is a sequence of call times that does not decrease. Seconds and tokens
 are reals where the program has floats.
 */
module RateLimiter {
  datatype Bucket = Bucket(tokens: real, maxTokens: real, refillPerSec: real, last: real)

  function Min(a: real, b: real): real {
    if a > b then b else a
  }

  /** A full bucket of one minute's worth of tokens. */
  function Full(qpm: int, now: real): Bucket {
    Bucket(qpm as real, qpm as real, qpm as real / 60.0, now)
  }

  function Earned(elapsed: real, refillPerSec: real): real {
    elapsed * refillPerSec
  }

  /** The tokens a call finds. */
  function Refilled(b: Bucket, now: real): real {
    Min(b.tokens + Earned(now - b.last, b.refillPerSec), b.maxTokens)
  }

  predicate Admits(b: Bucket, now: real) {
    Refilled(b, now) >= 1.0
  }

  function After(b: Bucket, now: real): Bucket {
    b.(tokens := Refilled(b, now) - if Admits(b, now) then 1.0 else 0.0, last := now)
  }

  /** `retryAfterSeconds` of a limiter that is not nil. */
  function RetryHint(b: Bucket): int {
    if b.refillPerSec <= 0.0 then 1
    else
      var secs := (1.0 / b.refillPerSec + 0.999).Floor;
      if secs < 1 then 1 else secs
  }

  // ----- The object -----

  class GlobalRateLimiter {
    var tokens: real
    const maxTokens: real
    const refillPerSec: real
    var last: real

    ghost function View(): Bucket
      reads this
    {
      Bucket(tokens, maxTokens, refillPerSec, last)
    }

    constructor (qpm: int, now: real)
      requires qpm > 0
      ensures View() == Full(qpm, now)
    {
      tokens, maxTokens, refillPerSec, last := qpm as real, qpm as real, qpm as real / 60.0, now;
    }

    method Allow(now: real) returns (ok: bool)
      modifies this
      ensures ok == Admits(old(View()), now) && View() == After(old(View()), now)
    {
      var elapsed := now - last;
      last := now;
      tokens := tokens + Earned(elapsed, refillPerSec);
      if tokens > maxTokens { tokens := maxTokens; }
      if tokens >= 1.0 {
        tokens := tokens - 1.0;
        return true;
      }
      return false;
    }
  }

  /** `newGlobalRateLimiter`: no limiter unless the rate is positive. */
  method NewGlobalRateLimiter(qpm: int, now: real) returns (l: GlobalRateLimiter?)
    ensures l == null <==> qpm <= 0
    ensures l != null ==> fresh(l) && l.View() == Full(qpm, now)
  {
    if qpm <= 0 { return null; }
    l := new GlobalRateLimiter(qpm, now);
  }

  /** `allow` on a limiter that may be nil. */
  method AllowAny(l: GlobalRateLimiter?, now: real) returns (ok: bool)
    modifies l
    ensures l == null ==> ok
    ensures l != null ==> ok == Admits(old(l.View()), now) && l.View() == After(old(l.View()), now)
  {
    if l == null { return true; }
    ok := l.Allow(now);
  }

  /** `retryAfterSeconds` on a limiter that may be nil. */
  method RetryAfterSeconds(l: GlobalRateLimiter?) returns (secs: int)
    ensures l == null ==> secs == 1
    ensures l != null ==> secs == RetryHint(l.View())
  {
    if l == null || l.refillPerSec <= 0.0 { return 1; }
    secs := (1.0 / l.refillPerSec + 0.999).Floor;
    if secs < 1 { secs := 1; }
  }

  // ----- Runs -----

  ghost predicate Monotone(start: real, times: seq<real>) {
    && (forall i :: 0 <= i < |times| ==> start <= times[i])
    && forall i, j :: 0 <= i <= j < |times| ==> times[i] <= times[j]
  }

  /** The bucket before call `n` of a run. */
  ghost function At(qpm: int, start: real, times: seq<real>, n: nat): Bucket
    requires n <= |times|
  {
    if n == 0 then Full(qpm, start) else After(At(qpm, start, times, n - 1), times[n - 1])
  }

  /** Is call `n` allowed? */
  ghost predicate Allowed(qpm: int, start: real, times: seq<real>, n: nat)
    requires n < |times|
  {
    Admits(At(qpm, start, times, n), times[n])
  }

  /** How many of the calls from `i` up to but not including `j` are allowed. */
  ghost function Count(qpm: int, start: real, times: seq<real>, i: nat, j: nat): nat
    requires i <= j <= |times|
  {
    if i == j then 0
    else Count(qpm, start, times, i, j - 1) + if Allowed(qpm, start, times, j - 1) then 1 else 0
  }

  /** Tokens that the rate yields by time `t`. */
  function Credit(qpm: int, t: real): real {
    qpm as real * t / 60.0
  }

  /** What the rate permits from time `a` to time `b`: a full bucket and the refill. */
  function Budget(qpm: int, a: real, b: real): real {
    qpm as real + qpm as real * (b - a) / 60.0
  }

  /** What a span earns is the credit at its end less the credit at its start. */
  lemma {:induction false} CreditOfSpan(qpm: int, rate: real, a: real, b: real)
    requires rate == qpm as real / 60.0
    ensures Earned(b - a, rate) == Credit(qpm, b) - Credit(qpm, a)
    ensures Budget(qpm, a, b) == qpm as real + (Credit(qpm, b) - Credit(qpm, a))
    ensures qpm > 0 && a <= b ==> Credit(qpm, a) <= Credit(qpm, b)
  {
    var q := qpm as real;
    assert (b - a) * (q / 60.0) == q * b / 60.0 - q * a / 60.0;
    assert q * (b - a) == q * b - q * a;
    if qpm > 0 && a < b { Scale(a, b, q); }
  }

  // ----- The bucket over credits -----

  /** The tokens that call `n` finds, when the credit at each call is known. */
  ghost function Found(max: real, credits: seq<real>, n: nat): real
    requires n < |credits|
    decreases n, 0
  {
    if n == 0 then max
    else Min(Found(max, credits, n - 1) - Spent(max, credits, n - 1) + (credits[n] - credits[n - 1]), max)
  }

  ghost function Spent(max: real, credits: seq<real>, n: nat): real
    requires n < |credits|
    decreases n, 1
  {
    if Found(max, credits, n) >= 1.0 then 1.0 else 0.0
  }

  ghost function Taken(max: real, credits: seq<real>, i: nat, j: nat): real
    requires i <= j <= |credits|
  {
    if i == j then 0.0 else Taken(max, credits, i, j - 1) + Spent(max, credits, j - 1)
  }

  /**
   The tokens a call finds are the least budget left over the windows that end at it: no window
   leaves less, and some window leaves exactly that.
   */
  lemma {:induction false} FoundIsLeastLeft(max: real, credits: seq<real>, j: nat) returns (w: nat)
    requires j < |credits|
    ensures w <= j && Found(max, credits, j) == max + credits[j] - credits[w] - Taken(max, credits, w, j)
    ensures forall i: nat :: i <= j ==> Found(max, credits, j) <= max + credits[j] - credits[i] - Taken(max, credits, i, j)
  {
    w := j;
    if j > 0 {
      var v := FoundIsLeastLeft(max, credits, j - 1);
      if Found(max, credits, j) != max { w := v; }
      forall i: nat | i < j
        ensures Found(max, credits, j) <= max + credits[j] - credits[i] - Taken(max, credits, i, j)
      {
        assert Found(max, credits, j - 1) <= max + credits[j - 1] - credits[i] - Taken(max, credits, i, j - 1);
      }
    }
  }

  // ----- The run is the bucket over credits -----

  ghost function Credits(qpm: int, times: seq<real>): (c: seq<real>)
    ensures |c| == |times| && forall i :: 0 <= i < |times| ==> c[i] == Credit(qpm, times[i])
  {
    seq(|times|, i requires 0 <= i < |times| => Credit(qpm, times[i]))
  }

  lemma {:induction false} Shape(qpm: int, start: real, times: seq<real>, n: nat)
    requires n <= |times|
    ensures var b := At(qpm, start, times, n);
            b.maxTokens == qpm as real && b.refillPerSec == qpm as real / 60.0 && b.last == if n == 0 then start else times[n - 1]
  {
    if n > 0 { Shape(qpm, start, times, n - 1); }
  }

  /** One call in terms of credit. */
  lemma {:induction false} RefilledByCredit(b: Bucket, qpm: int, now: real)
    requires b.maxTokens == qpm as real && b.refillPerSec == qpm as real / 60.0
    ensures Refilled(b, now) == Min(b.tokens + (Credit(qpm, now) - Credit(qpm, b.last)), qpm as real)
  {
    CreditOfSpan(qpm, b.refillPerSec, b.last, now);
  }

  lemma {:induction false} FirstByCredit(qpm: int, start: real, now: real)
    requires qpm > 0 && start <= now
    ensures Refilled(Full(qpm, start), now) == qpm as real
  {
    RefilledByCredit(Full(qpm, start), qpm, now);
    CreditOfSpan(qpm, qpm as real / 60.0, start, now);
  }

  /** A call that spends, then the refill of the next one. */
  lemma {:induction false} NextByCredit(b: Bucket, qpm: int, now: real, next: real)
    requires b.maxTokens == qpm as real && b.refillPerSec == qpm as real / 60.0
    ensures Refilled(After(b, now), next) ==
            Min(Refilled(b, now) - (if Refilled(b, now) >= 1.0 then 1.0 else 0.0) + (Credit(qpm, next) - Credit(qpm, now)), qpm as real)
  {
    RefilledByCredit(After(b, now), qpm, next);
  }

  lemma {:induction false} RunByCredit(qpm: int, start: real, times: seq<real>, n: nat)
    requires qpm > 0 && Monotone(start, times) && n < |times|
    ensures Refilled(At(qpm, start, times, n), times[n]) == Found(qpm as real, Credits(qpm, times), n)
  {
    if n == 0 {
      FirstByCredit(qpm, start, times[0]);
    } else {
      var c := Credits(qpm, times);
      Shape(qpm, start, times, n - 1);
      RunByCredit(qpm, start, times, n - 1);
      NextByCredit(At(qpm, start, times, n - 1), qpm, times[n - 1], times[n]);
      assert c[n] == Credit(qpm, times[n]) && c[n - 1] == Credit(qpm, times[n - 1]);
    }
  }

  lemma {:induction false} CountByCredit(qpm: int, start: real, times: seq<real>, i: nat, j: nat)
    requires qpm > 0 && Monotone(start, times) && i <= j <= |times|
    ensures Count(qpm, start, times, i, j) as real == Taken(qpm as real, Credits(qpm, times), i, j)
    decreases j - i
  {
    if i < j {
      CountByCredit(qpm, start, times, i, j - 1);
      RunByCredit(qpm, start, times, j - 1);
    }
  }

  // ----- Theorems -----

  /** With call `j` allowed, the window from call `i` stays within what the rate permits over its span. */
  ghost predicate WithinBudget(qpm: int, start: real, times: seq<real>, i: nat, j: nat)
    requires i <= j < |times|
  {
    Count(qpm, start, times, i, j) as real + 1.0 <= Budget(qpm, times[i], times[j])
  }

  lemma {:induction false} BudgetByCredit(qpm: int, start: real, times: seq<real>, i: nat, j: nat)
    requires qpm > 0 && Monotone(start, times) && i <= j < |times|
    ensures WithinBudget(qpm, start, times, i, j) <==>
            var c := Credits(qpm, times); 1.0 <= qpm as real + c[j] - c[i] - Taken(qpm as real, c, i, j)
  {
    CountByCredit(qpm, start, times, i, j);
    CreditOfSpan(qpm, qpm as real / 60.0, times[i], times[j]);
  }

  /**
   The limiter is exact: a call is allowed if and only if, with it, no window of calls ending there
   exceeds what the rate permits over its span.
   */
  lemma {:induction false} AllowsExactlyWithinBudget(qpm: int, start: real, times: seq<real>, j: nat)
    requires qpm > 0 && Monotone(start, times) && j < |times|
    ensures Allowed(qpm, start, times, j) <==> forall i: nat :: i <= j ==> WithinBudget(qpm, start, times, i, j)
  {
    var q, c := qpm as real, Credits(qpm, times);
    RunByCredit(qpm, start, times, j);
    var w := FoundIsLeastLeft(q, c, j);
    forall i: nat | i <= j
      ensures WithinBudget(qpm, start, times, i, j) <==> 1.0 <= q + c[j] - c[i] - Taken(q, c, i, j)
    {
      BudgetByCredit(qpm, start, times, i, j);
    }
    assert WithinBudget(qpm, start, times, w, j) <==> Found(q, c, j) >= 1.0;
  }

  /** The rate bound: in any run, the calls allowed over a span of T seconds number at most qpm + qpm * T / 60. */
  lemma {:induction false} RateBound(qpm: int, start: real, times: seq<real>, i: nat, j: nat)
    requires qpm > 0 && Monotone(start, times) && i <= j < |times|
    ensures Count(qpm, start, times, i, j + 1) as real <= Budget(qpm, times[i], times[j])
    decreases j - i
  {
    if Allowed(qpm, start, times, j) {
      AllowsExactlyWithinBudget(qpm, start, times, j);
      assert WithinBudget(qpm, start, times, i, j);
    } else if i < j {
      RateBound(qpm, start, times, i, j - 1);
      BudgetGrows(qpm, times[i], times[j - 1], times[j]);
    } else {
      assert Count(qpm, start, times, i, j) == 0;
      assert Budget(qpm, times[i], times[i]) == qpm as real;
    }
  }

  lemma {:induction false} BudgetGrows(qpm: int, a: real, b: real, c: real)
    requires qpm > 0 && b <= c
    ensures Budget(qpm, a, b) <= Budget(qpm, a, c)
  {
    var rate := qpm as real / 60.0;
    CreditOfSpan(qpm, rate, a, b);
    CreditOfSpan(qpm, rate, a, c);
    CreditOfSpan(qpm, rate, b, c);
  }

  // ----- The retry hint -----

  /** The least whole number of seconds in which one token comes back. */
  ghost predicate CeilingOf60Over(qpm: int, secs: int) {
    secs * qpm >= 60 && (secs - 1) * qpm < 60
  }

  /** The hint is the ceiling of 60 / qpm for every positive rate. */
  lemma {:induction false} HintIsCeiling(qpm: int, now: real)
    requires qpm > 0
    ensures CeilingOf60Over(qpm, RetryHint(Full(qpm, now)))
  {
    var q := qpm as real;
    var x := 1.0 / (q / 60.0);
    assert x * q == 60.0 by {
      assert x * (q / 60.0) == 1.0;
      assert x * q == x * (q / 60.0) * 60.0;
    }
    var n := (x + 0.999).Floor;
    if qpm > 60 {
      BelowOne(x, q);
      assert n <= 1;
    } else {
      Rounding(qpm, x, n);
    }
  }

  lemma {:induction false} BelowOne(x: real, q: real)
    requires q > 60.0 && x * q == 60.0
    ensures x < 1.0
  {
    assert (x - 1.0) * q < 0.0;
  }

  /** 60 / qpm has a fractional part of at least 1 / 60 unless it is whole, so adding 0.999 rounds it up. */
  lemma {:induction false} Rounding(qpm: int, x: real, n: int)
    requires 1 <= qpm <= 60 && x * qpm as real == 60.0 && n as real <= x + 0.999 < n as real + 1.0
    ensures CeilingOf60Over(qpm, n) && n >= 1
  {
    RoundsUp(qpm, x, n);
    var q := qpm as real;
    Scale(n as real - 1.0, x, q);
    assert ((n - 1) * qpm) as real == (n as real - 1.0) * q;
    PositiveFactor(n, qpm);
  }

  lemma {:induction false} RoundsUp(qpm: int, x: real, n: int)
    requires 1 <= qpm <= 60 && x * qpm as real == 60.0 && x - 0.001 < n as real
    ensures n * qpm >= 60
  {
    var q := qpm as real;
    AlmostSixty(x, n as real, q);
    assert (n * qpm) as real == n as real * q;
    Whole(n * qpm, n as real * q, q);
  }

  lemma {:induction false} AlmostSixty(x: real, m: real, q: real)
    requires q > 0.0 && x * q == 60.0 && x - 0.001 < m
    ensures m * q > 60.0 - 0.001 * q
  {
    var d := m - x + 0.001;
    assert d * q > 0.0;
    assert d * q == m * q - x * q + 0.001 * q;
  }

  lemma {:induction false} Whole(p: int, r: real, q: real)
    requires p as real == r && r > 60.0 - 0.001 * q && q <= 60.0
    ensures p >= 60
  {
  }

  lemma {:induction false} PositiveFactor(n: int, m: int)
    requires n * m > 0 && m > 0
    ensures n > 0
  {
  }

  lemma {:induction false} Scale(a: real, b: real, q: real)
    requires a < b && q > 0.0
    ensures a * q < b * q && q * a < q * b
  {
    assert (b - a) * q > 0.0;
  }

  /** Waiting as long as the hint says, with no call in between, makes the next call succeed, in any run. */
  lemma {:induction false} WaitingHelps(qpm: int, start: real, times: seq<real>, n: nat)
    requires qpm > 0 && Monotone(start, times) && 0 < n < |times|
    requires times[n] - times[n - 1] >= RetryHint(Full(qpm, start)) as real
    ensures Allowed(qpm, start, times, n)
  {
    var c := Credits(qpm, times);
    HintIsCeiling(qpm, start);
    OneTokenBack(qpm, RetryHint(Full(qpm, start)), times[n - 1], times[n]);
    CreditsGrow(qpm, start, times);
    FoundAfterToken(qpm as real, c, n);
    RunByCredit(qpm, start, times, n);
  }

  lemma {:induction false} CreditsGrow(qpm: int, start: real, times: seq<real>)
    requires qpm > 0 && Monotone(start, times)
    ensures var c := Credits(qpm, times); forall i, j :: 0 <= i <= j < |c| ==> c[i] <= c[j]
  {
    var c := Credits(qpm, times);
    forall i, j | 0 <= i <= j < |c| ensures c[i] <= c[j] { CreditOfSpan(qpm, qpm as real / 60.0, times[i], times[j]); }
  }

  lemma {:induction false} FoundNotNegative(max: real, credits: seq<real>, n: nat)
    requires max >= 1.0 && n < |credits|
    requires forall i, j :: 0 <= i <= j < |credits| ==> credits[i] <= credits[j]
    ensures Found(max, credits, n) >= 0.0
  {
    if n > 0 { FoundNotNegative(max, credits, n - 1); }
  }

  lemma {:induction false} FoundAfterToken(max: real, credits: seq<real>, n: nat)
    requires max >= 1.0 && 0 < n < |credits| && credits[n] - credits[n - 1] >= 1.0
    requires forall i, j :: 0 <= i <= j < |credits| ==> credits[i] <= credits[j]
    ensures Found(max, credits, n) >= 1.0
  {
    FoundNotNegative(max, credits, n - 1);
  }

  lemma {:induction false} OneTokenBack(qpm: int, secs: int, a: real, b: real)
    requires qpm > 0 && secs * qpm >= 60 && b - a >= secs as real
    ensures Credit(qpm, b) - Credit(qpm, a) >= 1.0
  {
    var q, rate := qpm as real, qpm as real / 60.0;
    CreditOfSpan(qpm, rate, a, b);
    assert (secs * qpm) as real == secs as real * q;
    if b - a > secs as real { Scale(secs as real, b - a, q); }
    assert (b - a) * q >= 60.0;
    assert Earned(b - a, rate) == (b - a) * q / 60.0;
  }
}
