/** The HTTP client's retry loop. */
module Gateway {
  import opened Clock

  /** The outcome of one request: a response, a network-level error, or an error that is not retried. */
  datatype Outcome = Response(status: int, parses: bool) | NetworkError | OtherError

  /** One turn of the loop: whether the context is cancelled during the wait before it, the random number drawn for
      that wait, and the outcome of the request. */
  datatype Attempt = Attempt(cancelled: bool, random: Random, outcome: Outcome)

  type Random = r: real | 0.0 <= r < 1.0

  /** Retries, and the first and the longest backoff in nanoseconds. */
  datatype Client = Client(maxRetries: nat, baseBackoff: nat, maxBackoff: nat)

  const DEFAULT_CLIENT := Client(3, 1_000_000_000, 30_000_000_000)

  predicate Retryable(o: Outcome) {
    o.NetworkError? || (o.Response? && o.status >= 500)
  }

  predicate Delivers(o: Outcome) {
    o.Response? && 200 <= o.status < 300 && o.parses
  }

  function NextBackoff(c: Client, current: nat): nat {
    if current * 2 > c.maxBackoff then c.maxBackoff else current * 2
  }

  function Spread(backoff: real, random: Random): real { backoff * (0.75 + random * 0.5) }

  /** Between 75 and 125 percent of the backoff, truncated. */
  function Jittered(backoff: nat, random: Random): int { Spread(backoff as real, random).Floor }

  function Pow2(k: nat): nat { if k == 0 then 1 else 2 * Pow2(k - 1) }

  function Sum(s: seq<int>): int { if s == [] then 0 else Sum(s[..|s| - 1]) + s[|s| - 1] }

  /** The loop stops after `n` requests: the last outcome is not retried, or no retry is left, or the wait for the
      next request is cancelled. */
  predicate StopsAfter(c: Client, attempts: seq<Attempt>, n: nat)
    requires 0 < n <= |attempts|
  {
    !Retryable(attempts[n - 1].outcome) || n > c.maxRetries || (n < |attempts| && attempts[n].cancelled)
  }

  /** The unjittered wait before attempt k, counting the first request as attempt 0. */
  function Backoff(c: Client, k: nat): int { Min(c.baseBackoff * Pow2(k), c.maxBackoff) }

  lemma {:induction false} Pow2Positive(k: nat)
    ensures Pow2(k) >= 1
  {
    if k > 0 { Pow2Positive(k - 1); }
  }

  lemma ScaledByPositive(b: nat, p: int)
    requires p >= 1
    ensures b * (2 * p) == 2 * (b * p) && b * p >= 0
    ensures b * p == 0 <==> b == 0
  {
    assert b * p == b * (p - 1) + b;
    assert b * (p - 1) >= 0;
  }

  /** Doubling under the cap is the cap of the doubled. */
  lemma NextIsDoubled(c: Client, k: nat, current: nat)
    requires if k == 0 then current == c.baseBackoff else current == Backoff(c, k)
    ensures NextBackoff(c, current) == Backoff(c, k + 1)
  {
    Pow2Positive(k);
    ScaledByPositive(c.baseBackoff, Pow2(k));
    if k == 0 { assert c.baseBackoff * Pow2(0) == c.baseBackoff; }
  }

  lemma ProductGrows(b: real, x: real, d: real)
    requires b >= 0.0 && d >= 0.0
    ensures b * (x + d) >= b * x
  {
    assert b * (x + d) == b * x + b * d;
  }

  lemma SpreadBounds(b: real, random: Random)
    requires b >= 0.0
    ensures b * 0.75 <= Spread(b, random) <= b * 1.25
  {
    var x := 0.75 + random * 0.5;
    ProductGrows(b, 0.75, random * 0.5);
    ProductGrows(b, x, 1.25 - x);
  }

  lemma FloorBounds(backoff: nat, b: real, wait: real)
    requires b == backoff as real && b * 0.75 <= wait <= b * 1.25
    ensures 3 * backoff - 4 < 4 * wait.Floor <= 5 * backoff
  {
  }

  /** Jitter keeps the wait within a quarter of the backoff, up to truncation. */
  lemma JitterBounds(backoff: nat, random: Random)
    ensures 3 * backoff - 4 < 4 * Jittered(backoff, random) <= 5 * backoff
  {
    var b := backoff as real;
    SpreadBounds(b, random);
    FloorBounds(backoff, b, Spread(b, random));
  }

  /** The wait grows evenly with the random number, from three to five quarters of the backoff, up to truncation. */
  lemma JitterIsLinear(backoff: nat, random: Random)
    ensures var wait, quarters := Jittered(backoff, random), (backoff as real) * (3.0 + 2.0 * random);
            (4 * wait) as real <= quarters < (4 * wait + 4) as real
  {
    var b := backoff as real;
    ScaledByFour(b, random);
    FloorOfFourth(Spread(b, random));
  }

  lemma ScaledByFour(b: real, random: real)
    ensures b * (3.0 + 2.0 * random) == 4.0 * (b * (0.75 + random * 0.5))
  {
    assert 3.0 + 2.0 * random == 4.0 * (0.75 + random * 0.5);
    assert b * (4.0 * (0.75 + random * 0.5)) == 4.0 * (b * (0.75 + random * 0.5));
  }

  lemma FloorOfFourth(x: real)
    ensures (4 * x.Floor) as real <= 4.0 * x < (4 * x.Floor + 4) as real
  {
  }

  /** SendBatch: the requests made, the jittered waits between them, and whether the batch was delivered. */
  method SendBatch(c: Client, attempts: seq<Attempt>) returns (ok: bool, requests: nat, waits: seq<int>)
    requires |attempts| > c.maxRetries
    ensures 0 < requests <= c.maxRetries + 1 && StopsAfter(c, attempts, requests)
    ensures forall n | 0 < n < requests :: !StopsAfter(c, attempts, n)
    ensures ok <==> Delivers(attempts[requests - 1].outcome)
    ensures |waits| == requests - 1
    ensures forall k | 0 < k < requests :: waits[k - 1] == Jittered(Backoff(c, k), attempts[k].random)
  {
    var backoff := c.baseBackoff;
    var attempt := 0;
    requests, waits := 0, [];
    while attempt <= c.maxRetries
      invariant attempt <= c.maxRetries
      invariant requests == attempt && |waits| == if attempt == 0 then 0 else attempt - 1
      invariant if attempt == 0 then backoff == c.baseBackoff else backoff == Backoff(c, attempt)
      invariant forall k | 0 < k < attempt :: waits[k - 1] == Jittered(Backoff(c, k), attempts[k].random)
      invariant forall n | 0 < n < attempt :: !StopsAfter(c, attempts, n)
      invariant attempt > 0 ==> Retryable(attempts[attempt - 1].outcome)
      decreases c.maxRetries - attempt
    {
      if attempt > 0 {
        if attempts[attempt].cancelled {
          return false, requests, waits;
        }
        waits := waits + [Jittered(backoff, attempts[attempt].random)];
      }
      requests := requests + 1;
      var outcome := attempts[attempt].outcome;
      match outcome {
        case NetworkError =>
          if attempt == c.maxRetries {
            return false, requests, waits;
          }
        case OtherError =>
          return false, requests, waits;
        case Response(status, parses) =>
          if 200 <= status < 300 {
            return parses, requests, waits;
          }
          if status < 500 || attempt == c.maxRetries {
            return false, requests, waits;
          }
      }
      NextIsDoubled(c, attempt, backoff);
      backoff := NextBackoff(c, backoff);
      attempt := attempt + 1;
    }
    assert false;
  }

  /** The first outcome that is not retried. */
  function FirstFinal(attempts: seq<Attempt>): (i: nat)
    ensures i <= |attempts|
    ensures i < |attempts| ==> !Retryable(attempts[i].outcome)
    ensures forall k | 0 <= k < i :: Retryable(attempts[k].outcome)
  {
    if attempts == [] || !Retryable(attempts[0].outcome) then 0 else 1 + FirstFinal(attempts[1..])
  }

  /** The loop is proved to make this many requests. */
  predicate Stops(c: Client, attempts: seq<Attempt>, requests: nat) {
    && |attempts| > c.maxRetries && 0 < requests <= c.maxRetries + 1 && StopsAfter(c, attempts, requests)
    && forall n | 0 < n < requests :: !StopsAfter(c, attempts, n)
  }

  /** Without cancellation, the loop makes requests up to and including the first final outcome, or until the retries
      run out, and delivers if and only if that outcome is a parseable 2xx. */
  lemma RequestsWithoutCancellation(c: Client, attempts: seq<Attempt>, requests: nat)
    requires Stops(c, attempts, requests) && forall a | a in attempts :: !a.cancelled
    ensures requests == Min(FirstFinal(attempts) + 1, c.maxRetries + 1)
    ensures Delivers(attempts[requests - 1].outcome)
       <==> FirstFinal(attempts) <= c.maxRetries && Delivers(attempts[FirstFinal(attempts)].outcome)
  {
    var f := FirstFinal(attempts);
    if requests < |attempts| { assert attempts[requests] in attempts; }
    if f + 1 < requests {
      assert StopsAfter(c, attempts, f + 1);
    } else if requests < f + 1 {
      assert Retryable(attempts[requests - 1].outcome);
    }
  }

  /** What the first response decides: below 500 it is the only one, and delivers exactly when it is a 2xx that parses.
      A 4xx is never retried. */
  lemma OneRequestIsEnough(c: Client, attempts: seq<Attempt>, requests: nat)
    requires Stops(c, attempts, requests) && attempts[0].outcome.Response? && attempts[0].outcome.status < 500
    ensures requests == 1
    ensures var o := attempts[0].outcome;
            Delivers(attempts[requests - 1].outcome) <==> 200 <= o.status <= 299 && o.parses
  {
    assert requests > 1 ==> !StopsAfter(c, attempts, 1);
  }

  /** A server or network error is retried while retries are left and the wait is not cancelled, and only then. */
  lemma RetriedExactly(c: Client, attempts: seq<Attempt>, requests: nat, n: nat)
    requires Stops(c, attempts, requests) && 0 < n <= requests
    requires var o := attempts[n - 1].outcome; o.NetworkError? || (o.Response? && o.status >= 500)
    ensures requests > n <==> n <= c.maxRetries && !attempts[n].cancelled
  {
    assert n < requests ==> !StopsAfter(c, attempts, n);
  }

  /** A request that ends in any other error is the last, and does not deliver. */
  lemma OtherErrorStops(c: Client, attempts: seq<Attempt>, requests: nat, n: nat)
    requires Stops(c, attempts, requests) && 0 < n <= requests && attempts[n - 1].outcome.OtherError?
    ensures requests == n && !Delivers(attempts[requests - 1].outcome)
  {
    assert n < requests ==> !StopsAfter(c, attempts, n);
  }

  function SumBackoffs(c: Client, n: nat): int {
    if n == 0 then 0 else SumBackoffs(c, n - 1) + Backoff(c, n)
  }

  lemma {:induction false} JitterAddsAQuarter(c: Client, attempts: seq<Attempt>, waits: seq<int>)
    requires |waits| < |attempts|
    requires forall k | 0 <= k < |waits| :: waits[k] == Jittered(Backoff(c, k + 1), attempts[k + 1].random)
    ensures 4 * Sum(waits) <= 5 * SumBackoffs(c, |waits|)
    decreases |waits|
  {
    var n := |waits|;
    if n > 0 {
      JitterAddsAQuarter(c, attempts, waits[..n - 1]);
      JitterBounds(Backoff(c, n), attempts[n].random);
    }
  }

  lemma PowerSum(base: nat, n: nat)
    requires n > 0
    ensures 2 * (base * (Pow2(n) - 1)) == 2 * (base * (Pow2(n - 1) - 1)) + base * Pow2(n)
    ensures base * Pow2(n - 1) <= base * Pow2(n)
  {
    var p: int := Pow2(n - 1);
    assert Pow2(n) == 2 * p;
    assert base * (2 * p - 1) == base * (2 * p) - base;
    assert base * (p - 1) == base * p - base;
    assert base * (2 * p) == 2 * (base * p);
    assert base * p >= 0;
  }

  /** The unjittered waits add up to at most 2 * base * (2^n - 1), and to exactly that while the cap is not reached. */
  lemma {:induction false} BackoffsAddUp(c: Client, n: nat)
    ensures SumBackoffs(c, n) <= 2 * (c.baseBackoff * (Pow2(n) - 1))
    ensures c.baseBackoff * Pow2(n) <= c.maxBackoff ==> SumBackoffs(c, n) == 2 * (c.baseBackoff * (Pow2(n) - 1))
  {
    if n > 0 {
      BackoffsAddUp(c, n - 1);
      PowerSum(c.baseBackoff, n);
    }
  }

  /** Total wait: at most 1.25 times the unjittered waits, and so at most 2.5 * base * (2^retries - 1). */
  lemma TotalWait(c: Client, attempts: seq<Attempt>, waits: seq<int>)
    requires |waits| < |attempts|
    requires forall k | 0 <= k < |waits| :: waits[k] == Jittered(Backoff(c, k + 1), attempts[k + 1].random)
    ensures 4 * Sum(waits) <= 5 * SumBackoffs(c, |waits|)
    ensures 2 * Sum(waits) <= 5 * (c.baseBackoff * (Pow2(|waits|) - 1))
  {
    JitterAddsAQuarter(c, attempts, waits);
    BackoffsAddUp(c, |waits|);
  }

  /** The documented wait before retry k: it starts at the base backoff and doubles up to the longest. */
  function DocumentedBackoff(c: Client, k: nat): int
    requires k > 0
  {
    Min(c.baseBackoff * Pow2(k - 1), c.maxBackoff)
  }

  /** The loop doubles the backoff before it is first used. It keeps the documented schedule if and only if the base is
      zero or the documented wait has reached the cap already. */
  lemma ScheduleIsDocumentedExactly(c: Client, k: nat)
    requires k > 0
    ensures Backoff(c, k) == DocumentedBackoff(c, k)
       <==> c.baseBackoff == 0 || c.maxBackoff <= c.baseBackoff * Pow2(k - 1)
  {
    Pow2Positive(k - 1);
    ScaledByPositive(c.baseBackoff, Pow2(k - 1));
    CapOfDoubled(c.baseBackoff * Pow2(k - 1), c.maxBackoff);
  }

  lemma CapOfDoubled(x: nat, cap: nat)
    ensures Min(2 * x, cap) == Min(x, cap) <==> x == 0 || cap <= x
  {
  }

  /** With the default client the waits are two, four and eight seconds, and not one, two and four. */
  lemma DefaultSchedule()
    ensures Backoff(DEFAULT_CLIENT, 1) == 2_000_000_000
         && Backoff(DEFAULT_CLIENT, 2) == 4_000_000_000
         && Backoff(DEFAULT_CLIENT, 3) == 8_000_000_000
  {
    assert Pow2(1) == 2 && Pow2(2) == 4 && Pow2(3) == 8;
  }
}
