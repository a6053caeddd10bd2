/** The token bucket of the server's flood control, and the exact set of call times it admits. */
module Flood {
  import opened Reals

  datatype Bucket = Bucket(tokens: real, maxTokens: real, refillRate: real, lastRefill: real)

  function Elapsed(last: real, now: real): real {
    if now > last then now - last else 0.0
  }

  /** The tokens a bucket holds once refilled at a given time. */
  function Refilled(b: Bucket, now: real): real {
    Min(Elapsed(b.lastRefill, now) * b.refillRate + b.tokens, b.maxTokens)
  }

  function Consume(b: Bucket, now: real): (bool, Bucket) {
    var tokens := Refilled(b, now);
    if tokens >= 1.0 then (true, b.(tokens := tokens - 1.0, lastRefill := now))
    else (false, b.(tokens := tokens, lastRefill := now))
  }

  function Fresh(rate: nat, burst: nat, now: real): Bucket {
    Bucket(burst as real, burst as real, rate as real, now)
  }

  class FloodBucket {
    var tokens: real
    const maxTokens: real
    const refillRate: real
    var lastRefill: real

    function State(): Bucket
      reads this
    {
      Bucket(tokens, maxTokens, refillRate, lastRefill)
    }

    constructor (ratePerSec: nat, burst: nat, now: real)
      ensures State() == Fresh(ratePerSec, burst, now)
    {
      tokens := burst as real;
      maxTokens := burst as real;
      refillRate := ratePerSec as real;
      lastRefill := now;
    }

    method TryConsume(now: real) returns (ok: bool)
      modifies this
      ensures (ok, State()) == Consume(old(State()), now)
    {
      var elapsed := if now > lastRefill then now - lastRefill else 0.0;
      lastRefill := now;
      var refilled := elapsed * refillRate + tokens;
      tokens := if refilled <= maxTokens then refilled else maxTokens;
      if tokens >= 1.0 {
        tokens := tokens - 1.0;
        ok := true;
      } else {
        ok := false;
      }
    }
  }

  // ----- Runs: one bucket, created at some time, called at the times of a list -----

  datatype Setup = Setup(rate: nat, burst: nat, created: real, times: seq<real>)

  /** The clock never goes back. */
  ghost predicate Monotone(s: Setup) {
    && (s.times != [] ==> s.created <= s.times[0])
    && forall i, j :: 0 <= i <= j < |s.times| ==> s.times[i] <= s.times[j]
  }

  /** The bucket just before call k. */
  function Before(s: Setup, k: nat): Bucket
    requires k <= |s.times|
  {
    if k == 0 then Fresh(s.rate, s.burst, s.created) else Consume(Before(s, k - 1), s.times[k - 1]).1
  }

  predicate Accepted(s: Setup, k: nat)
    requires k < |s.times|
  {
    Consume(Before(s, k), s.times[k]).0
  }

  /** How many of the calls i..k are accepted. */
  function Count(s: Setup, i: nat, k: nat): (n: nat)
    requires i <= k <= |s.times|
    ensures n <= k - i
  {
    if i == k then 0 else Count(s, i, k - 1) + if Accepted(s, k - 1) then 1 else 0
  }

  /** What a window from call i to call k allows: burst + rate * T. */
  function Allowance(s: Setup, i: nat, k: nat): real
    requires i <= k < |s.times|
  {
    s.burst as real + Earned(s.rate as real, s.times[i], s.times[k])
  }

  function Earned(rate: real, from: real, to: real): real {
    rate * (to - from)
  }

  lemma EarnedAdds(rate: real, a: real, b: real, c: real)
    ensures Earned(rate, a, c) == Earned(rate, a, b) + Earned(rate, b, c)
  {
  }

  lemma EarnedIsNotNegative(rate: real, a: real, b: real)
    requires rate >= 0.0 && a <= b
    ensures Earned(rate, a, b) >= 0.0 && Earned(rate, a, a) == 0.0
  {
  }

  /** What is left of the allowance at call k after the calls accepted since call i. */
  function Room(s: Setup, i: nat, k: nat): real
    requires i <= k < |s.times|
  {
    Allowance(s, i, k) - Count(s, i, k) as real
  }

  function Tokens(s: Setup, k: nat): real
    requires k < |s.times|
  {
    Refilled(Before(s, k), s.times[k])
  }

  lemma Constants(s: Setup, k: nat)
    requires k <= |s.times|
    ensures Before(s, k).maxTokens == s.burst as real && Before(s, k).refillRate == s.rate as real
    ensures Before(s, k).lastRefill == if k == 0 then s.created else s.times[k - 1]
  {
  }

  lemma RefilledLater(b: Bucket, now: real)
    requires b.lastRefill <= now
    ensures Refilled(b, now) == Min(b.tokens + Earned(b.refillRate, b.lastRefill, now), b.maxTokens)
  {
  }

  lemma FirstTokens(s: Setup)
    requires Monotone(s) && s.times != []
    ensures Tokens(s, 0) == s.burst as real
  {
    EarnedIsNotNegative(s.rate as real, s.created, s.times[0]);
    RefilledLater(Before(s, 0), s.times[0]);
  }

  lemma NextTokens(s: Setup, k: nat)
    requires Monotone(s) && k + 1 < |s.times|
    ensures Tokens(s, k + 1) == Min(Tokens(s, k) - (if Accepted(s, k) then 1.0 else 0.0)
                                    + Earned(s.rate as real, s.times[k], s.times[k + 1]), s.burst as real)
  {
    hide Earned, Refilled, Min;
    Constants(s, k);
    Constants(s, k + 1);
    RefilledLater(Before(s, k + 1), s.times[k + 1]);
  }

  lemma NextRoom(s: Setup, i: nat, k: nat)
    requires i <= k && k + 1 < |s.times|
    ensures Room(s, i, k + 1) == Room(s, i, k) - (if Accepted(s, k) then 1.0 else 0.0)
                                 + Earned(s.rate as real, s.times[k], s.times[k + 1])
  {
    hide Earned, Accepted;
    EarnedAdds(s.rate as real, s.times[i], s.times[k], s.times[k + 1]);
  }

  lemma FullRoom(s: Setup, k: nat)
    requires k < |s.times|
    ensures Room(s, k, k) == s.burst as real
  {
    EarnedIsNotNegative(s.rate as real, s.times[k], s.times[k]);
  }

  /** The refilled bucket at call k is the least room left over all windows that end there. */
  lemma {:induction false} TokensAreLeastRoom(s: Setup, k: nat) returns (tightest: nat)
    requires Monotone(s) && k < |s.times|
    ensures forall i :: 0 <= i <= k ==> Tokens(s, k) <= Room(s, i, k)
    ensures tightest <= k && Tokens(s, k) == Room(s, tightest, k)
  {
    hide Earned, Room, Tokens, Accepted;
    FullRoom(s, k);
    if k == 0 {
      FirstTokens(s);
      tightest := 0;
    } else {
      var t := TokensAreLeastRoom(s, k - 1);
      NextTokens(s, k - 1);
      forall i | 0 <= i < k
        ensures Room(s, i, k) - Tokens(s, k) >= Room(s, i, k - 1) - Tokens(s, k - 1)
      {
        NextRoom(s, i, k - 1);
      }
      NextRoom(s, t, k - 1);
      tightest := if Tokens(s, k) == s.burst as real then k else t;
    }
  }

  /** Exact admission: a call is accepted if and only if, with it, every window ending there stays within its allowance. */
  lemma ExactAdmission(s: Setup, k: nat)
    requires Monotone(s) && k < |s.times|
    ensures Accepted(s, k) <==>
            forall i :: 0 <= i <= k ==> Count(s, i, k) as real + 1.0 <= Allowance(s, i, k)
  {
    hide Allowance, Monotone, Before, Count;
    var t := TokensAreLeastRoom(s, k);
    assert Accepted(s, k) <==> Tokens(s, k) >= 1.0;
    forall i | 0 <= i <= k
      ensures Count(s, i, k) as real + 1.0 <= Allowance(s, i, k) <==> 1.0 <= Room(s, i, k)
    {
    }
    if !Accepted(s, k) {
      assert Room(s, t, k) < 1.0;
    }
  }

  /** Traffic bound: the calls accepted in a window number at most its allowance. */
  lemma {:induction false} WindowBound(s: Setup, i: nat, j: nat)
    requires Monotone(s) && i <= j < |s.times|
    ensures Count(s, i, j + 1) as real <= Allowance(s, i, j)
    decreases j
  {
    hide Earned, Accepted, Before;
    ExactAdmission(s, j);
    if !Accepted(s, j) {
      if i < j {
        WindowBound(s, i, j - 1);
        EarnedAdds(s.rate as real, s.times[i], s.times[j - 1], s.times[j]);
        EarnedIsNotNegative(s.rate as real, s.times[j - 1], s.times[j]);
      } else {
        EarnedIsNotNegative(s.rate as real, s.times[j], s.times[j]);
      }
    }
  }

  /** The same for any stretch of time: calls at most T apart. */
  lemma TimeWindowBound(s: Setup, i: nat, j: nat, T: real)
    requires Monotone(s) && i <= j < |s.times| && s.times[j] - s.times[i] <= T
    ensures Count(s, i, j + 1) as real <= s.burst as real + s.rate as real * T
  {
    hide Earned, Count, Monotone;
    WindowBound(s, i, j);
    LongerEarnsMore(s.rate as real, s.times[i], s.times[j], T);
  }

  lemma LongerEarnsMore(rate: real, from: real, to: real, T: real)
    requires rate >= 0.0 && to - from <= T
    ensures Earned(rate, from, to) <= rate * T
  {
    var t := to - from;
    assert rate * T == rate * t + rate * (T - t);
  }

  lemma {:induction false} CountAll(s: Setup, i: nat, k: nat)
    requires i <= k <= |s.times| && forall j :: i <= j < k ==> Accepted(s, j)
    ensures Count(s, i, k) == k - i
    decreases k
  {
    if i < k {
      CountAll(s, i, k - 1);
    }
  }

  /** Every window of calls, all of them counted, fits in burst + rate * T. */
  ghost predicate AllWindowsFit(s: Setup) {
    forall i, j :: 0 <= i <= j < |s.times| ==> (j - i + 1) as real <= Allowance(s, i, j)
  }

  /** No call of a run is ever refused if and only if every window of calls fits. */
  lemma EveryCallAccepted(s: Setup)
    requires Monotone(s)
    ensures (forall k :: 0 <= k < |s.times| ==> Accepted(s, k)) <==> AllWindowsFit(s)
  {
    hide Allowance, Accepted, Count, Monotone;
    if forall k :: 0 <= k < |s.times| ==> Accepted(s, k) {
      forall i, j | 0 <= i <= j < |s.times|
        ensures (j - i + 1) as real <= Allowance(s, i, j)
      {
        WindowBound(s, i, j);
        CountAll(s, i, j + 1);
      }
    }
    if AllWindowsFit(s) {
      forall k | 0 <= k < |s.times|
        ensures Accepted(s, k)
      {
        ExactAdmission(s, k);
        forall i | 0 <= i <= k
          ensures Count(s, i, k) as real + 1.0 <= Allowance(s, i, k)
        {
          assert Count(s, i, k) <= k - i;
        }
      }
    }
  }
}
