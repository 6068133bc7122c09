/**
 The rate limiter of the web server: a token bucket refilled lazily, on each call.

 A run is a list of instants: instant 0 is the construction of the bucket and every later one is a call. `taken[k]` says
 whether instant `k` took a token, under any policy at all. Most lemmas measure time by the tokens it earns, so that
 instant `t` of a bucket with rate `r` is at `t * r` on its clock; the main results are then stated for real time.
 */
module TokenBuckets {

  function Cost(takes: bool): nat {
    if takes then 1 else 0
  }

  /** How many of the instants `first..end` took a token. */
  function Count(taken: seq<bool>, first: nat, end: nat): nat
    requires end <= |taken|
  {
    if end <= first then 0 else Count(taken, first, end - 1) + Cost(taken[end - 1])
  }

  function Clamp(capacity: real, tokens: real): real {
    if tokens > capacity then capacity else tokens
  }

  /** What the bucket holds at instant `k` once refilled and clamped, before that instant's decision. */
  function Offered(capacity: real, clock: seq<real>, taken: seq<bool>, k: nat): real
    requires k < |clock| && k <= |taken|
    decreases k, 0
  {
    if k == 0 then capacity
    else Clamp(capacity, Balance(capacity, clock, taken, k - 1) + (clock[k] - clock[k - 1]))
  }

  /** What is left after the decision of instant `k`. */
  function Balance(capacity: real, clock: seq<real>, taken: seq<bool>, k: nat): real
    requires k < |clock| && k < |taken|
    decreases k, 1
  {
    Offered(capacity, clock, taken, k) - Cost(taken[k]) as real
  }

  /** The policy of the implementation: nothing at construction, then a token whenever a whole one is there. */
  ghost predicate IsGreedy(capacity: real, clock: seq<real>, taken: seq<bool>) {
    && |taken| == |clock| > 0
    && !taken[0]
    && forall k :: 1 <= k < |taken| ==> (taken[k] <==> Offered(capacity, clock, taken, k) >= 1.0)
  }

  /** Any policy that takes a token only when the bucket offers a whole one. */
  ghost predicate IsAffordable(capacity: real, clock: seq<real>, taken: seq<bool>) {
    && |taken| == |clock| > 0
    && !taken[0]
    && forall k :: 1 <= k < |taken| ==> (taken[k] ==> Offered(capacity, clock, taken, k) >= 1.0)
  }

  /** What instant `k` may still take if only the stretch starting at instant `i` is looked at. */
  function Headroom(capacity: real, clock: seq<real>, taken: seq<bool>, i: nat, k: nat): real
    requires i <= k < |clock| && k <= |taken|
  {
    capacity + (clock[k] - clock[i]) - Count(taken, i, k) as real
  }

  /** Lazy refill with clamping is the minimum, over every earlier instant, of that instant's headroom. */
  lemma {:induction false} OfferedIsMinimum(capacity: real, clock: seq<real>, taken: seq<bool>, k: nat)
    returns (least: nat)
    requires k < |clock| && k <= |taken|
    ensures forall i :: 0 <= i <= k ==> Offered(capacity, clock, taken, k) <= Headroom(capacity, clock, taken, i, k)
    ensures least <= k && Offered(capacity, clock, taken, k) == Headroom(capacity, clock, taken, least, k)
  {
    if k == 0 {
      return 0;
    }
    var before := OfferedIsMinimum(capacity, clock, taken, k - 1);
    forall i | 0 <= i <= k
      ensures Offered(capacity, clock, taken, k) <= Headroom(capacity, clock, taken, i, k)
    {
      if i < k {
        assert Headroom(capacity, clock, taken, i, k)
            == Headroom(capacity, clock, taken, i, k - 1) - Cost(taken[k - 1]) as real + (clock[k] - clock[k - 1]);
      }
    }
    least := if Offered(capacity, clock, taken, k) == capacity then k else before;
  }

  /** Instant `k` is offered a whole token exactly when every stretch ending there has headroom for one. */
  lemma OfferIff(capacity: real, clock: seq<real>, taken: seq<bool>, k: nat)
    requires k < |clock| && k <= |taken|
    ensures Offered(capacity, clock, taken, k) >= 1.0
       <==> forall i :: 0 <= i <= k ==> Headroom(capacity, clock, taken, i, k) >= 1.0
  {
    var least := OfferedIsMinimum(capacity, clock, taken, k);
  }

  ghost predicate NonDecreasing(clock: seq<real>) {
    forall i, j :: 0 <= i <= j < |clock| ==> clock[i] <= clock[j]
  }

  lemma {:induction false} StretchBound(capacity: real, clock: seq<real>, taken: seq<bool>, i: nat, k: nat)
    requires capacity >= 0.0 && NonDecreasing(clock) && IsAffordable(capacity, clock, taken)
    requires i <= k < |clock|
    ensures Count(taken, i, k + 1) as real <= capacity + (clock[k] - clock[i])
    decreases k
  {
    if k >= 1 && taken[k] {
      OfferIff(capacity, clock, taken, k);
      assert Headroom(capacity, clock, taken, i, k) >= 1.0;
    } else if i < k {
      StretchBound(capacity, clock, taken, i, k - 1);
      assert clock[k - 1] <= clock[k];
    }
  }

  /** Greedy is never more than its surplus of grants behind any affordable policy. */
  lemma {:induction false} GreedyKeepsUp(capacity: real, clock: seq<real>, greedy: seq<bool>, other: seq<bool>, k: nat)
    requires IsGreedy(capacity, clock, greedy) && IsAffordable(capacity, clock, other)
    requires k < |clock|
    ensures Count(other, 0, k + 1) <= Count(greedy, 0, k + 1)
    ensures Balance(capacity, clock, other, k)
         <= Balance(capacity, clock, greedy, k) + (Count(greedy, 0, k + 1) - Count(other, 0, k + 1)) as real
  {
    if k > 0 {
      GreedyKeepsUp(capacity, clock, greedy, other, k - 1);
      assert greedy[k] <==> Offered(capacity, clock, greedy, k) >= 1.0;
      assert other[k] ==> Offered(capacity, clock, other, k) >= 1.0;
    }
  }

  lemma {:induction false} AffordableBalance(capacity: real, clock: seq<real>, taken: seq<bool>, k: nat)
    requires capacity >= 0.0 && NonDecreasing(clock) && IsAffordable(capacity, clock, taken)
    requires k < |clock|
    ensures 0.0 <= Balance(capacity, clock, taken, k) <= capacity
  {
    if k > 0 {
      AffordableBalance(capacity, clock, taken, k - 1);
      assert clock[k - 1] <= clock[k];
    }
  }

  // ----- real time

  datatype Limits = Limits(rate: real, capacity: real)

  function Clock(l: Limits, instants: seq<real>): (clock: seq<real>)
    ensures |clock| == |instants|
    ensures forall i :: 0 <= i < |instants| ==> clock[i] == instants[i] * l.rate
  {
    seq(|instants|, i requires 0 <= i < |instants| => instants[i] * l.rate)
  }

  /** The run of the implementation with these calls. */
  ghost predicate IsRun(l: Limits, instants: seq<real>, taken: seq<bool>) {
    IsGreedy(l.capacity, Clock(l, instants), taken)
  }

  /** Any other accept or reject policy on the same bucket that never takes a token that is not there. */
  ghost predicate IsPolicy(l: Limits, instants: seq<real>, taken: seq<bool>) {
    IsAffordable(l.capacity, Clock(l, instants), taken)
  }

  ghost predicate Chronological(instants: seq<real>) {
    forall i, j :: 0 <= i <= j < |instants| ==> instants[i] <= instants[j]
  }

  /** `n` grants between two instants stay within the capacity plus what accrues between them. */
  predicate Within(l: Limits, n: nat, from: real, to: real) {
    n as real <= l.capacity + (to - from) * l.rate
  }

  lemma Elapsed(a: real, b: real, rate: real)
    ensures (b - a) * rate == b * rate - a * rate
  {
    var d := b - a;
    assert b * rate == (d + a) * rate;
  }

  lemma WithinOnClock(l: Limits, n: nat, from: real, to: real)
    ensures Within(l, n, from, to) <==> n as real <= l.capacity + (to * l.rate - from * l.rate)
  {
    Elapsed(from, to, l.rate);
  }

  /** Granting one more call at instant `k` keeps every stretch that ends there within its bound. */
  ghost predicate AllWithin(l: Limits, instants: seq<real>, taken: seq<bool>, k: nat)
    requires k < |instants| && k <= |taken|
  {
    forall i :: 0 <= i <= k ==> Within(l, Count(taken, i, k) + 1, instants[i], instants[k])
  }

  lemma HeadroomIffWithin(l: Limits, instants: seq<real>, taken: seq<bool>, i: nat, k: nat)
    requires i <= k < |instants| && k <= |taken|
    ensures Within(l, Count(taken, i, k) + 1, instants[i], instants[k])
       <==> Headroom(l.capacity, Clock(l, instants), taken, i, k) >= 1.0
  {
    WithinOnClock(l, Count(taken, i, k) + 1, instants[i], instants[k]);
  }

  lemma OfferIffWithin(l: Limits, instants: seq<real>, taken: seq<bool>, k: nat)
    requires k < |instants| && k <= |taken|
    ensures Offered(l.capacity, Clock(l, instants), taken, k) >= 1.0 <==> AllWithin(l, instants, taken, k)
  {
    var least := OfferedIsMinimum(l.capacity, Clock(l, instants), taken, k);
    if Offered(l.capacity, Clock(l, instants), taken, k) >= 1.0 {
      forall i | 0 <= i <= k
        ensures Within(l, Count(taken, i, k) + 1, instants[i], instants[k])
      {
        HeadroomIffWithin(l, instants, taken, i, k);
      }
    } else {
      HeadroomIffWithin(l, instants, taken, least, k);
    }
  }

  /**
   A call is granted exactly when no stretch of instants ending at it would exceed its bound, for any rate, any capacity
   and any times.
   */
  lemma Exactness(l: Limits, instants: seq<real>, taken: seq<bool>, k: nat)
    requires IsRun(l, instants, taken) && 1 <= k < |instants|
    ensures taken[k] <==> AllWithin(l, instants, taken, k)
  {
    OfferIffWithin(l, instants, taken, k);
  }

  lemma Grows(a: real, b: real, rate: real)
    requires a <= b && rate >= 0.0
    ensures a * rate <= b * rate
  {
  }

  lemma ClockIsNonDecreasing(l: Limits, instants: seq<real>)
    requires l.rate >= 0.0 && Chronological(instants)
    ensures NonDecreasing(Clock(l, instants))
  {
    var clock := Clock(l, instants);
    forall i, j | 0 <= i <= j < |clock|
      ensures clock[i] <= clock[j]
    {
      Grows(instants[i], instants[j], l.rate);
    }
  }

  /** No window of calls `i..k` is ever granted more than the capacity plus what accrues over the window. */
  lemma WindowBound(l: Limits, instants: seq<real>, taken: seq<bool>, i: nat, k: nat)
    requires l.rate >= 0.0 && l.capacity >= 0.0 && Chronological(instants)
    requires IsRun(l, instants, taken) && i <= k < |instants|
    ensures Within(l, Count(taken, i, k + 1), instants[i], instants[k])
  {
    ClockIsNonDecreasing(l, instants);
    StretchBound(l.capacity, Clock(l, instants), taken, i, k);
    WithinOnClock(l, Count(taken, i, k + 1), instants[i], instants[k]);
  }

  /** After every prefix of any call times, no policy has granted more calls than the implementation. */
  lemma Optimality(l: Limits, instants: seq<real>, taken: seq<bool>, other: seq<bool>, n: nat)
    requires IsRun(l, instants, taken) && IsPolicy(l, instants, other)
    requires n <= |instants|
    ensures Count(other, 0, n) <= Count(taken, 0, n)
  {
    if n > 0 {
      GreedyKeepsUp(l.capacity, Clock(l, instants), taken, other, n - 1);
    }
  }

  /** Taking only whole tokens on offer is the same as never letting the bucket fall below zero. */
  lemma PolicyIffNeverNegative(l: Limits, instants: seq<real>, taken: seq<bool>)
    requires l.rate >= 0.0 && l.capacity >= 0.0 && Chronological(instants)
    requires |instants| == |taken| > 0 && !taken[0]
    ensures IsPolicy(l, instants, taken)
       <==> forall k :: 0 <= k < |taken| ==> Balance(l.capacity, Clock(l, instants), taken, k) >= 0.0
  {
    ClockIsNonDecreasing(l, instants);
    var clock := Clock(l, instants);
    if IsPolicy(l, instants, taken) {
      forall k | 0 <= k < |taken|
        ensures Balance(l.capacity, clock, taken, k) >= 0.0
      {
        AffordableBalance(l.capacity, clock, taken, k);
      }
    } else {
      var k :| 1 <= k < |taken| && taken[k] && Offered(l.capacity, clock, taken, k) < 1.0;
      assert Balance(l.capacity, clock, taken, k) < 0.0;
    }
  }

  // ----- the object of the implementation

  lemma {:induction false} OfferedOfPrefix(
      capacity: real, clock: seq<real>, taken: seq<bool>, longerClock: seq<real>, longerTaken: seq<bool>, k: nat)
    requires clock <= longerClock && taken <= longerTaken
    requires k < |clock| && k <= |taken|
    ensures Offered(capacity, longerClock, longerTaken, k) == Offered(capacity, clock, taken, k)
    decreases k
  {
    if k > 0 {
      OfferedOfPrefix(capacity, clock, taken, longerClock, longerTaken, k - 1);
    }
  }

  /** What one more call makes of a run and of its balance, when `offer` is what the refilled bucket holds. */
  lemma NextCall(capacity: real, clock: seq<real>, taken: seq<bool>, now: real, offer: real)
    requires IsGreedy(capacity, clock, taken)
    requires offer == Clamp(capacity, Balance(capacity, clock, taken, |clock| - 1) + (now - clock[|clock| - 1]))
    ensures var ok := offer >= 1.0;
            && Offered(capacity, clock + [now], taken, |clock|) == offer
            && IsGreedy(capacity, clock + [now], taken + [ok])
            && Balance(capacity, clock + [now], taken + [ok], |clock|) == offer - Cost(ok) as real
  {
    var n := |clock|;
    var longer := clock + [now];
    var all := taken + [offer >= 1.0];
    OfferedOfPrefix(capacity, clock, taken, longer, taken, n - 1);
    OfferedOfPrefix(capacity, clock, taken, longer, all, n - 1);
    assert Offered(capacity, longer, all, n) == offer;
    forall k | 1 <= k < n + 1
      ensures all[k] <==> Offered(capacity, longer, all, k) >= 1.0
    {
      if k < n {
        OfferedOfPrefix(capacity, clock, taken, longer, all, k);
        assert taken[k] <==> Offered(capacity, clock, taken, k) >= 1.0;
      }
    }
  }

  lemma ClockOfNext(l: Limits, instants: seq<real>, now: real)
    ensures Clock(l, instants + [now]) == Clock(l, instants) + [now * l.rate]
  {
    var longer := instants + [now];
    forall i | 0 <= i < |longer|
      ensures Clock(l, longer)[i] == (Clock(l, instants) + [now * l.rate])[i]
    {
      assert longer[i] == if i < |instants| then instants[i] else now;
    }
  }

  /** The answer to a call at `now`, in real time, when `offer` is what the refilled bucket holds. */
  lemma Answer(l: Limits, instants: seq<real>, taken: seq<bool>, now: real, earned: real, offer: real)
    requires IsRun(l, instants, taken)
    requires earned == (now - instants[|instants| - 1]) * l.rate
    requires offer == Clamp(l.capacity, Balance(l.capacity, Clock(l, instants), taken, |instants| - 1) + earned)
    ensures var n := |instants|;
            var ok := offer >= 1.0;
            && IsRun(l, instants + [now], taken + [ok])
            && Balance(l.capacity, Clock(l, instants + [now]), taken + [ok], n) == offer - Cost(ok) as real
            && (ok <==> AllWithin(l, instants + [now], taken, n))
  {
    Elapsed(instants[|instants| - 1], now, l.rate);
    NextCall(l.capacity, Clock(l, instants), taken, now * l.rate, offer);
    ClockOfNext(l, instants, now);
    OfferIffWithin(l, instants + [now], taken, |instants|);
  }

  class TokenBucket {
    var tokens: real
    const capacity: real
    const refillRate: real
    var lastRefill: real
    ghost var instants: seq<real>
    ghost var taken: seq<bool>

    ghost function Lim(): Limits {
      Limits(refillRate, capacity)
    }

    ghost predicate Valid()
      reads this
    {
      && |instants| > 0
      && lastRefill == instants[|instants| - 1]
      && IsRun(Lim(), instants, taken)
      && tokens == Balance(capacity, Clock(Lim(), instants), taken, |instants| - 1)
    }

    constructor (ratePerSec: real, capacity: real, now: real)
      ensures Valid() && instants == [now]
      ensures this.capacity == capacity && refillRate == ratePerSec
    {
      tokens := capacity;
      this.capacity := capacity;
      refillRate := ratePerSec;
      lastRefill := now;
      instants := [now];
      taken := [false];
    }

    /** The work of `Allow` under its mutex: refill, clamp, and take a token if a whole one is there. */
    method AllowLocked(now: real, earned: real) returns (ok: bool)
      requires earned == (now - lastRefill) * refillRate
      modifies this`tokens, this`lastRefill
      ensures ok <==> Clamp(capacity, old(tokens) + earned) >= 1.0
      ensures tokens == Clamp(capacity, old(tokens) + earned) - Cost(ok) as real
      ensures lastRefill == now
    {
      tokens := tokens + (now - lastRefill) * refillRate;
      if tokens > capacity {
        tokens := capacity;
      }
      lastRefill := now;
      if tokens >= 1.0 {
        tokens := tokens - 1.0;
        return true;
      }
      return false;
    }

    /** Grants the call exactly when every stretch ending at it stays within capacity plus accrual. */
    method Allow(now: real) returns (ok: bool)
      requires Valid()
      modifies this
      ensures Valid()
      ensures instants == old(instants) + [now] && taken == old(taken) + [ok]
      ensures ok <==> AllWithin(Lim(), instants, old(taken), |old(instants)|)
    {
      ghost var l, before, was, longer := Lim(), instants, taken, instants + [now];
      var earned := (now - lastRefill) * refillRate;
      ghost var offer := Clamp(capacity, tokens + earned);
      ok := AllowLocked(now, earned);
      instants, taken := longer, was + [ok];
      Answer(l, before, was, now, earned, offer);
    }
  }
}
