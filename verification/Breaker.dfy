/** The circuit breaker in front of the language model. */
module Breakers {

  datatype Mode = Closed | Open | HalfOpen

  datatype Config = Config(maxFailures: int, resetTimeout: int)

  datatype Breaker = Breaker(mode: Mode, failures: int, lastFailure: int, successes: nat)

  /** A call on the breaker, at a time in nanoseconds. */
  datatype Event = Allow(at: int) | Success(at: int) | Failure(at: int)

  const FRESH: Breaker := Breaker(Closed, 0, 0, 0)

  predicate Admits(c: Config, b: Breaker, at: int) {
    !b.mode.Open? || at - b.lastFailure >= c.resetTimeout
  }

  function Step(c: Config, b: Breaker, e: Event): Breaker {
    match e
    case Allow(at) =>
      if b.mode.Open? && Admits(c, b, at) then b.(mode := HalfOpen, successes := 0) else b
    case Success(_) =>
      if b.mode.HalfOpen? then b.(failures := 0, successes := b.successes + 1, mode := Closed)
      else b.(failures := 0)
    case Failure(at) =>
      var b := b.(failures := b.failures + 1, lastFailure := at);
      match b.mode
      case Closed => if b.failures >= c.maxFailures then b.(mode := Open) else b
      case HalfOpen => b.(mode := Open, successes := 0)
      case Open => b
  }

  function Run(c: Config, b: Breaker, events: seq<Event>): Breaker {
    if events == [] then b else Step(c, Run(c, b, events[..|events| - 1]), events[|events| - 1])
  }

  lemma {:induction false} RunConcat(c: Config, b: Breaker, first: seq<Event>, second: seq<Event>)
    ensures Run(c, b, first + second) == Run(c, Run(c, b, first), second)
  {
    if second == [] {
      assert first + second == first;
    } else {
      RunConcat(c, b, first, second[..|second| - 1]);
      assert (first + second)[..|first + second| - 1] == first + second[..|second| - 1];
    }
  }

  // ----- what the fields mean

  /** How many failures were recorded since the last success. */
  function FailureRun(events: seq<Event>): nat {
    if events == [] then 0
    else
      match events[|events| - 1]
      case Allow(_) => FailureRun(events[..|events| - 1])
      case Success(_) => 0
      case Failure(_) => FailureRun(events[..|events| - 1]) + 1
  }

  ghost predicate IsLatestFailure(events: seq<Event>, j: nat) {
    j < |events| && events[j].Failure? && forall k :: j < k < |events| ==> !events[k].Failure?
  }

  /** The counter is the current run of failures, and a closed breaker has not seen as many as it tolerates. */
  lemma {:induction false} FailuresAreCounted(c: Config, events: seq<Event>)
    ensures var b := Run(c, FRESH, events);
            && b.failures == FailureRun(events)
            && (b.mode.Closed? ==> b.failures == 0 || b.failures < c.maxFailures)
  {
    if events != [] {
      FailuresAreCounted(c, events[..|events| - 1]);
    }
  }

  lemma {:induction false} OpenRemembersFailure(c: Config, events: seq<Event>)
    ensures var b := Run(c, FRESH, events);
            b.mode.Open? || b.mode.HalfOpen? ==>
              exists j: nat :: IsLatestFailure(events, j) && events[j].at == b.lastFailure
  {
    if events != [] {
      var before := events[..|events| - 1];
      OpenRemembersFailure(c, before);
      var b := Run(c, FRESH, events);
      if b.mode.Open? || b.mode.HalfOpen? {
        if events[|events| - 1].Failure? {
          assert IsLatestFailure(events, |events| - 1);
        } else {
          var j: nat :| IsLatestFailure(before, j) && before[j].at == b.lastFailure;
          assert IsLatestFailure(events, j);
        }
      }
    }
  }

  /** Every refusal is explained by a failure less than the reset timeout old. */
  lemma {:induction false} RefusalsAreRecent(c: Config, events: seq<Event>, at: int)
    requires !Admits(c, Run(c, FRESH, events), at)
    ensures exists j: nat :: IsLatestFailure(events, j) && at - events[j].at < c.resetTimeout
  {
    OpenRemembersFailure(c, events);
    var j: nat :| IsLatestFailure(events, j) && events[j].at == Run(c, FRESH, events).lastFailure;
    assert IsLatestFailure(events, j) && at - events[j].at < c.resetTimeout;
  }

  // ----- probes

  ghost predicate Chronological(events: seq<Event>) {
    forall i, j :: 0 <= i <= j < |events| ==> events[i].at <= events[j].at
  }

  /** The times at which an open breaker let a call through again. */
  function Probes(c: Config, events: seq<Event>): seq<int> {
    if events == [] then []
    else
      var before := events[..|events| - 1];
      var b := Run(c, FRESH, before);
      var e := events[|events| - 1];
      if e.Allow? && b.mode.Open? && Admits(c, b, e.at) then Probes(c, before) + [e.at] else Probes(c, before)
  }

  /** Any two probes in `times` are at least the timeout apart. */
  ghost predicate Apart(times: seq<int>, timeout: int) {
    forall i, j :: 0 <= i < j < |times| ==> times[j] - times[i] >= timeout
  }

  lemma {:induction false} ProbesPrecedeFailures(c: Config, events: seq<Event>)
    requires Chronological(events)
    ensures var b := Run(c, FRESH, events);
            forall p :: p in Probes(c, events) ==>
              events != [] && p <= events[|events| - 1].at && (b.mode.Open? ==> p <= b.lastFailure)
  {
    if events != [] {
      var before := events[..|events| - 1];
      ProbesPrecedeFailures(c, before);
      assert before != [] ==> before[|before| - 1].at <= events[|events| - 1].at;
    }
  }

  /** An open breaker probes at most once per reset timeout. */
  lemma {:induction false} ProbesAreApart(c: Config, events: seq<Event>)
    requires Chronological(events)
    ensures Apart(Probes(c, events), c.resetTimeout)
  {
    if events != [] {
      var before := events[..|events| - 1];
      ProbesAreApart(c, before);
      ProbesPrecedeFailures(c, before);
      var earlier := Probes(c, before);
      var now := Probes(c, events);
      forall i, j | 0 <= i < j < |now|
        ensures now[j] - now[i] >= c.resetTimeout
      {
        if j == |earlier| {
          assert earlier[i] in earlier;
        } else {
          assert now[j] - now[i] == earlier[j] - earlier[i];
        }
      }
    }
  }

  lemma {:induction false} ApartSpan(times: seq<int>, timeout: int)
    requires |times| > 0 && Apart(times, timeout)
    ensures (|times| - 1) * timeout <= times[|times| - 1] - times[0]
  {
    var n := |times| - 1;
    if n > 0 {
      ApartSpan(times[..n], timeout);
      assert times[n] - times[n - 1] >= timeout;
      assert n * timeout == (n - 1) * timeout + timeout;
    }
  }

  /** Probes `i..j` lie in a span of time that leaves room for at most span / timeout + 1 of them. */
  lemma ProbeRate(c: Config, events: seq<Event>, i: nat, j: nat)
    requires Chronological(events)
    requires i <= j < |Probes(c, events)|
    ensures (j - i) * c.resetTimeout <= Probes(c, events)[j] - Probes(c, events)[i]
  {
    ProbesAreApart(c, events);
    ApartSpan(Probes(c, events)[i..j + 1], c.resetTimeout);
  }

  // ----- half-open periods

  /** A success or a failure. */
  predicate IsReport(e: Event) {
    !e.Allow?
  }

  /** Event `p` is a call that finds the breaker open and is let through again. */
  ghost predicate IsProbe(c: Config, events: seq<Event>, p: nat) {
    && p < |events| && events[p].Allow?
    && Run(c, FRESH, events[..p]).mode.Open? && Admits(c, Run(c, FRESH, events[..p]), events[p].at)
  }

  /** Probe `p` has not been reported on: nothing but calls has come after it. */
  ghost predicate Pending(c: Config, events: seq<Event>, p: nat) {
    IsProbe(c, events, p) && forall k :: p < k < |events| ==> !IsReport(events[k])
  }

  lemma PendingLonger(c: Config, events: seq<Event>, e: Event, p: nat)
    requires p < |events|
    ensures Pending(c, events + [e], p) <==> Pending(c, events, p) && !IsReport(e)
  {
    var longer := events + [e];
    assert longer[..p] == events[..p] && longer[p] == events[p];
    assert longer[|events|] == e;
    assert forall k :: 0 <= k < |events| ==> longer[k] == events[k];
  }

  lemma PendingLast(c: Config, events: seq<Event>, e: Event)
    ensures Pending(c, events + [e], |events|)
       <==> e.Allow? && Run(c, FRESH, events).mode.Open? && Admits(c, Run(c, FRESH, events), e.at)
  {
    assert (events + [e])[..|events|] == events;
  }

  /** Over all traces the breaker is half-open exactly while a probe has not been reported on. */
  lemma {:induction false} HalfOpenIff(c: Config, events: seq<Event>)
    ensures Run(c, FRESH, events).mode.HalfOpen? <==> exists p: nat :: Pending(c, events, p)
  {
    if events != [] {
      var before, e := events[..|events| - 1], events[|events| - 1];
      assert events == before + [e];
      HalfOpenIff(c, before);
      PendingLast(c, before, e);
      if Run(c, FRESH, events).mode.HalfOpen? {
        if Run(c, FRESH, before).mode.HalfOpen? {
          var p: nat :| Pending(c, before, p);
          PendingLonger(c, before, e, p);
        }
      } else if p: nat :| Pending(c, events, p) {
        if p < |before| {
          PendingLonger(c, before, e, p);
        }
      }
    }
  }

  /** How many of the events `p..r` are calls that are let through. */
  ghost function AdmittedBetween(c: Config, events: seq<Event>, p: nat, r: nat): nat
    requires p <= r <= |events|
  {
    if r == p then 0
    else
      var e := events[r - 1];
      AdmittedBetween(c, events, p, r - 1)
      + if e.Allow? && Admits(c, Run(c, FRESH, events[..r - 1]), e.at) then 1 else 0
  }

  lemma {:induction false} CallsOfPeriod(c: Config, events: seq<Event>, p: nat, r: nat)
    requires IsProbe(c, events, p) && p < r <= |events|
    requires forall k :: p < k < r ==> !IsReport(events[k])
    ensures Run(c, FRESH, events[..r]).mode.HalfOpen?
    ensures AdmittedBetween(c, events, p, r) == r - p
    decreases r
  {
    assert events[..r][..r - 1] == events[..r - 1];
    if r > p + 1 {
      CallsOfPeriod(c, events, p, r - 1);
    } else {
      assert AdmittedBetween(c, events, p, p) == 0;
    }
  }

  /**
   The half-open period of probe `p` lasts until its report at `r`, or has not ended. Every call in it is let through,
   the probe included, so that it admits a single call exactly when no call falls between the probe and its report.
   */
  lemma HalfOpenAdmitsEveryCall(c: Config, events: seq<Event>, p: nat, r: nat)
    requires IsProbe(c, events, p) && p < r <= |events|
    requires forall k :: p < k < r ==> !IsReport(events[k])
    requires r < |events| ==> IsReport(events[r])
    ensures AdmittedBetween(c, events, p, r) == r - p
    ensures AdmittedBetween(c, events, p, r) == 1
       <==> forall k :: p < k < |events| && events[k].Allow? ==> exists m :: p < m < k && IsReport(events[m])
  {
    CallsOfPeriod(c, events, p, r);
  }

  /**
   Enough failures at once to open a fresh breaker, and then `calls` calls at once as soon as it lets them through.
   */
  function OpenThenCalls(c: Config, calls: nat): seq<Event> {
    var at := if c.resetTimeout > 0 then c.resetTimeout else 0;
    seq(FailuresToOpen(c), i => Failure(0)) + seq(calls, i => Event.Allow(at))
  }

  function FailuresToOpen(c: Config): nat {
    if c.maxFailures > 1 then c.maxFailures else 1
  }

  /** From a fresh breaker, whatever its limits, any number of calls can be let through on one probe. */
  lemma AnyNumberOfCalls(c: Config, calls: nat)
    requires calls >= 1
    ensures var events, p := OpenThenCalls(c, calls), FailuresToOpen(c);
            && IsProbe(c, events, p) && Chronological(events)
            && AdmittedBetween(c, events, p, |events|) == calls
  {
    var events, p := OpenThenCalls(c, calls), FailuresToOpen(c);
    AfterFailures(c, FRESH, events[..p]);
    CallsOfPeriod(c, events, p, |events|);
  }

  // ----- how stretches of one kind of event end

  /** After nothing but failures, from any state, the breaker is open exactly when it started so or had had enough. */
  lemma {:induction false} AfterFailures(c: Config, b: Breaker, events: seq<Event>)
    requires forall k :: 0 <= k < |events| ==> events[k].Failure?
    ensures var after := Run(c, b, events);
            && after.failures == b.failures + |events|
            && (events == [] ==> after == b)
            && (events != [] ==>
                  && after.lastFailure == events[|events| - 1].at
                  && !after.mode.HalfOpen?
                  && (after.mode.Open? <==> !b.mode.Closed? || b.failures + |events| >= c.maxFailures))
  {
    if events != [] {
      AfterFailures(c, b, events[..|events| - 1]);
    }
  }

  class CircuitBreaker {
    const config: Config
    var mode: Mode
    var failures: int
    var lastFailure: int
    var successes: nat

    ghost function View(): Breaker
      reads this
    {
      Breaker(mode, failures, lastFailure, successes)
    }

    constructor (maxFailures: int, resetTimeout: int)
      ensures View() == FRESH && config == Config(maxFailures, resetTimeout)
    {
      config := Config(maxFailures, resetTimeout);
      mode, failures, lastFailure, successes := Closed, 0, 0, 0;
    }

    method Allow(now: int) returns (ok: bool)
      modifies this
      ensures View() == Step(config, old(View()), Event.Allow(now))
      ensures ok <==> Admits(config, old(View()), now)
      ensures ok <==> !old(mode).Open? || now - old(lastFailure) >= config.resetTimeout
      ensures mode == (if old(mode).Open? && ok then HalfOpen else old(mode))
      ensures failures == old(failures) && lastFailure == old(lastFailure)
    {
      match mode {
        case Closed =>
          return true;
        case Open =>
          if now - lastFailure >= config.resetTimeout {
            mode := HalfOpen;
            successes := 0;
            return true;
          }
          return false;
        case HalfOpen =>
          return true;
      }
    }

    method RecordSuccess(now: int)
      modifies this
      ensures View() == Step(config, old(View()), Success(now))
      ensures failures == 0 && lastFailure == old(lastFailure)
      ensures mode == (if old(mode).HalfOpen? then Closed else old(mode))
    {
      failures := 0;
      if mode == HalfOpen {
        successes := successes + 1;
        if successes >= 1 {
          mode := Closed;
        }
      }
    }

    method RecordFailure(now: int)
      modifies this
      ensures View() == Step(config, old(View()), Failure(now))
      ensures failures == old(failures) + 1 && lastFailure == now
      ensures mode == (if old(mode).Closed? && failures < config.maxFailures then Closed else Open)
    {
      failures := failures + 1;
      lastFailure := now;
      match mode {
        case Closed =>
          if failures >= config.maxFailures {
            mode := Open;
          }
        case HalfOpen =>
          mode := Open;
          successes := 0;
        case Open =>
      }
    }
  }
}
