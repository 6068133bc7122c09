/** The retry loop around the language model and its conversation with the circuit breaker. */
module Retries {
  import opened Options
  import opened Breakers
  import opened Parsers

  /** What one attempt meets: whether the context is cancelled by then, the transport's answer, and when it ends. */
  datatype Think = TransportError | Reply(raw: string)

  datatype Attempt = Attempt(cancelled: bool, think: Think, at: int)

  datatype Verdict = Cancelled | NoTransport | Unparseable | Accepted(decision: Decision)

  /** An attempt once it has been judged. */
  datatype Try = Try(verdict: Verdict, at: int)

  datatype CallError = CircuitOpen | ContextCancelled | AttemptFailed(attempt: int, transport: bool)

  datatype Outcome = Outcome(decision: Decision, attempts: int, error: Option<CallError>)

  function Judge(a: Attempt, json: Json): Verdict {
    if a.cancelled then Cancelled
    else
      match a.think
      case TransportError => NoTransport
      case Reply(raw) =>
        match ParseDecision(raw, json)
        case Err(_) => Unparseable
        case Ok(d) => Accepted(d)
  }

  function JudgeAll(script: seq<Attempt>, json: Json): (tries: seq<Try>)
    ensures |tries| == |script|
    ensures forall i :: 0 <= i < |script| ==> tries[i] == Try(Judge(script[i], json), script[i].at)
  {
    seq(|script|, i requires 0 <= i < |script| => Try(Judge(script[i], json), script[i].at))
  }

  /** What the loop reports to the breaker from attempt `k` (counted from 0) on; it gives up at `endAt`. */
  function Events(tries: seq<Try>, k: nat, endAt: int): seq<Event>
    requires k <= |tries|
    decreases |tries| - k
  {
    if k == |tries| then [Failure(endAt)]
    else
      match tries[k].verdict
      case Cancelled => [Failure(tries[k].at)]
      case NoTransport => [Failure(tries[k].at)] + Events(tries, k + 1, endAt)
      case Unparseable => Events(tries, k + 1, endAt)
      case Accepted(_) => [Success(tries[k].at)]
  }

  /** What the loop returns from attempt `k` on, when `lastErr` is the error of the attempt before. */
  function Returned(tries: seq<Try>, k: nat, lastErr: Option<CallError>): Outcome
    requires k <= |tries|
    decreases |tries| - k
  {
    if k == |tries| then Outcome(Fallback("all attempts failed"), |tries|, lastErr)
    else
      match tries[k].verdict
      case Cancelled => Outcome(Fallback("context cancelled"), k + 1, Some(ContextCancelled))
      case NoTransport => Returned(tries, k + 1, Some(AttemptFailed(k + 1, true)))
      case Unparseable => Returned(tries, k + 1, Some(AttemptFailed(k + 1, false)))
      case Accepted(d) => Outcome(d, k + 1, None)
  }

  /** A call at `now` that has the attempts of `script` in store and ends at `endAt`. */
  datatype Call = Call(now: int, script: seq<Attempt>, endAt: int)

  /** What an admitted call reports to the breaker. */
  function Reports(call: Call, json: Json): seq<Event> {
    Events(JudgeAll(call.script, json), 0, call.endAt)
  }

  /** A call that the breaker refuses leaves it alone; any other reports its attempts to it. */
  function AfterCall(c: Config, b: Breaker, call: Call, json: Json): Breaker {
    if Admits(c, b, call.now) then Run(c, Step(c, b, Event.Allow(call.now)), Reports(call, json)) else b
  }

  lemma RunStep(c: Config, b: Breaker, e: Event, rest: seq<Event>)
    ensures Run(c, b, [e] + rest) == Run(c, Step(c, b, e), rest)
  {
    RunConcat(c, b, [e], rest);
    assert [e][..0] == [];
    assert Run(c, b, [e]) == Step(c, b, e);
  }

  lemma RunOne(c: Config, b: Breaker, e: Event)
    ensures Run(c, b, [e]) == Step(c, b, e)
  {
    assert [e][..0] == [];
  }

  /** The retry loop proper, once the breaker has let the call through. */
  method Loop(circuit: CircuitBreaker, script: seq<Attempt>, json: Json, endAt: int) returns (r: Outcome)
    modifies circuit
    ensures circuit.View() == Run(circuit.config, old(circuit.View()), Events(JudgeAll(script, json), 0, endAt))
    ensures r == Returned(JudgeAll(script, json), 0, None)
  {
    ghost var tries := JudgeAll(script, json);
    ghost var start := circuit.View();
    var lastErr: Option<CallError> := None;
    for k := 0 to |script|
      invariant Run(circuit.config, circuit.View(), Events(tries, k, endAt))
             == Run(circuit.config, start, Events(tries, 0, endAt))
      invariant Returned(tries, k, lastErr) == Returned(tries, 0, None)
    {
      var verdict := Judge(script[k], json);
      assert tries[k] == Try(verdict, script[k].at);
      match verdict {
        case Cancelled =>
          RunOne(circuit.config, circuit.View(), Failure(script[k].at));
          circuit.RecordFailure(script[k].at);
          return Outcome(Fallback("context cancelled"), k + 1, Some(ContextCancelled));
        case NoTransport =>
          RunStep(circuit.config, circuit.View(), Failure(script[k].at), Events(tries, k + 1, endAt));
          lastErr := Some(AttemptFailed(k + 1, true));
          circuit.RecordFailure(script[k].at);
        case Unparseable =>
          lastErr := Some(AttemptFailed(k + 1, false));
        case Accepted(decision) =>
          RunOne(circuit.config, circuit.View(), Success(script[k].at));
          circuit.RecordSuccess(script[k].at);
          return Outcome(decision, k + 1, None);
      }
    }
    RunOne(circuit.config, circuit.View(), Failure(endAt));
    circuit.RecordFailure(endAt);
    return Outcome(Fallback("all attempts failed"), |script|, lastErr);
  }

  /** One call: refused by the breaker without any effect, or tried as many times as `script` has attempts in store. */
  method ThinkWithDecision(circuit: CircuitBreaker, script: seq<Attempt>, json: Json, now: int, endAt: int)
    returns (r: Outcome)
    modifies circuit
    ensures circuit.View() == AfterCall(circuit.config, old(circuit.View()), Call(now, script, endAt), json)
    ensures r == if Admits(circuit.config, old(circuit.View()), now) then Returned(JudgeAll(script, json), 0, None)
                 else Outcome(Fallback("circuit breaker open"), 0, Some(CircuitOpen))
    ensures r.error == Some(CircuitOpen)
       <==> old(circuit.mode).Open? && now - old(circuit.lastFailure) < circuit.config.resetTimeout
    ensures r.error == Some(CircuitOpen) ==>
              && circuit.View() == old(circuit.View())
              && r.decision.action == "log" && r.decision.command == "" && r.attempts == 0
  {
    var allowed := circuit.Allow(now);
    if !allowed {
      return Outcome(Fallback("circuit breaker open"), 0, Some(CircuitOpen));
    }
    ReturnedIsNotRefused(JudgeAll(script, json), 0, None);
    r := Loop(circuit, script, json, endAt);
  }

  /** Only a refused call has the breaker's error. */
  lemma {:induction false} ReturnedIsNotRefused(tries: seq<Try>, k: nat, lastErr: Option<CallError>)
    requires k <= |tries| && lastErr != Some(CircuitOpen)
    ensures Returned(tries, k, lastErr).error != Some(CircuitOpen)
    decreases |tries| - k
  {
    if k < |tries| {
      match tries[k].verdict
      case NoTransport =>
        ReturnedIsNotRefused(tries, k + 1, Some(AttemptFailed(k + 1, true)));
      case Unparseable =>
        ReturnedIsNotRefused(tries, k + 1, Some(AttemptFailed(k + 1, false)));
      case _ =>
    }
  }

  // ----- what may come of an attempt

  /** The transport fails. */
  ghost predicate Down(a: Attempt) {
    !a.cancelled && a.think.TransportError?
  }

  /** There is a reply, but no decision can be read from it. */
  ghost predicate Garbled(a: Attempt, json: Json) {
    !a.cancelled && a.think.Reply? && ParseDecision(a.think.raw, json).Err?
  }

  /** There is a reply, and `d` is the decision read from it. */
  ghost predicate Accepts(a: Attempt, d: Decision, json: Json) {
    !a.cancelled && a.think.Reply? && ParseDecision(a.think.raw, json) == Ok(d)
  }

  /** Nothing comes of any of the first `k` attempts. */
  ghost predicate Fruitless(script: seq<Attempt>, k: nat, json: Json)
    requires k <= |script|
  {
    forall i :: 0 <= i < k ==> Down(script[i]) || Garbled(script[i], json)
  }

  /** At how many of the first `k` attempts the transport fails. */
  ghost function Downs(script: seq<Attempt>, k: nat): nat
    requires k <= |script|
  {
    if k == 0 then 0 else Downs(script, k - 1) + if Down(script[k - 1]) then 1 else 0
  }

  lemma {:induction false} AllDown(script: seq<Attempt>, k: nat)
    requires k <= |script| && forall i :: 0 <= i < k ==> Down(script[i])
    ensures Downs(script, k) == k
  {
    if k > 0 {
      AllDown(script, k - 1);
    }
  }

  lemma {:induction false} NoneDown(script: seq<Attempt>, k: nat)
    requires k <= |script| && forall i :: 0 <= i < k ==> !Down(script[i])
    ensures Downs(script, k) == 0
  {
    if k > 0 {
      NoneDown(script, k - 1);
    }
  }

  /** Of the first `k` attempts, `j` is the last whose transport fails. */
  ghost predicate IsLastDown(script: seq<Attempt>, j: nat, k: nat)
    requires k <= |script|
  {
    j < k && Down(script[j]) && forall i :: j < i < k ==> !Down(script[i])
  }

  /** Attempt `m` is the first that is not fruitless: it has the reply whose decision `d` is. */
  ghost predicate Replied(script: seq<Attempt>, m: nat, d: Decision, json: Json) {
    m < |script| && Accepts(script[m], d, json) && Fruitless(script, m, json)
  }

  /** Attempt `m` is the first that is not fruitless: the context is cancelled by then. */
  ghost predicate CutOff(script: seq<Attempt>, m: nat, json: Json) {
    m < |script| && script[m].cancelled && Fruitless(script, m, json)
  }

  // ----- what a call does to the breaker

  function TransportFailures(tries: seq<Try>, k: nat): (failures: seq<Event>)
    requires k <= |tries|
    ensures forall i :: 0 <= i < |failures| ==> failures[i].Failure?
  {
    if k == 0 then []
    else if tries[k - 1].verdict.NoTransport? then TransportFailures(tries, k - 1) + [Failure(tries[k - 1].at)]
    else TransportFailures(tries, k - 1)
  }

  /** Attempts `0..k` neither succeeded nor were cancelled. */
  ghost predicate AllFailed(tries: seq<Try>, k: nat)
    requires k <= |tries|
  {
    forall i :: 0 <= i < k ==> tries[i].verdict.NoTransport? || tries[i].verdict.Unparseable?
  }

  lemma {:induction false} FailedPrefix(tries: seq<Try>, k: nat, endAt: int)
    requires k <= |tries| && AllFailed(tries, k)
    ensures Events(tries, 0, endAt) == TransportFailures(tries, k) + Events(tries, k, endAt)
    ensures Returned(tries, 0, None)
         == Returned(tries, k, if k == 0 then None else Some(AttemptFailed(k, tries[k - 1].verdict.NoTransport?)))
  {
    if k > 0 {
      FailedPrefix(tries, k - 1, endAt);
    }
  }

  /** What the verdict says of the attempt. */
  lemma VerdictMeans(a: Attempt, json: Json)
    ensures var verdict := Judge(a, json);
            && (verdict.Cancelled? <==> a.cancelled)
            && (verdict.NoTransport? <==> Down(a))
            && (verdict.Unparseable? <==> Garbled(a, json))
            && (verdict.Accepted? ==> Accepts(a, verdict.decision, json))
            && forall d :: Accepts(a, d, json) ==> verdict == Accepted(d)
  {
  }

  lemma {:induction false} CountedDowns(script: seq<Attempt>, tries: seq<Try>, k: nat)
    requires |tries| == |script| && k <= |script|
    requires forall i :: 0 <= i < k ==>
               tries[i].at == script[i].at && (tries[i].verdict.NoTransport? <==> Down(script[i]))
    ensures |TransportFailures(tries, k)| == Downs(script, k)
    ensures forall j: nat :: IsLastDown(script, j, k) ==>
              var failures := TransportFailures(tries, k);
              failures != [] && failures[|failures| - 1] == Failure(script[j].at)
  {
    if k > 0 {
      CountedDowns(script, tries, k - 1);
      forall j: nat | IsLastDown(script, j, k)
        ensures var failures := TransportFailures(tries, k);
                failures != [] && failures[|failures| - 1] == Failure(script[j].at)
      {
        assert j < k - 1 ==> IsLastDown(script, j, k - 1);
      }
    }
  }

  lemma JudgedPrefix(script: seq<Attempt>, k: nat, json: Json)
    requires k <= |script| && Fruitless(script, k, json)
    ensures var tries := JudgeAll(script, json);
            && AllFailed(tries, k)
            && forall i :: 0 <= i < k ==>
                 tries[i].at == script[i].at && (tries[i].verdict.NoTransport? <==> Down(script[i]))
  {
    var tries := JudgeAll(script, json);
    forall i | 0 <= i < k
      ensures tries[i].at == script[i].at && (tries[i].verdict.NoTransport? <==> Down(script[i]))
      ensures tries[i].verdict.NoTransport? || tries[i].verdict.Unparseable?
    {
      VerdictMeans(script[i], json);
    }
  }

  /** What a call has reported and has as its error once nothing has come of its first `k` attempts. */
  lemma FruitlessPrefix(script: seq<Attempt>, k: nat, json: Json, endAt: int)
    returns (tries: seq<Try>, failures: seq<Event>)
    requires k <= |script| && Fruitless(script, k, json)
    ensures tries == JudgeAll(script, json) && |tries| == |script|
    ensures forall i :: 0 <= i < |failures| ==> failures[i].Failure?
    ensures Events(tries, 0, endAt) == failures + Events(tries, k, endAt)
    ensures |failures| == Downs(script, k)
    ensures forall j: nat :: IsLastDown(script, j, k) ==>
              failures != [] && failures[|failures| - 1] == Failure(script[j].at)
    ensures Returned(tries, 0, None)
         == Returned(tries, k, if k == 0 then None else Some(AttemptFailed(k, Down(script[k - 1]))))
  {
    JudgedPrefix(script, k, json);
    tries := JudgeAll(script, json);
    failures := TransportFailures(tries, k);
    FailedPrefix(tries, k, endAt);
    CountedDowns(script, tries, k);
  }

  /**
   What the breaker looks like after an admitted call that reported `failed` failures, the last of them at `at`: it is
   open exactly when the call was a probe or the failures reached the limit.
   */
  ghost predicate HasFailed(c: Config, b: Breaker, after: Breaker, failed: nat, at: int) {
    && after.failures == b.failures + failed && after.lastFailure == at && !after.mode.HalfOpen?
    && (after.mode.Open? <==> !b.mode.Closed? || c.maxFailures <= b.failures + failed)
  }

  lemma FailuresOnly(c: Config, b: Breaker, now: int, failures: seq<Event>)
    requires Admits(c, b, now) && failures != [] && forall i :: 0 <= i < |failures| ==> failures[i].Failure?
    ensures HasFailed(c, b, Run(c, Step(c, b, Event.Allow(now)), failures), |failures|, failures[|failures| - 1].at)
  {
    AfterFailures(c, Step(c, b, Event.Allow(now)), failures);
  }

  lemma FailedTries(c: Config, b: Breaker, now: int, tries: seq<Try>, failures: seq<Event>, endAt: int)
    requires Admits(c, b, now) && forall i :: 0 <= i < |failures| ==> failures[i].Failure?
    requires Events(tries, 0, endAt) == failures + Events(tries, |tries|, endAt)
    ensures HasFailed(c, b, Run(c, Step(c, b, Event.Allow(now)), Events(tries, 0, endAt)), |failures| + 1, endAt)
  {
    FailuresOnly(c, b, now, failures + [Failure(endAt)]);
  }

  /** What the loop returns when it gives up. */
  lemma GivenUp(tries: seq<Try>, lastErr: Option<CallError>)
    ensures var r := Returned(tries, |tries|, lastErr);
            r.decision.action == "log" && r.decision.command == "" && r.attempts == |tries| && r.error == lastErr
  {
  }

  lemma FailedReturn(script: seq<Attempt>, json: Json)
    requires Fruitless(script, |script|, json)
    ensures var r := Returned(JudgeAll(script, json), 0, None);
            && r.decision.action == "log" && r.decision.command == "" && r.attempts == |script|
            && r.error == if script == [] then None else Some(AttemptFailed(|script|, Down(script[|script| - 1])))
  {
    var tries, failures := FruitlessPrefix(script, |script|, json, 0);
    GivenUp(tries, if script == [] then None else Some(AttemptFailed(|script|, Down(script[|script| - 1]))));
  }

  /**
   An admitted call of which nothing comes counts each attempt whose transport failed and one failure more, whatever the
   other replies were, and returns a decision that only logs, with the error of the last attempt.
   */
  lemma FailedCall(c: Config, b: Breaker, call: Call, json: Json)
    requires Admits(c, b, call.now) && Fruitless(call.script, |call.script|, json)
    ensures HasFailed(c, b, AfterCall(c, b, call, json), Downs(call.script, |call.script|) + 1, call.endAt)
    ensures var script, r := call.script, Returned(JudgeAll(call.script, json), 0, None);
            && r.decision.action == "log" && r.decision.command == "" && r.attempts == |script|
            && r.error == if script == [] then None
                          else Some(AttemptFailed(|script|, Down(script[|script| - 1])))
  {
    FailedReturn(call.script, json);
    var tries, failures := FruitlessPrefix(call.script, |call.script|, json, call.endAt);
    FailedTries(c, b, call.now, tries, failures, call.endAt);
  }

  /**
   When the transport is down for every attempt, a call that the breaker lets through counts them all and one more, and
   leaves it open exactly when the call was a probe or the limit is at most all the failures counted so far.
   */
  lemma OutageOpensBreakerIff(c: Config, b: Breaker, call: Call, json: Json)
    requires Admits(c, b, call.now)
    requires forall i :: 0 <= i < |call.script| ==> Down(call.script[i])
    ensures var after := AfterCall(c, b, call, json);
            && after.failures == b.failures + |call.script| + 1 && after.lastFailure == call.endAt
            && !after.mode.HalfOpen?
            && (after.mode.Open? <==> !b.mode.Closed? || c.maxFailures <= b.failures + |call.script| + 1)
  {
    AllDown(call.script, |call.script|);
    FailedCall(c, b, call, json);
  }

  /** Replies that no decision can be read from count as one failure altogether, however many attempts they take. */
  lemma UnparseableCountsOnce(c: Config, b: Breaker, call: Call, json: Json)
    requires Admits(c, b, call.now)
    requires forall i :: 0 <= i < |call.script| ==> Garbled(call.script[i], json)
    ensures var after := AfterCall(c, b, call, json);
            && after.failures == b.failures + 1 && after.lastFailure == call.endAt && !after.mode.HalfOpen?
            && (after.mode.Open? <==> !b.mode.Closed? || c.maxFailures <= b.failures + 1)
  {
    NoneDown(call.script, |call.script|);
    FailedCall(c, b, call, json);
  }

  lemma SuccessAfterFailures(c: Config, b: Breaker, now: int, failures: seq<Event>, at: int)
    requires Admits(c, b, now)
    requires forall i :: 0 <= i < |failures| ==> failures[i].Failure?
    ensures var after := Run(c, Step(c, b, Event.Allow(now)), failures + [Success(at)]);
            && after.failures == 0
            && (after.mode.Closed? || after.mode.Open?)
            && (after.mode.Closed? <==> failures == [] || (b.mode.Closed? && b.failures + |failures| < c.maxFailures))
            && after.lastFailure == if failures == [] then b.lastFailure else failures[|failures| - 1].at
  {
    var admitted := Step(c, b, Event.Allow(now));
    AfterFailures(c, admitted, failures);
    RunConcat(c, admitted, failures, [Success(at)]);
    RunOne(c, Run(c, admitted, failures), Success(at));
  }

  /**
   An admitted call that succeeds at attempt `k` clears the counter and returns the decision of that attempt, but leaves
   the breaker closed exactly when its earlier transport failures had not opened it: a success recorded while the
   breaker is open does not close it. The latest of those failures is the one remembered.
   */
  lemma SucceedingCall(c: Config, b: Breaker, call: Call, k: nat, d: Decision, json: Json)
    requires Admits(c, b, call.now) && Replied(call.script, k, d, json)
    ensures var after, failed := AfterCall(c, b, call, json), Downs(call.script, k);
            && after.failures == 0
            && (after.mode.Closed? || after.mode.Open?)
            && (after.mode.Closed? <==> failed == 0 || (b.mode.Closed? && b.failures + failed < c.maxFailures))
            && (failed == 0 ==> after.lastFailure == b.lastFailure)
            && (forall j: nat :: IsLastDown(call.script, j, k) ==> after.lastFailure == call.script[j].at)
    ensures Returned(JudgeAll(call.script, json), 0, None) == Outcome(d, k + 1, None)
  {
    var tries, failures := FruitlessPrefix(call.script, k, json, call.endAt);
    VerdictMeans(call.script[k], json);
    SuccessAfterFailures(c, b, call.now, failures, call.script[k].at);
  }

  lemma CancelledTries(
      c: Config, b: Breaker, now: int, tries: seq<Try>, failures: seq<Event>, k: nat, endAt: int)
    requires Admits(c, b, now) && k < |tries| && tries[k].verdict.Cancelled?
    requires forall i :: 0 <= i < |failures| ==> failures[i].Failure?
    requires Events(tries, 0, endAt) == failures + Events(tries, k, endAt)
    ensures HasFailed(c, b, Run(c, Step(c, b, Event.Allow(now)), Events(tries, 0, endAt)), |failures| + 1, tries[k].at)
  {
    FailuresOnly(c, b, now, failures + [Failure(tries[k].at)]);
  }

  lemma CancelledReturn(script: seq<Attempt>, k: nat, json: Json)
    requires CutOff(script, k, json)
    ensures var r := Returned(JudgeAll(script, json), 0, None);
            && r.decision.action == "log" && r.decision.command == ""
            && r.attempts == k + 1 && r.error == Some(ContextCancelled)
  {
    var tries, failures := FruitlessPrefix(script, k, json, 0);
    VerdictMeans(script[k], json);
    assert tries[k].verdict.Cancelled?;
  }

  /** An admitted call cancelled before attempt `k` counts its transport failures and one more, and only logs. */
  lemma CancelledCall(c: Config, b: Breaker, call: Call, k: nat, json: Json)
    requires Admits(c, b, call.now) && CutOff(call.script, k, json)
    ensures HasFailed(c, b, AfterCall(c, b, call, json), Downs(call.script, k) + 1, call.script[k].at)
    ensures var r := Returned(JudgeAll(call.script, json), 0, None);
            && r.decision.action == "log" && r.decision.command == ""
            && r.attempts == k + 1 && r.error == Some(ContextCancelled)
  {
    var tries, failures := FruitlessPrefix(call.script, k, json, call.endAt);
    VerdictMeans(call.script[k], json);
    assert tries[k] == Try(Cancelled, call.script[k].at);
    CancelledTries(c, b, call.now, tries, failures, k, call.endAt);
    CancelledReturn(call.script, k, json);
  }

  /** Every call is of one of the three kinds, so that the three laws above cover them all. */
  lemma {:induction false} EveryCallIsOfAKind(script: seq<Attempt>, json: Json, k: nat) returns (m: nat)
    requires k <= |script| && Fruitless(script, k, json)
    ensures m <= |script| && Fruitless(script, m, json)
    ensures m == |script| || CutOff(script, m, json) || exists d :: Replied(script, m, d, json)
    decreases |script| - k
  {
    if k == |script| || script[k].cancelled {
      return k;
    }
    if script[k].think.Reply? && ParseDecision(script[k].think.raw, json).Ok? {
      assert Replied(script, k, ParseDecision(script[k].think.raw, json).decision, json);
      return k;
    }
    assert Down(script[k]) || Garbled(script[k], json);
    m := EveryCallIsOfAKind(script, json, k + 1);
  }

  /**
   Whatever happens in a call, what it returns either only logs or is the safe decision of the first of its own replies
   that is one.
   */
  lemma CallIsSafe(script: seq<Attempt>, json: Json) returns (m: nat)
    ensures var r := Returned(JudgeAll(script, json), 0, None);
            || (r.decision.action == "log" && r.decision.command == "")
            || (IsSafe(r.decision) && Replied(script, m, r.decision, json) && r.attempts == m + 1 && r.error.None?)
  {
    m := EveryCallIsOfAKind(script, json, 0);
    var tries, failures := FruitlessPrefix(script, m, json, 0);
    if m < |script| {
      VerdictMeans(script[m], json);
      if !CutOff(script, m, json) {
        AcceptedReplyIsSafe(script[m].think.raw, json);
      }
    }
  }

  // ----- many calls

  /** The breaker after the first `k` calls. */
  function AfterCalls(c: Config, b: Breaker, calls: seq<Call>, json: Json, k: nat): Breaker
    requires k <= |calls|
  {
    if k == 0 then b else AfterCall(c, AfterCalls(c, b, calls, json, k - 1), calls[k - 1], json)
  }

  /** When those of the first `k` calls that reach the model are made. */
  function Admitted(c: Config, b: Breaker, calls: seq<Call>, json: Json, k: nat): (times: seq<int>)
    requires k <= |calls|
    ensures |times| <= k
  {
    if k == 0 then []
    else
      var earlier, now := Admitted(c, b, calls, json, k - 1), calls[k - 1].now;
      if Admits(c, AfterCalls(c, b, calls, json, k - 1), now) then earlier + [now] else earlier
  }

  // ----- calls one after the other

  lemma {:induction false} CallReports(c: Config, b: Breaker, tries: seq<Try>, k: nat, endAt: int)
    requires k <= |tries|
    ensures !Run(c, b, Events(tries, k, endAt)).mode.HalfOpen?
    decreases |tries| - k
  {
    if k == |tries| {
      RunOne(c, b, Failure(endAt));
    } else {
      var at := tries[k].at;
      match tries[k].verdict
      case Cancelled =>
        RunOne(c, b, Failure(at));
      case NoTransport =>
        CallReports(c, Step(c, b, Failure(at)), tries, k + 1, endAt);
        RunStep(c, b, Failure(at), Events(tries, k + 1, endAt));
      case Unparseable =>
        CallReports(c, b, tries, k + 1, endAt);
      case Accepted(_) =>
        RunOne(c, b, Success(at));
    }
  }

  /** A whole call, whatever comes of it, always reports: it leaves no breaker half-open that it did not find so. */
  lemma CallEndsPeriod(c: Config, b: Breaker, call: Call, json: Json)
    ensures !AfterCall(c, b, call, json).mode.HalfOpen?
  {
    if Admits(c, b, call.now) {
      CallReports(c, Step(c, b, Event.Allow(call.now)), JudgeAll(call.script, json), 0, call.endAt);
    }
  }

  /** What the breaker sees of the first `k` calls when each ends before the next one starts. */
  function Trace(c: Config, b: Breaker, calls: seq<Call>, json: Json, k: nat): seq<Event>
    requires k <= |calls|
  {
    if k == 0 then []
    else
      var call := calls[k - 1];
      Trace(c, b, calls, json, k - 1) + [Event.Allow(call.now)]
      + if Admits(c, AfterCalls(c, b, calls, json, k - 1), call.now) then Reports(call, json) else []
  }

  lemma {:induction false} TraceRuns(c: Config, b: Breaker, calls: seq<Call>, json: Json, k: nat)
    requires k <= |calls|
    ensures Run(c, b, Trace(c, b, calls, json, k)) == AfterCalls(c, b, calls, json, k)
  {
    if k > 0 {
      TraceRuns(c, b, calls, json, k - 1);
      var before, call := AfterCalls(c, b, calls, json, k - 1), calls[k - 1];
      var asked := Trace(c, b, calls, json, k - 1) + [Event.Allow(call.now)];
      RunConcat(c, b, Trace(c, b, calls, json, k - 1), [Event.Allow(call.now)]);
      RunOne(c, before, Event.Allow(call.now));
      if Admits(c, before, call.now) {
        RunConcat(c, b, asked, Reports(call, json));
      } else {
        assert asked + [] == asked;
      }
    }
  }

  lemma {:induction false} EventsAreReports(tries: seq<Try>, k: nat, endAt: int)
    requires k <= |tries|
    ensures forall i :: 0 <= i < |Events(tries, k, endAt)| ==> IsReport(Events(tries, k, endAt)[i])
    decreases |tries| - k
  {
    if k < |tries| {
      EventsAreReports(tries, k + 1, endAt);
    }
  }

  lemma CallsEndPeriods(c: Config, calls: seq<Call>, json: Json, k: nat)
    requires k <= |calls|
    ensures !AfterCalls(c, FRESH, calls, json, k).mode.HalfOpen?
  {
    if k > 0 {
      CallEndsPeriod(c, AfterCalls(c, FRESH, calls, json, k - 1), calls[k - 1], json);
    }
  }

  /** Of the events of a call only the first is one on the breaker's `Allow`. */
  lemma CallStarts(c: Config, b: Breaker, calls: seq<Call>, json: Json, k: nat, q: nat)
    requires 0 < k <= |calls| && q < |Trace(c, b, calls, json, k)| && Trace(c, b, calls, json, k)[q].Allow?
    ensures q <= |Trace(c, b, calls, json, k - 1)|
    ensures Trace(c, b, calls, json, k)[..q] == Trace(c, b, calls, json, k - 1)[..q]
    ensures q < |Trace(c, b, calls, json, k - 1)| ==> Trace(c, b, calls, json, k - 1)[q].Allow?
  {
    EventsAreReports(JudgeAll(calls[k - 1].script, json), 0, calls[k - 1].endAt);
  }

  lemma NoProbeBetweenCalls(c: Config, calls: seq<Call>, json: Json, k: nat)
    requires k <= |calls|
    ensures !Run(c, FRESH, Trace(c, FRESH, calls, json, k)).mode.HalfOpen?
  {
    TraceRuns(c, FRESH, calls, json, k);
    CallsEndPeriods(c, calls, json, k);
  }

  /** No call of a sequence meets a half-open breaker. */
  lemma {:induction false} CallsMeetNoProbe(c: Config, calls: seq<Call>, json: Json, k: nat, q: nat)
    requires 0 < k <= |calls| && q < |Trace(c, FRESH, calls, json, k)| && Trace(c, FRESH, calls, json, k)[q].Allow?
    ensures !Run(c, FRESH, Trace(c, FRESH, calls, json, k)[..q]).mode.HalfOpen?
  {
    CallStarts(c, FRESH, calls, json, k, q);
    if q < |Trace(c, FRESH, calls, json, k - 1)| {
      assert k > 1;
      CallsMeetNoProbe(c, calls, json, k - 1, q);
    } else {
      assert Trace(c, FRESH, calls, json, k - 1)[..q] == Trace(c, FRESH, calls, json, k - 1);
      NoProbeBetweenCalls(c, calls, json, k - 1);
    }
  }

  /**
   Calls made one after the other, whatever comes of them, probe alone: each half-open period lets one call through.
   */
  lemma OneByOneProbesAlone(c: Config, calls: seq<Call>, json: Json, p: nat, r: nat)
    requires var events := Trace(c, FRESH, calls, json, |calls|);
             && IsProbe(c, events, p) && p < r <= |events| && (r < |events| ==> IsReport(events[r]))
             && forall k :: p < k < r ==> !IsReport(events[k])
    ensures AdmittedBetween(c, Trace(c, FRESH, calls, json, |calls|), p, r) == 1
  {
    var events := Trace(c, FRESH, calls, json, |calls|);
    HalfOpenAdmitsEveryCall(c, events, p, r);
    if r > p + 1 {
      CallsOfPeriod(c, events, p, p + 1);
      CallsMeetNoProbe(c, calls, json, |calls|, p + 1);
      assert false;
    }
  }

  // ----- an outage

  /** The transport is down: each of the `attempts` attempts of every call fails in it. */
  ghost predicate Outage(calls: seq<Call>, attempts: nat) {
    forall i :: 0 <= i < |calls| ==>
      |calls[i].script| == attempts && forall k :: 0 <= k < attempts ==> Down(calls[i].script[k])
  }

  /** No call starts before the one before it has ended. */
  ghost predicate OneByOne(calls: seq<Call>) {
    && (forall i :: 0 <= i < |calls| ==> calls[i].now <= calls[i].endAt)
    && (forall i, j :: 0 <= i < j < |calls| ==> calls[i].endAt <= calls[j].now)
  }

  lemma OneMoreCall(n: nat, attempts: nat)
    requires n > 0
    ensures n * (attempts + 1) == (n - 1) * (attempts + 1) + attempts + 1
  {
  }

  /**
   In an outage a closed breaker is still closed after `k` calls exactly when the failures of those calls, the attempts
   of each and one more, stay below the limit; until then every call has gone through.
   */
  lemma {:induction false} OutageClosedIff(c: Config, b: Breaker, calls: seq<Call>, json: Json, attempts: nat, k: nat)
    requires Outage(calls, attempts) && k <= |calls| && b.mode.Closed?
    ensures var after := AfterCalls(c, b, calls, json, k);
            && (after.mode.Closed? <==> k == 0 || b.failures + k * (attempts + 1) < c.maxFailures)
            && (after.mode.Closed? ==>
                  after.failures == b.failures + k * (attempts + 1) && |Admitted(c, b, calls, json, k)| == k)
  {
    if k > 0 {
      OutageClosedIff(c, b, calls, json, attempts, k - 1);
      OneMoreCall(k, attempts);
      var before := AfterCalls(c, b, calls, json, k - 1);
      if Admits(c, before, calls[k - 1].now) {
        OutageOpensBreakerIff(c, before, calls[k - 1], json);
      }
    }
  }

  /**
   What is known of the breaker and the calls let through at any point of an outage: no more than `most` while closed,
   the latest no later than the latest failure, and each beyond `most` a timeout after the one before.
   */
  ghost predicate Spaced(c: Config, b: Breaker, after: Breaker, times: seq<int>, most: nat) {
    && (after.mode.HalfOpen? ==> times == [])
    && (after.mode.Closed? ==> b.mode.Closed? && |times| < most)
    && (times != [] ==>
          && times[0] <= times[|times| - 1] <= after.lastFailure
          && (|times| - most) * c.resetTimeout <= times[|times| - 1] - times[0])
  }

  lemma MoreCallsFailMore(n: nat, most: nat, attempts: nat)
    ensures n >= most ==> n * (attempts + 1) >= most * (attempts + 1)
  {
    if n >= most {
      assert n * (attempts + 1) == most * (attempts + 1) + (n - most) * (attempts + 1);
    }
  }

  lemma OneMoreAdmitted(timeout: nat, count: nat, most: nat, earlier: int, gap: int)
    requires count > most ==> gap >= timeout
    requires (count - 1 - most) * timeout <= earlier && 0 <= earlier && 0 <= gap
    ensures (count - most) * timeout <= earlier + gap
  {
    if count > most {
      assert (count - most) * timeout == (count - 1 - most) * timeout + timeout;
    } else {
      assert (count - most) * timeout <= 0;
    }
  }

  /** One more admitted call keeps the spacing. */
  lemma AdmittedKeepsSpacing(
      c: Config, b: Breaker, before: Breaker, after: Breaker, times: seq<int>, now: int, most: nat)
    requires most >= 1 && c.resetTimeout >= 0
    requires Spaced(c, b, before, times, most) && Admits(c, before, now) && (times != [] ==> before.lastFailure <= now)
    requires !after.mode.HalfOpen? && now <= after.lastFailure
    requires after.mode.Closed? ==> b.mode.Closed? && |times| + 1 < most
    ensures Spaced(c, b, after, times + [now], most)
  {
    var longer := times + [now];
    if times == [] {
      assert (1 - most) * c.resetTimeout <= 0;
    } else {
      var last := times[|times| - 1];
      OneMoreAdmitted(c.resetTimeout, |longer|, most, last - times[0], now - last);
    }
  }

  lemma {:induction false} OutageSpacing(
      c: Config, b: Breaker, calls: seq<Call>, json: Json, attempts: nat, most: nat, k: nat)
    requires Outage(calls, attempts) && OneByOne(calls) && k <= |calls|
    requires c.resetTimeout >= 0 && most >= 1
    requires b.mode.Closed? ==> c.maxFailures <= b.failures + most * (attempts + 1)
    ensures Spaced(c, b, AfterCalls(c, b, calls, json, k), Admitted(c, b, calls, json, k), most)
    ensures Admitted(c, b, calls, json, k) != [] ==> AfterCalls(c, b, calls, json, k).lastFailure <= calls[k - 1].endAt
  {
    if k > 0 {
      OutageSpacing(c, b, calls, json, attempts, most, k - 1);
      var before, after := AfterCalls(c, b, calls, json, k - 1), AfterCalls(c, b, calls, json, k);
      var call := calls[k - 1];
      assert k > 1 ==> calls[k - 2].endAt <= call.now;
      if Admits(c, before, call.now) {
        OutageOpensBreakerIff(c, before, call, json);
        if after.mode.Closed? {
          OutageClosedIff(c, b, calls, json, attempts, k);
          MoreCallsFailMore(k, most, attempts);
        }
        AdmittedKeepsSpacing(c, b, before, after, Admitted(c, b, calls, json, k - 1), call.now, most);
      }
    }
  }

  /**
   However often it is called, an outage lets at most span / timeout plus `most` calls through to the model, where
   `most` is enough calls for a closed breaker to reach its limit (one is enough for any other).
   */
  lemma OutageRate(c: Config, b: Breaker, calls: seq<Call>, json: Json, attempts: nat, most: nat)
    requires Outage(calls, attempts) && OneByOne(calls)
    requires c.resetTimeout >= 0 && most >= 1
    requires b.mode.Closed? ==> c.maxFailures <= b.failures + most * (attempts + 1)
    ensures var times := Admitted(c, b, calls, json, |calls|);
            times != [] ==> (|times| - most) * c.resetTimeout <= times[|times| - 1] - times[0]
  {
    OutageSpacing(c, b, calls, json, attempts, most, |calls|);
  }
}
