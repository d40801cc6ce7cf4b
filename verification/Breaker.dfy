/**
 The circuit breaker.  A call is an input: when it comes, how long the guarded function would run and
 what it would return.  Calls are serialised by the breaker's lock.
 */
module Breaker {
  import opened Store
  import opened Errors

  const OPEN_TEXT: string := "circuit breaker is open"

  datatype Circuit = Closed | Open | HalfOpen

  datatype Breaker = Breaker(threshold: int, cooldown: real, circuit: Circuit, failures: nat, lastFailure: real)

  datatype Call = Call(at: real, took: real, err: Option<Error>)

  datatype CallReply = Rejected | Ran(err: Option<Error>)

  function New(threshold: int, cooldown: real): Breaker {
    Breaker(threshold, cooldown, Closed, 0, 0.0)
  }

  /** What one call does to the breaker and returns. */
  function CallBreaker(b: Breaker, call: Call): (Breaker, CallReply) {
    if b.circuit.Open? && call.at - b.lastFailure < b.cooldown then (b, Rejected)
    else if call.err.None? then (b.(circuit := Closed, failures := 0), Ran(None))
    else
      var half := if b.circuit.Open? then HalfOpen else b.circuit;
      (b.(circuit := if b.failures + 1 >= b.threshold then Open else half, failures := b.failures + 1,
          lastFailure := call.at + call.took),
       Ran(call.err))
  }

  class CircuitBreaker {
    const failureThreshold: int
    const cooldownPeriod: real
    var circuit: Circuit
    var failures: nat
    var lastFailureTime: real

    ghost function View(): Breaker
      reads this
    {
      Breaker(failureThreshold, cooldownPeriod, circuit, failures, lastFailureTime)
    }

    constructor (threshold: int, cooldown: real)
      ensures View() == New(threshold, cooldown)
      ensures circuit == Closed && failures == 0 && failureThreshold == threshold && cooldownPeriod == cooldown
    {
      failureThreshold, cooldownPeriod := threshold, cooldown;
      circuit, failures, lastFailureTime := Closed, 0, 0.0;
    }

    method Call(call: Call) returns (reply: CallReply)
      modifies this
      ensures (View(), reply) == CallBreaker(old(View()), call)
      ensures reply.Rejected? <==> old(circuit).Open? && call.at - old(lastFailureTime) < cooldownPeriod
      ensures reply.Rejected? ==> View() == old(View())
      ensures reply.Ran? ==> reply.err == call.err
      ensures reply == Ran(None) ==> circuit == Closed && failures == 0 && lastFailureTime == old(lastFailureTime)
      ensures reply.Ran? && call.err.Some? ==>
                && failures == old(failures) + 1 && lastFailureTime == call.at + call.took
                && (failures >= failureThreshold ==> circuit == Open)
                && (failures < failureThreshold ==> circuit == if old(circuit).Open? then HalfOpen else old(circuit))
    {
      if circuit == Open {
        if call.at - lastFailureTime < cooldownPeriod {
          return Rejected;
        }
        circuit := HalfOpen;
      }
      if call.err.Some? {
        failures := failures + 1;
        lastFailureTime := call.at + call.took;
        if failures >= failureThreshold {
          circuit := Open;
        }
        return Ran(call.err);
      }
      failures := 0;
      circuit := Closed;
      return Ran(None);
    }
  }

  // ---------------------------------------------------------------------------------------------
  // Histories of calls
  // ---------------------------------------------------------------------------------------------

  ghost function At(b: Breaker, calls: seq<Call>, n: nat): Breaker
    requires n <= |calls|
  {
    if n == 0 then b else CallBreaker(At(b, calls, n - 1), calls[n - 1]).0
  }

  ghost function ReplyAt(b: Breaker, calls: seq<Call>, n: nat): CallReply
    requires n < |calls|
  {
    CallBreaker(At(b, calls, n), calls[n]).1
  }

  /** How often the guarded function ran, and failed, in the calls m, ..., n - 1. */
  ghost function RanFailures(b: Breaker, calls: seq<Call>, m: nat, n: nat): nat
    requires m <= n <= |calls|
  {
    if m == n then 0 else
      RanFailures(b, calls, m, n - 1)
      + var reply := ReplyAt(b, calls, n - 1); if reply.Ran? && reply.err.Some? then 1 else 0
  }

  ghost predicate RanOk(b: Breaker, calls: seq<Call>, n: nat)
    requires n < |calls|
  {
    ReplyAt(b, calls, n) == Ran(None)
  }

  ghost predicate Settled(b: Breaker) {
    && !b.circuit.HalfOpen?
    && (b.circuit.Open? ==> b.threshold <= b.failures)
    && (b.circuit.Closed? ==> b.failures < b.threshold || b.failures == 0)
  }

  /** Between calls the breaker is never half open, and it is open only after enough failures. */
  lemma {:induction false} NeverHalfOpen(threshold: int, cooldown: real, calls: seq<Call>, n: nat)
    requires n <= |calls|
    ensures Settled(At(New(threshold, cooldown), calls, n))
  {
    if n > 0 {
      NeverHalfOpen(threshold, cooldown, calls, n - 1);
    }
  }

  /** The failure count is the number of failures that ran since the last success, or since the start. */
  lemma {:induction false} FailuresSinceSuccess(threshold: int, cooldown: real, calls: seq<Call>, m: nat, n: nat)
    requires m <= n <= |calls|
    requires m == 0 || RanOk(New(threshold, cooldown), calls, m - 1)
    requires forall k :: m <= k < n ==> !RanOk(New(threshold, cooldown), calls, k)
    ensures At(New(threshold, cooldown), calls, n).failures == RanFailures(New(threshold, cooldown), calls, m, n)
  {
    if m < n {
      FailuresSinceSuccess(threshold, cooldown, calls, m, n - 1);
      assert !RanOk(New(threshold, cooldown), calls, n - 1);
    }
  }

  // ---------------------------------------------------------------------------------------------
  // Outages
  // ---------------------------------------------------------------------------------------------

  /** During the first n calls the function never succeeds, and each call comes after the one before it ended. */
  ghost predicate Outage(b: Breaker, calls: seq<Call>, n: nat)
    requires n <= |calls|
  {
    && (forall k :: 0 <= k < n ==> calls[k].err.Some? && 0.0 <= calls[k].took)
    && (forall k :: 0 < k < n ==> InOrder(b, calls, k))
  }

  ghost function Ended(b: Breaker, calls: seq<Call>, k: nat): real
    requires k < |calls|
  {
    if ReplyAt(b, calls, k).Ran? then calls[k].at + calls[k].took else calls[k].at
  }

  ghost predicate InOrder(b: Breaker, calls: seq<Call>, k: nat)
    requires 0 < k < |calls|
  {
    Ended(b, calls, k - 1) <= calls[k].at
  }

  ghost function Limit(threshold: int): nat {
    if threshold < 1 then 1 else threshold
  }

  /** The cooldowns that x executions in a row without success have to wait for. */
  ghost function Cooldowns(threshold: int, cooldown: real, x: nat): real {
    if x <= Limit(threshold) then 0.0 else Cooldowns(threshold, cooldown, x - 1) + cooldown
  }

  lemma {:induction false} CooldownsClosed(threshold: int, cooldown: real, x: nat)
    requires Limit(threshold) <= x
    ensures Cooldowns(threshold, cooldown, x) == (x - Limit(threshold)) as real * cooldown
  {
    if Limit(threshold) < x {
      CooldownsClosed(threshold, cooldown, x - 1);
      var y := x - Limit(threshold);
      assert y as real == (y - 1) as real + 1.0;
    }
  }

  /** After x failures of an outage that began at `start`; `now` is when the last call ended. */
  ghost predicate Paced(b: Breaker, start: real, now: real, x: nat) {
    && b.failures == x
    && b.circuit == (if x < Limit(b.threshold) then Closed else Open)
    && (x > 0 ==> start + Cooldowns(b.threshold, b.cooldown, x) <= b.lastFailure <= now)
  }

  lemma PacedStep(b: Breaker, start: real, now: real, x: nat, call: Call)
    requires Paced(b, start, now, x) && 0.0 < b.cooldown
    requires start <= now <= call.at && call.err.Some? && 0.0 <= call.took
    ensures var (b', reply) := CallBreaker(b, call);
            if reply.Rejected? then b' == b
            else
              && Paced(b', start, call.at + call.took, x + 1)
              && start + Cooldowns(b.threshold, b.cooldown, x + 1) <= call.at
  {
  }

  ghost predicate Fresh(b: Breaker) {
    b.circuit.Closed? && b.failures == 0
  }

  /** Where an outage stands after n calls. */
  ghost predicate OnPace(b: Breaker, calls: seq<Call>, n: nat)
    requires 0 < n <= |calls|
  {
    var (b', x) := (At(b, calls, n), RanFailures(b, calls, 0, n));
    && b'.threshold == b.threshold && b'.cooldown == b.cooldown
    && calls[0].at <= calls[n - 1].at <= Ended(b, calls, n - 1)
    && Paced(b', calls[0].at, Ended(b, calls, n - 1), x)
    && calls[0].at + Cooldowns(b.threshold, b.cooldown, x) <= calls[n - 1].at
  }

  lemma OutageStarts(b: Breaker, calls: seq<Call>)
    requires Fresh(b) && 0.0 < b.cooldown && 0 < |calls| && Outage(b, calls, 1)
    ensures OnPace(b, calls, 1)
  {
    assert calls[0].err.Some? && 0.0 <= calls[0].took;
    assert At(b, calls, 0) == b && RanFailures(b, calls, 0, 0) == 0;
    PacedStep(b, calls[0].at, calls[0].at, 0, calls[0]);
  }

  lemma OutageGoesOn(b: Breaker, calls: seq<Call>, n: nat)
    requires 0.0 < b.cooldown && 0 < n < |calls| && Outage(b, calls, n + 1) && OnPace(b, calls, n)
    ensures OnPace(b, calls, n + 1)
  {
    assert calls[n].err.Some? && 0.0 <= calls[n].took;
    assert InOrder(b, calls, n);
    PacedStep(At(b, calls, n), calls[0].at, Ended(b, calls, n - 1), RanFailures(b, calls, 0, n), calls[n]);
  }

  lemma {:induction false} OutagePace(b: Breaker, calls: seq<Call>, n: nat)
    requires Fresh(b) && 0.0 < b.cooldown && 0 < n <= |calls| && Outage(b, calls, n)
    ensures OnPace(b, calls, n)
  {
    if n == 1 {
      OutageStarts(b, calls);
    } else {
      OutagePace(b, calls, n - 1);
      OutageGoesOn(b, calls, n - 1);
    }
  }

  /**
   An outage of length d, entered with a closed breaker without failures, costs at most
   threshold + floor(d / cooldown) executions of the function, however many calls arrive.  A
   threshold below 1 counts as 1.
   */
  lemma OutageBound(b: Breaker, calls: seq<Call>, n: nat, d: real)
    requires Fresh(b) && 0.0 < b.cooldown && 0 < n <= |calls| && Outage(b, calls, n)
    requires calls[n - 1].at - calls[0].at <= d
    ensures RanFailures(b, calls, 0, n) <= Limit(b.threshold) + (d / b.cooldown).Floor
  {
    OutagePace(b, calls, n);
    ExecutionsWithin(b.threshold, b.cooldown, RanFailures(b, calls, 0, n), d);
  }

  lemma ExecutionsWithin(threshold: int, cooldown: real, x: nat, d: real)
    requires 0.0 < cooldown && 0.0 <= d && Cooldowns(threshold, cooldown, x) <= d
    ensures x <= Limit(threshold) + (d / cooldown).Floor
  {
    if Limit(threshold) <= x {
      CooldownsClosed(threshold, cooldown, x);
      Quotient(x - Limit(threshold), d, cooldown);
    } else {
      Quotient(0, d, cooldown);
    }
  }

  lemma Sign(x: real, y: real)
    requires 0.0 < y && 0.0 <= x * y
    ensures 0.0 <= x
  {
  }

  lemma Quotient(y: int, d: real, cooldown: real)
    requires 0.0 < cooldown && y as real * cooldown <= d
    ensures y <= (d / cooldown).Floor
  {
    var q := d / cooldown;
    assert (q - y as real) * cooldown == q * cooldown - y as real * cooldown;
    Sign(q - y as real, cooldown);
  }
}
