/**
 Retrying with backoff, with or without a circuit breaker.  The environment of a retry is a sequence of
 attempts: whether the context is done before the attempt or during the wait after it, what the
 function returns, how long it runs, and the random draw of the wait.  A retry that has used up the
 sequence is still running.
 */
module Retry {
  import opened Store
  import opened Errors
  import opened Backoff
  import B = Breaker

  datatype Attempt = Attempt(doneBefore: bool, err: Option<Error>, took: real, draw: real, doneInWait: bool)

  datatype RetryConfig = RetryConfig(maxAttempts: int, backoff: BackoffConfig)

  datatype Failure = ContextDone | CircuitOpen | Permanent(err: Error) | Exhausted(err: Error)

  datatype Outcome = Running | Done(failure: Option<Failure>)

  /** How a retry ended, how often the function ran, and the breaker afterwards. */
  datatype Result = Result(outcome: Outcome, ran: nat, breaker: Option<B.Breaker>)

  /** What the function or the breaker in front of it does at time t. */
  function Run(b: Option<B.Breaker>, t: real, a: Attempt): (Option<B.Breaker>, B.CallReply) {
    if b.None? then (b, B.Ran(a.err))
    else
      var (b', reply) := B.CallBreaker(b.value, B.Call(t, a.took, a.err));
      (Some(b'), reply)
  }

  /** Does the retry end with the error of this attempt, and how? */
  function Verdict(cfg: RetryConfig, b: Option<B.Breaker>, e: Error, attempt: nat): Option<Failure> {
    if b.Some? && e.text == B.OPEN_TEXT then Some(CircuitOpen)
    else if IsPermanent(Some(e)) then Some(Permanent(e))
    else if cfg.maxAttempts > 0 && attempt >= cfg.maxAttempts - 1 then Some(Exhausted(e))
    else None
  }

  /** The retry from attempt k, made at time t, to its end. */
  function RetryFrom(cfg: RetryConfig, b: Option<B.Breaker>, t: real, env: seq<Attempt>, k: nat): (r: Result)
    requires k <= |env|
    decreases |env| - k
  {
    if k == |env| then Result(Running, 0, b)
    else if env[k].doneBefore then Result(Done(Some(ContextDone)), 0, b)
    else
      var (b', reply) := Run(b, t, env[k]);
      if reply.Rejected? then Result(Done(Some(CircuitOpen)), 0, b')
      else if reply.err.None? then Result(Done(None), 1, b')
      else if Verdict(cfg, b, reply.err.value, k).Some? then Result(Done(Verdict(cfg, b, reply.err.value, k)), 1, b')
      else if env[k].doneInWait then Result(Done(Some(ContextDone)), 1, b')
      else
        var rest := RetryFrom(cfg, b', t + env[k].took + CalculateBackoff(cfg.backoff, k, env[k].draw), env, k + 1);
        rest.(ran := rest.ran + 1)
  }

  /** The retry loop; `breaker` is null when none is configured. */
  method RetryWithBackoff(cfg: RetryConfig, breaker: B.CircuitBreaker?, start: real, env: seq<Attempt>)
    returns (outcome: Outcome, ran: nat)
    modifies if breaker == null then {} else {breaker}
    ensures var b := if breaker == null then None else Some(old(breaker.View()));
            var b' := if breaker == null then None else Some(breaker.View());
            Result(outcome, ran, b') == RetryFrom(cfg, b, start, env, 0)
  {
    var attempt, t := 0, start;
    ran := 0;
    ghost var whole := RetryFrom(cfg, if breaker == null then None else Some(breaker.View()), start, env, 0);
    while attempt < |env|
      invariant 0 <= attempt <= |env|
      invariant var rest := RetryFrom(cfg, if breaker == null then None else Some(breaker.View()), t, env, attempt);
                whole == rest.(ran := ran + rest.ran)
    {
      var a := env[attempt];
      if a.doneBefore {
        return Done(Some(ContextDone)), ran;
      }
      var err := a.err;
      if breaker != null {
        var reply := breaker.Call(B.Call(t, a.took, a.err));
        if reply.Rejected? {
          return Done(Some(CircuitOpen)), ran;
        }
        err := reply.err;
        if err.Some? && err.value.text == B.OPEN_TEXT {
          return Done(Some(CircuitOpen)), ran + 1;
        }
      }
      if err.None? {
        return Done(None), ran + 1;
      }
      if IsPermanent(err) {
        return Done(Some(Permanent(err.value))), ran + 1;
      }
      if cfg.maxAttempts > 0 && attempt >= cfg.maxAttempts - 1 {
        return Done(Some(Exhausted(err.value))), ran + 1;
      }
      if a.doneInWait {
        return Done(Some(ContextDone)), ran + 1;
      }
      t := t + a.took + CalculateBackoff(cfg.backoff, attempt, a.draw);
      ran := ran + 1;
      attempt := attempt + 1;
    }
    return Running, ran;
  }

  /** When the n-th attempt after attempt k is made, if attempt k is made at time t. */
  ghost function TimeAt(cfg: RetryConfig, t: real, env: seq<Attempt>, k: nat, n: nat): real
    requires k + n <= |env|
    decreases n
  {
    if n == 0 then t
    else TimeAt(cfg, t + env[k].took + CalculateBackoff(cfg.backoff, k, env[k].draw), env, k + 1, n - 1)
  }

  /** The breaker's own error, which ends a retry behind a breaker. */
  ghost predicate SaysOpen(b: Option<B.Breaker>, a: Attempt) {
    b.Some? && a.err.Some? && a.err.value.text == "circuit breaker is open"
  }

  /** The run of attempt j leaves nothing to retry: a success, a permanent error, an open breaker, or the last run. */
  ghost predicate Final(cfg: RetryConfig, b: Option<B.Breaker>, env: seq<Attempt>, j: nat)
    requires j < |env|
  {
    env[j].err.None? || SaysOpen(b, env[j]) || IsPermanent(env[j].err) || 0 < cfg.maxAttempts <= j + 1
  }

  /** The retry goes on after attempt j. */
  ghost predicate GoesOn(cfg: RetryConfig, b: Option<B.Breaker>, env: seq<Attempt>, j: nat)
    requires j < |env|
  {
    !env[j].doneBefore && !Final(cfg, b, env, j) && !env[j].doneInWait
  }

  /**
   A retry retries.  It goes on after every run but the last, and how it ends is determined by the attempt at
   which it stopped: the error of the last run if that run was final, the end of the context if it came in
   the wait after the run or before the next one, the breaker if it is open and still cooling down when the
   next run is due - and it runs on as long as there is none of these.
   */
  ghost predicate EndsAsItShould(cfg: RetryConfig, b: Option<B.Breaker>, t: real, env: seq<Attempt>, k: nat, r: Result)
    requires k + r.ran <= |env|
  {
    var n := k + r.ran;
    var final := r.ran > 0 && Final(cfg, b, env, n - 1);
    var cut := (r.ran > 0 && env[n - 1].doneInWait) || (n < |env| && env[n].doneBefore);
    && (forall j :: k <= j < n - 1 ==> GoesOn(cfg, b, env, j))
    && (r.ran > 0 ==> !env[n - 1].doneBefore)
    && (r.outcome == Running <==> !final && !cut && n == |env|)
    && (r.outcome == Done(None) <==> r.ran > 0 && env[n - 1].err.None?)
    && (r.outcome == Done(Some(ContextDone)) <==> !final && cut)
    && (r.outcome == Done(Some(CircuitOpen)) <==>
          (r.ran > 0 && SaysOpen(b, env[n - 1])) || (!final && !cut && n < |env|))
    && (!final && !cut && n < |env| ==>
          && r.breaker.Some? && r.breaker.value.circuit.Open?
          && TimeAt(cfg, t, env, k, r.ran) - r.breaker.value.lastFailure < r.breaker.value.cooldown)
    && (forall e :: r.outcome == Done(Some(Permanent(e))) <==>
          r.ran > 0 && env[n - 1].err == Some(e) && !SaysOpen(b, env[n - 1]) && IsPermanent(Some(e)))
    && (forall e :: r.outcome == Done(Some(Exhausted(e))) <==>
          && r.ran > 0 && env[n - 1].err == Some(e) && !SaysOpen(b, env[n - 1]) && IsTransient(Some(e))
          && 0 < cfg.maxAttempts <= n)
  }

  lemma EndsLater(cfg: RetryConfig, b: Option<B.Breaker>, b': Option<B.Breaker>, t: real, env: seq<Attempt>, k: nat,
                  rest: Result)
    requires k < |env| && GoesOn(cfg, b, env, k) && b.Some? == b'.Some? && k + 1 + rest.ran <= |env|
    requires var t' := t + env[k].took + CalculateBackoff(cfg.backoff, k, env[k].draw);
             EndsAsItShould(cfg, b', t', env, k + 1, rest)
    ensures EndsAsItShould(cfg, b, t, env, k, rest.(ran := rest.ran + 1))
  {
    forall j | k <= j < k + rest.ran
      ensures GoesOn(cfg, b, env, j)
    {
      assert j > k ==> GoesOn(cfg, b', env, j);
    }
  }

  lemma EndsHere(cfg: RetryConfig, b: Option<B.Breaker>, t: real, env: seq<Attempt>, k: nat)
    requires k <= |env|
    requires k == |env| || !GoesOn(cfg, b, env, k) || Run(b, t, env[k]).1.Rejected?
    ensures var r := RetryFrom(cfg, b, t, env, k); k + r.ran <= |env| && EndsAsItShould(cfg, b, t, env, k, r)
  {
  }

  lemma {:induction false} EndsMean(cfg: RetryConfig, b: Option<B.Breaker>, t: real, env: seq<Attempt>, k: nat)
    requires k <= |env|
    ensures var r := RetryFrom(cfg, b, t, env, k); k + r.ran <= |env| && EndsAsItShould(cfg, b, t, env, k, r)
    decreases |env| - k
  {
    if k == |env| || !GoesOn(cfg, b, env, k) || Run(b, t, env[k]).1.Rejected? {
      EndsHere(cfg, b, t, env, k);
    } else {
      var b' := Run(b, t, env[k]).0;
      var t' := t + env[k].took + CalculateBackoff(cfg.backoff, k, env[k].draw);
      EndsMean(cfg, b', t', env, k + 1);
      EndsLater(cfg, b, b', t, env, k, RetryFrom(cfg, b', t', env, k + 1));
    }
  }

  /**
   The retry contract, with or without a breaker: the function runs on a prefix of the attempts, each
   run but the last one ended in a transient error, the result is nil exactly if the last run
   succeeded, and with a limit m > 0 there are at most m runs.
   */
  lemma RetryContract(cfg: RetryConfig, b: Option<B.Breaker>, t: real, env: seq<Attempt>, k: nat)
    requires k <= |env|
    ensures var r := RetryFrom(cfg, b, t, env, k);
            && k + r.ran <= |env|
            && (forall j :: k <= j < k + r.ran - 1 ==> IsTransient(env[j].err))
            && (r.outcome == Done(None) <==> r.ran > 0 && env[k + r.ran - 1].err.None?)
            && (r.outcome.Done? && r.outcome.failure.Some? && r.outcome.failure.value.Permanent? ==>
                  r.ran > 0 && IsPermanent(env[k + r.ran - 1].err))
            && (r.ran > 0 && IsPermanent(env[k + r.ran - 1].err) ==> r.outcome.Done? && r.outcome.failure.Some?)
            && (cfg.maxAttempts > 0 && k < cfg.maxAttempts ==> k + r.ran <= cfg.maxAttempts)
            && (cfg.maxAttempts > 0 && k + r.ran == cfg.maxAttempts && r.ran > 0 ==> r.outcome.Done?)
            && (r.outcome.Done? && r.outcome.failure.Some? && r.outcome.failure.value.Exhausted? && k < cfg.maxAttempts
                ==> k + r.ran == cfg.maxAttempts)
  {
    EndsMean(cfg, b, t, env, k);
    var n := k + RetryFrom(cfg, b, t, env, k).ran;
    assert k < n - 1 ==> GoesOn(cfg, b, env, n - 2);
    assert forall j :: k <= j < n - 1 && GoesOn(cfg, b, env, j) ==> IsTransient(env[j].err);
  }

  ghost predicate Draws(env: seq<Attempt>) {
    forall k :: 0 <= k < |env| ==> Draw(env[k].draw)
  }

  /** An open breaker whose cooldown is longer than any wait ends the retry at the next attempt. */
  lemma OpenEnds(cfg: RetryConfig, b: B.Breaker, t: real, env: seq<Attempt>, k: nat)
    requires k <= |env| && b.circuit.Open? && t - b.lastFailure < b.cooldown
    ensures var r := RetryFrom(cfg, Some(b), t, env, k); r.ran == 0 && (k < |env| ==> r.outcome.Done?)
  {
  }

  /** The wait after the failure that opens the breaker, whatever is drawn for it, is shorter than the cooldown. */
  ghost predicate CooldownOutlastsWait(cfg: RetryConfig, b: B.Breaker, k: nat)
    requires b.failures < b.threshold
  {
    forall draw :: Draw(draw) ==> CalculateBackoff(cfg.backoff, k + b.threshold - b.failures - 1, draw) < b.cooldown
  }

  lemma {:induction false} BreakerEndsFrom(cfg: RetryConfig, b: B.Breaker, t: real, env: seq<Attempt>, k: nat)
    requires k <= |env| && Draws(env) && cfg.maxAttempts <= 0
    requires b.circuit.Closed? && b.failures < b.threshold && CooldownOutlastsWait(cfg, b, k)
    ensures var r := RetryFrom(cfg, Some(b), t, env, k);
            && r.ran <= b.threshold - b.failures
            && (|env| - k > b.threshold - b.failures ==> r.outcome.Done?)
    decreases |env| - k
  {
    if k < |env| && !env[k].doneBefore {
      var (b', reply) := Run(Some(b), t, env[k]);
      if reply.Ran? && reply.err.Some? && Verdict(cfg, Some(b), reply.err.value, k).None? && !env[k].doneInWait {
        var t' := t + env[k].took + CalculateBackoff(cfg.backoff, k, env[k].draw);
        if b'.value.circuit.Closed? {
          BreakerEndsFrom(cfg, b'.value, t', env, k + 1);
        } else {
          OpenEnds(cfg, b'.value, t', env, k + 1);
        }
      }
    }
  }

  /** A retry without limit returns, and runs the function at most threshold - failures times. */
  ghost predicate EndsInTime(cfg: RetryConfig, b: B.Breaker) {
    forall t: real, env: seq<Attempt> :: Draws(env) ==>
      var r := RetryFrom(cfg, Some(b), t, env, 0);
      r.ran <= b.threshold - b.failures && (|env| > b.threshold - b.failures ==> r.outcome.Done?)
  }

  function Stubborn(draw: real): Attempt {
    Attempt(false, Some(Error("timed out", true, false, false, {})), 0.0, draw, false)
  }

  ghost predicate AllStubborn(env: seq<Attempt>, draw: real) {
    forall k :: 0 <= k < |env| ==> env[k] == Stubborn(draw)
  }

  /** If some wait lasts the cooldown out, the breaker lets one more run through. */
  lemma {:induction false} OneRunMore(cfg: RetryConfig, b: B.Breaker, t: real, env: seq<Attempt>, k: nat, draw: real)
    requires k <= |env| && AllStubborn(env, draw) && cfg.maxAttempts <= 0
    requires b.circuit.Closed? && b.failures < b.threshold && |env| == k + b.threshold - b.failures + 1
    requires b.cooldown <= CalculateBackoff(cfg.backoff, |env| - 2, draw)
    ensures RetryFrom(cfg, Some(b), t, env, k).ran == b.threshold - b.failures + 1
    decreases |env| - k
  {
    assert env[k] == Stubborn(draw);
    var (b', reply) := Run(Some(b), t, env[k]);
    var t' := t + env[k].took + CalculateBackoff(cfg.backoff, k, env[k].draw);
    if b'.value.circuit.Closed? {
      OneRunMore(cfg, b'.value, t', env, k + 1, draw);
    } else {
      assert k == |env| - 2 && env[k + 1] == Stubborn(draw);
      assert RetryFrom(cfg, b', t', env, k + 1).ran >= 1;
      assert RetryFrom(cfg, Run(b', t', env[k + 1]).0, t', env, k + 2).ran == 0;
    }
  }

  /**
   Unlimited retry ends behind a closed breaker, in every environment, exactly if the cooldown outlasts the
   one wait that follows the failure which opens the breaker.
   */
  lemma BreakerEndsRetryIff(cfg: RetryConfig, b: B.Breaker)
    requires cfg.maxAttempts <= 0 && b.circuit.Closed? && b.failures < b.threshold
    ensures EndsInTime(cfg, b) <==> CooldownOutlastsWait(cfg, b, 0)
  {
    if CooldownOutlastsWait(cfg, b, 0) {
      forall t: real, env: seq<Attempt> | Draws(env)
        ensures var r := RetryFrom(cfg, Some(b), t, env, 0);
                r.ran <= b.threshold - b.failures && (|env| > b.threshold - b.failures ==> r.outcome.Done?)
      {
        BreakerEndsFrom(cfg, b, t, env, 0);
      }
    } else {
      var draw :| Draw(draw) && CalculateBackoff(cfg.backoff, b.threshold - b.failures - 1, draw) >= b.cooldown;
      var env := seq(b.threshold - b.failures + 1, _ => Stubborn(draw));
      OneRunMore(cfg, b, 0.0, env, 0, draw);
      assert Draws(env);
    }
  }

  lemma LongCooldownOutlasts(cfg: RetryConfig, b: B.Breaker)
    requires cfg.backoff.Sane() && b.failures < b.threshold && cfg.backoff.MaxWait() < b.cooldown
    ensures CooldownOutlastsWait(cfg, b, 0)
  {
    var attempt := b.threshold - b.failures - 1;
    forall draw | Draw(draw)
      ensures CalculateBackoff(cfg.backoff, attempt, draw) < b.cooldown
    {
      BackoffWithin(cfg.backoff, attempt, draw);
    }
    assert 0 + b.threshold - b.failures - 1 == attempt;
  }

  /** A cooldown above MaxBackoff * (1 + Jitter) is enough for every breaker. */
  lemma LongCooldownEndsRetry(cfg: RetryConfig, b: B.Breaker)
    requires cfg.maxAttempts <= 0 && cfg.backoff.Sane() && b.circuit.Closed? && b.failures < b.threshold
    requires cfg.backoff.MaxWait() < b.cooldown
    ensures EndsInTime(cfg, b)
  {
    LongCooldownOutlasts(cfg, b);
    BreakerEndsRetryIff(cfg, b);
  }
}
