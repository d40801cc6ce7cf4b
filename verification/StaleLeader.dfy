/**
 A leader that lost its entry cannot refresh anything, and its heartbeat loop steps down in time.
 */
module StaleLeader {
  import opened Store
  import opened Protocol
  import F = Fencing
  import H = Heartbeat

  /**
   The tick belongs to the run: a success that it sees is the result, delivered before step k, of a
   heartbeat that instance i sent at step j or later.
   */
  ghost predicate Reported(r: Run, i: nat, j: nat, k: nat, e: H.Event)
    requires k <= |r.steps| < |r.states|
  {
    e.Ticked? && e.update.Success? ==>
      exists a, b :: j <= a < b < k && Answered(r, i, a, b, e.update.rev)
  }

  /** Instance i sent a heartbeat at step a, and step b tells it that the store applied it as revision rev. */
  ghost predicate Answered(r: Run, i: nat, a: nat, b: nat, rev: nat)
    requires a < |r.steps| < |r.states| && b < |r.steps|
  {
    var h := |r.states[a].beats|;
    && r.steps[a] == BeatSend(i)
    && r.steps[b] == BeatResult(h)
    && h < |r.states[b].beats|
    && r.states[b].beats[h].outcome == Applied(rev)
  }

  /** Heartbeats are only ever added, and keep their sender. */
  lemma {:induction false} BeatsGrow(c: Config, r: Run, a: nat, k: nat, h: nat)
    requires IsRun(c, r) && a <= k < |r.states| && h < |r.states[a].beats|
    ensures h < |r.states[k].beats| && r.states[k].beats[h].inst == r.states[a].beats[h].inst
  {
    if a < k {
      BeatsGrow(c, r, a, k - 1, h);
      assert Next(c, r.states[k - 1], r.steps[k - 1], r.states[k - 1 + 1]);
    }
  }

  /** A heartbeat that counts as applied was applied by a step between its sending and now. */
  lemma {:induction false} AppliedBySomeStep(c: Config, r: Run, a: nat, k: nat, h: nat) returns (m: nat)
    requires IsRun(c, r) && a <= k < |r.states|
    requires |r.states[a].beats| <= h < |r.states[k].beats| && r.states[k].beats[h].outcome.Applied?
    ensures a <= m < k && F.BeatApplied(r, m) && F.BeatOf(r, m, r.states[k].beats[h].inst)
  {
    assert a < k;
    var s := r.states[k - 1];
    assert Next(c, s, r.steps[k - 1], r.states[k - 1 + 1]);
    if r.steps[k - 1] == BeatApply(h) {
      m := k - 1;
    } else {
      m := AppliedBySomeStep(c, r, a, k - 1, h);
    }
  }

  /** Instance i has no new term accepted in the steps j, ..., k - 1. */
  ghost predicate NotReelected(r: Run, i: nat, j: nat, k: nat)
    requires k <= |r.steps| < |r.states|
  {
    forall m :: j <= m < k ==> !(F.Accepts(r, m) && F.Owner(r.states[m + 1]) == Some(i))
  }

  /** After the loss no tick sees a success. */
  lemma NothingSucceeds(c: Config, r: Run, i: nat, j: nat, k: nat, e: H.Event)
    requires IsRun(c, r) && j <= k <= |r.steps| && F.Owner(r.states[j]) != Some(i) && NotReelected(r, i, j, k)
    requires Reported(r, i, j, k, e)
    ensures !(e.Ticked? && e.update.Success?)
  {
    if e.Ticked? && e.update.Success? {
      var a, b :| j <= a < b < k && Answered(r, i, a, b, e.update.rev);
      assert Next(c, r.states[a], r.steps[a], r.states[a + 1]);
      BeatsGrow(c, r, a + 1, b, |r.states[a].beats|);
      var m := AppliedBySomeStep(c, r, a, b, |r.states[a].beats|);
      F.NoWriteAfterLoss(c, r, i, j, k);
      assert false;
    }
  }

  /**
   Stale-leader bound.  At step j of the run the entry of instance i has been replaced or removed; p is the
   first tick that its heartbeat loop serves after that, with whatever failures it has counted by then.
   However the loop goes on until a new term of the instance is accepted, it ends within 3 * H ticks: it
   demotes the instance, whether the mismatch is classified as permanent or as transient, or it finds that
   the instance was demoted or stopped already.
   */
  lemma StepsDown(c: Config, r: Run, i: nat, j: nat, k: nat,
                  cfg: H.HbConfig, carried: H.int32, es: seq<H.Event>, p: nat)
    returns (tick: nat)
    requires IsRun(c, r) && j <= k <= |r.steps| && F.Owner(r.states[j]) != Some(i) && NotReelected(r, i, j, k)
    requires 0 <= carried < H.MAX_INT32 && p + 3 * H.Limit(cfg) <= |es| && H.Alive(cfg, carried, es, p)
    requires forall n :: p <= n < |es| ==> Reported(r, i, j, k, es[n])
    ensures p <= tick < p + 3 * H.Limit(cfg) && H.Alive(cfg, carried, es, tick)
    ensures H.VerdictAt(cfg, carried, es, tick) != H.Continue
    ensures match es[tick]
            case ContextDone => true
            case Ticked(leader, _, update) =>
              leader && !update.DoneInWait? ==> H.VerdictAt(cfg, carried, es, tick) == H.StepDown
  {
    forall n | p <= n < |es|
      ensures !H.UpdateOk(cfg, es[n])
    {
      NothingSucceeds(c, r, i, j, k, es[n]);
    }
    tick := H.FruitlessBound(cfg, carried, es, p);
  }

  /** With the store's own messages the first answered update after the loss demotes at once. */
  lemma FirstAnswerDemotes(cfg: H.HbConfig, n: H.Counters, fault: Fault, healthy: bool)
    requires fault.RevisionMismatch? || fault.KeyNotFound?
    requires cfg.checker ==> healthy
    ensures H.React(cfg, n, H.Ticked(true, healthy, H.Failure(H.Errors.Plain(Message(fault))))).1 == H.StepDown
  {
    H.Errors.LossIsPermanent(fault);
  }
}
