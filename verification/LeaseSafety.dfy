/**
 The timed lease argument: if the TTL exceeds the time that a leader can hold on without a successful
 update, then no two instances are leader at the same moment.
 */
module LeaseSafety {
  import opened Store
  import opened Protocol
  import opened Lease
  import H = Heartbeat
  import E = Errors

  /** Where the clock of a loop can stand after `fails` failures in a row. */
  ghost predicate OnTime(tm: Timing, loop: Loop, now: int) {
    && loop.epoch <= now
    && loop.fails <= 2
    && (match loop.phase
        case Idle =>
          && loop.due <= loop.base + loop.fails * tm.Period() + tm.hb
          && now <= loop.base + (loop.fails + 1) * tm.Period()
        case Awaiting(start, _) =>
          && loop.base <= start <= loop.base + (loop.fails + 1) * tm.Period()
          && start <= now <= start + tm.UpdateTimeout()
          && loop.due <= start + tm.hb)
  }

  /** The loop of instance i holds the lease: the entry is there, is its own, and was written since base. */
  ghost predicate HoldsLease(tm: Timing, s: TState, i: nat)
    requires i < |s.clocks| && s.clocks[i].loop.Some?
  {
    var loop := s.clocks[i].loop.value;
    && s.p.cell.entry.Some? && s.p.cell.entry.value.value.id == i
    && loop.base <= s.lastWrite
    && OnTime(tm, loop, s.now)
    && (loop.phase.Awaiting? ==>
          && loop.phase.beat < |s.p.beats|
          && s.p.beats[loop.phase.beat].inst == i
          && (s.p.beats[loop.phase.beat].outcome.Applied? ==> loop.phase.start <= s.lastWrite))
  }

  ghost predicate TInv(c: Config, tm: Timing, s: TState) {
    && Inv(c, s.p)
    && |s.clocks| == |c|
    && s.lastWrite <= s.now
    && (forall i :: 0 <= i < |c| && s.p.insts[i].isLeader ==> s.clocks[i].loop.Some? && s.clocks[i].loop.value.live)
    && (forall i :: 0 <= i < |c| && s.clocks[i].loop.Some? ==> HoldsLease(tm, s, i))
  }

  /** The next tick is the first multiple of the interval after s, counted from the start of the ticker. */
  lemma NextFireSoon(tm: Timing, epoch: int, s: int)
    requires tm.Valid()
    ensures s < tm.NextFire(epoch, s) <= s + tm.hb
    ensures exists m: int :: tm.NextFire(epoch, s) == epoch + tm.hb * m
  {
    var q := (s - epoch) / tm.hb;
    assert s - epoch == tm.hb * q + (s - epoch) % tm.hb;
    assert tm.NextFire(epoch, s) == epoch + tm.hb * q + tm.hb;
  }

  /** A loop that holds the lease has not outlived the hold time. */
  lemma WithinHold(tm: Timing, s: TState, i: nat)
    requires tm.Valid() && i < |s.clocks| && s.clocks[i].loop.Some? && HoldsLease(tm, s, i)
    ensures s.now <= s.lastWrite + tm.Hold()
  {
  }

  lemma AcquireKeeps(c: Config, tm: Timing, s: TState, i: nat, token: nat)
    requires tm.Valid() && TInv(c, tm, s) && TEnabled(c, tm, s, TAcquire(i, token))
    ensures TInv(c, tm, TApply(c, tm, s, TAcquire(i, token)))
  {
    InvKept(c, s.p, Acquire(i, token));
  }

  lemma ServeKeeps(c: Config, tm: Timing, s: TState, i: nat)
    requires tm.Valid() && TInv(c, tm, s) && TEnabled(c, tm, s, Serve(i))
    ensures TInv(c, tm, TApply(c, tm, s, Serve(i)))
  {
    assert HoldsLease(tm, s, i);
    NextFireSoon(tm, s.clocks[i].loop.value.epoch, s.now);
    if s.p.insts[i].isLeader {
      InvKept(c, s.p, BeatSend(i));
    }
  }

  lemma ReachKeeps(c: Config, tm: Timing, s: TState, h: nat)
    requires tm.Valid() && TInv(c, tm, s) && TEnabled(c, tm, s, Reach(h))
    ensures TInv(c, tm, TApply(c, tm, s, Reach(h)))
  {
    InvKept(c, s.p, BeatApply(h));
    assert BeatOk(c, s.p, s.p.beats[h]);
  }

  lemma DeliverKeeps(c: Config, tm: Timing, s: TState, i: nat)
    requires tm.Valid() && TInv(c, tm, s) && TEnabled(c, tm, s, Deliver(i))
    ensures TInv(c, tm, TApply(c, tm, s, Deliver(i)))
  {
    assert HoldsLease(tm, s, i);
    InvKept(c, s.p, Inner(s, Deliver(i)).value);
  }

  lemma MissKeeps(c: Config, tm: Timing, s: TState, i: nat)
    requires tm.Valid() && TInv(c, tm, s) && TEnabled(c, tm, s, Miss(i))
    ensures TInv(c, tm, TApply(c, tm, s, Miss(i)))
  {
    assert HoldsLease(tm, s, i);
    InvKept(c, s.p, Inner(s, Miss(i)).value);
    InvKept(c, Apply(c, s.p, Inner(s, Miss(i)).value), Protocol.Demote(i));
  }

  lemma RefuseKeeps(c: Config, tm: Timing, s: TState, i: nat)
    requires tm.Valid() && TInv(c, tm, s) && TEnabled(c, tm, s, Refuse(i))
    ensures TInv(c, tm, TApply(c, tm, s, Refuse(i)))
  {
    InvKept(c, s.p, Inner(s, Refuse(i)).value);
    InvKept(c, Apply(c, s.p, Inner(s, Refuse(i)).value), Protocol.Demote(i));
  }

  lemma ExpireKeeps(c: Config, tm: Timing, s: TState)
    requires tm.Valid() && tm.Hold() < tm.ttl
    requires TInv(c, tm, s) && TEnabled(c, tm, s, Expire)
    ensures TInv(c, tm, TApply(c, tm, s, Expire))
  {
    InvKept(c, s.p, Remove);
    forall i | 0 <= i < |c|
      ensures s.clocks[i].loop.None?
    {
      if s.clocks[i].loop.Some? {
        WithinHold(tm, s, i);
      }
    }
  }

  lemma AdvanceKeeps(c: Config, tm: Timing, s: TState, to: int)
    requires tm.Valid() && TInv(c, tm, s) && TEnabled(c, tm, s, Advance(to))
    ensures TInv(c, tm, TApply(c, tm, s, Advance(to)))
  {
  }

  lemma LocalKeeps(c: Config, tm: Timing, s: TState, step: TStep)
    requires step.Start? || step.Leave?
    requires tm.Valid() && TInv(c, tm, s) && TEnabled(c, tm, s, step)
    ensures TInv(c, tm, TApply(c, tm, s, step))
  {
  }

  lemma StopKeeps(c: Config, tm: Timing, s: TState, i: nat)
    requires tm.Valid() && TInv(c, tm, s) && TEnabled(c, tm, s, Stop(i))
    ensures TInv(c, tm, TApply(c, tm, s, Stop(i)))
  {
    InvKept(c, s.p, Protocol.Demote(i));
  }

  lemma OtherKeeps(c: Config, tm: Timing, s: TState, step: TStep)
    requires step.TDemote? || step.TObserve? || step.TOtherKeyWrite?
    requires tm.Valid() && TInv(c, tm, s) && TEnabled(c, tm, s, step)
    ensures TInv(c, tm, TApply(c, tm, s, step))
  {
    InvKept(c, s.p, Inner(s, step).value);
  }

  lemma TInvKept(c: Config, tm: Timing, s: TState, step: TStep)
    requires tm.Valid() && tm.Hold() < tm.ttl
    requires TInv(c, tm, s) && TEnabled(c, tm, s, step)
    ensures TInv(c, tm, TApply(c, tm, s, step))
  {
    match step
    case TAcquire(i, token) => AcquireKeeps(c, tm, s, i, token);
    case Serve(i) => ServeKeeps(c, tm, s, i);
    case Reach(h) => ReachKeeps(c, tm, s, h);
    case Deliver(i) => DeliverKeeps(c, tm, s, i);
    case Miss(i) => MissKeeps(c, tm, s, i);
    case Refuse(i) => RefuseKeeps(c, tm, s, i);
    case Advance(to) => AdvanceKeeps(c, tm, s, to);
    case Start(_) => LocalKeeps(c, tm, s, step);
    case Leave(_) => LocalKeeps(c, tm, s, step);
    case Stop(i) => StopKeeps(c, tm, s, i);
    case Expire => ExpireKeeps(c, tm, s);
    case _ => OtherKeeps(c, tm, s, step);
  }

  lemma {:induction false} TInvAlways(c: Config, tm: Timing, r: TRun, k: nat)
    requires tm.Valid() && tm.Hold() < tm.ttl && IsTRun(c, tm, r) && k < |r.states|
    ensures TInv(c, tm, r.states[k])
  {
    if k == 0 {
      InitInv(c);
    } else {
      TInvAlways(c, tm, r, k - 1);
      assert TNext(c, tm, r.states[k - 1], r.steps[k - 1], r.states[k - 1 + 1]);
      TInvKept(c, tm, r.states[k - 1], r.steps[k - 1]);
    }
  }

  /** Lease safety: every reachable state has at most one leader. */
  lemma OneLeader(c: Config, tm: Timing, r: TRun, k: nat)
    requires tm.Valid() && tm.Hold() < tm.ttl && IsTRun(c, tm, r) && k < |r.states|
    ensures AtMostOneLeader(r.states[k])
  {
    TInvAlways(c, tm, r, k);
  }

  /** A term is never started next to a heartbeat loop that is still running, not even one of the same instance. */
  lemma NoSecondLoop(c: Config, tm: Timing, r: TRun, k: nat, i: nat)
    requires tm.Valid() && tm.Hold() < tm.ttl && IsTRun(c, tm, r) && k < |r.steps|
    requires r.steps[k].TAcquire? && r.states[k].p.cell.Absent() && i < |c|
    ensures |r.states[k].clocks| == |c| && r.states[k].clocks[i].loop.None?
  {
    TInvAlways(c, tm, r, k);
    assert TNext(c, tm, r.states[k], r.steps[k], r.states[k + 1]);
  }

  // ---------------------------------------------------------------------------------------------
  // Refinement
  // ---------------------------------------------------------------------------------------------

  lemma ExtendRun(c: Config, u: Run, step: Step) returns (u': Run)
    requires IsRun(c, u) && Enabled(c, u.states[|u.states| - 1], step)
    ensures IsRun(c, u')
    ensures u'.states[|u'.states| - 1] == Apply(c, u.states[|u.states| - 1], step)
  {
    u' := Run(u.states + [Apply(c, u.states[|u.states| - 1], step)], u.steps + [step]);
    forall k | 0 <= k < |u'.steps|
      ensures Next(c, u'.states[k], u'.steps[k], u'.states[k + 1])
    {
      if k < |u.steps| {
        assert Next(c, u.states[k], u.steps[k], u.states[k + 1]);
      }
    }
  }

  /** Forgetting the clocks turns a timed run into a run of the protocol, so fencing holds with time as well. */
  lemma {:induction false} ForgetTime(c: Config, tm: Timing, r: TRun, k: nat) returns (u: Run)
    requires tm.Valid() && IsTRun(c, tm, r) && k < |r.states|
    ensures IsRun(c, u) && u.states[|u.states| - 1] == r.states[k].p
  {
    if k == 0 {
      u := Run([Init(c)], []);
    } else {
      u := ForgetTime(c, tm, r, k - 1);
      var (s, step) := (r.states[k - 1], r.steps[k - 1]);
      assert TNext(c, tm, s, step, r.states[k - 1 + 1]);
      if Inner(s, step).Some? {
        u := ExtendRun(c, u, Inner(s, step).value);
        if step.Refuse? || (step.Miss? && s.clocks[step.i].loop.value.fails + 1 >= 3) {
          u := ExtendRun(c, u, Protocol.Demote(step.i));
        }
      }
    }
  }

  /** The protocol half of every timed step. */
  lemma TimedStepProjects(c: Config, tm: Timing, s: TState, step: TStep)
    requires tm.Valid() && TEnabled(c, tm, s, step)
    ensures var p' := TApply(c, tm, s, step).p;
            match step
            case TAcquire(i, token) => p' == Apply(c, s.p, Acquire(i, token))
            case Serve(i) => p' == if s.p.insts[i].isLeader then Apply(c, s.p, BeatSend(i)) else s.p
            case Reach(h) => p' == Apply(c, s.p, BeatApply(h))
            case Deliver(i) => p' == Apply(c, s.p, BeatResult(s.clocks[i].loop.value.phase.beat))
            case Miss(i) =>
              var given := Apply(c, s.p, BeatTimeout(s.clocks[i].loop.value.phase.beat));
              p' == if s.clocks[i].loop.value.fails == 0 || s.clocks[i].loop.value.fails == 1 then given
                    else Apply(c, given, Protocol.Demote(i))
            case Refuse(i) =>
              p' == Apply(c, Apply(c, s.p, BeatTimeout(s.clocks[i].loop.value.phase.beat)), Protocol.Demote(i))
            case TDemote(i) => p' == Apply(c, s.p, Protocol.Demote(i))
            case TObserve(i, id, rev) => p' == Apply(c, s.p, Protocol.Observe(i, id, rev))
            case Stop(i) => p' == Apply(c, s.p, Protocol.Demote(i))
            case Expire => p' == Apply(c, s.p, Remove)
            case TOtherKeyWrite => p' == Apply(c, s.p, OtherKeyWrite)
            case Advance(_) => p' == s.p
            case Start(_) => p' == s.p
            case Leave(_) => p' == s.p
  {
  }

  /** The lease runs from the last write of the key: each write, and nothing else, renews it. */
  lemma LeaseRunsFromLastWrite(c: Config, tm: Timing, s: TState, step: TStep)
    requires tm.Valid() && Inv(c, s.p) && TEnabled(c, tm, s, step)
    ensures var s' := TApply(c, tm, s, step);
            s'.lastWrite == if s'.p.cell.entry.Some? && s'.p.cell.entry != s.p.cell.entry then s.now else s.lastWrite
  {
  }

  /** The steps with which a heartbeat loop ends, and the one with which it begins. */
  lemma LoopLives(c: Config, tm: Timing, s: TState, step: TStep, i: nat)
    requires tm.Valid() && TEnabled(c, tm, s, step) && i < |c|
    ensures var (before, after) := (s.clocks[i].loop, TApply(c, tm, s, step).clocks[i].loop);
            && (before.Some? && after.None? <==>
                  || (step == Serve(i) && !s.p.insts[i].isLeader)
                  || step == Leave(i)
                  || step == Refuse(i)
                  || (step == Miss(i) && before.value.fails >= 2))
            && (before.None? && after.Some? <==> before.None? && step.TAcquire? && step.i == i && s.p.cell.Absent())
  {
  }

  /** The update results that a timed step stands for. */
  ghost predicate StandsFor(step: TStep, update: H.Update) {
    || (step.Deliver? && update.Success?)
    || (step.Miss? && update.Failure? && E.IsTransient(Some(update.err)))
    || (step.Refuse? && update.Failure? && E.IsPermanent(Some(update.err)))
  }

  /** The loop of the timed model reacts to the result of an update as the heartbeat loop without a checker does. */
  lemma TimedLoopReacts(c: Config, tm: Timing, s: TState, step: TStep, update: H.Update)
    requires tm.Valid() && TEnabled(c, tm, s, step) && StandsFor(step, update)
    ensures var before := H.Counters(s.clocks[step.i].loop.value.fails, 0);
            var (n, verdict) := H.React(H.HbConfig(false, 0), before, H.Ticked(true, true, update));
            var s' := TApply(c, tm, s, step);
            && (verdict == H.Continue ==> s'.clocks[step.i].loop.Some? && s'.clocks[step.i].loop.value.fails == n.fails)
            && (verdict == H.StepDown ==> s'.clocks[step.i].loop.None? && !s'.p.insts[step.i].isLeader)
            && verdict != H.Leave
  {
    if update.Failure? {
      E.Partition(Some(update.err));
    }
  }

  /** The first tick of every loop comes one interval after its term began. */
  ghost predicate DueLater(tm: Timing, s: TState) {
    forall i :: 0 <= i < |s.clocks| && s.clocks[i].loop.Some? ==>
      s.clocks[i].loop.value.epoch + tm.hb <= s.clocks[i].loop.value.due
  }

  lemma DueStep(c: Config, tm: Timing, s: TState, step: TStep)
    requires tm.Valid() && TEnabled(c, tm, s, step) && DueLater(tm, s)
    ensures DueLater(tm, TApply(c, tm, s, step))
  {
    if step.Serve? {
      NextFireSoon(tm, s.clocks[step.i].loop.value.epoch, s.now);
    }
  }

  lemma {:induction false} AlwaysDueLater(c: Config, tm: Timing, r: TRun, k: nat)
    requires tm.Valid() && IsTRun(c, tm, r) && k < |r.states|
    ensures DueLater(tm, r.states[k])
  {
    if k > 0 {
      AlwaysDueLater(c, tm, r, k - 1);
      assert TNext(c, tm, r.states[k - 1], r.steps[k - 1], r.states[k - 1 + 1]);
      DueStep(c, tm, r.states[k - 1], r.steps[k - 1]);
    }
  }

  /** No heartbeat is sent earlier than one interval after its term began. */
  lemma NoEarlyBeat(c: Config, tm: Timing, r: TRun, k: nat, i: nat)
    requires tm.Valid() && IsTRun(c, tm, r) && k < |r.steps| && r.steps[k] == Serve(i)
    ensures Running(r.states[k], i) && r.states[k].clocks[i].loop.value.epoch + tm.hb <= r.states[k].now
  {
    AlwaysDueLater(c, tm, r, k);
    assert TNext(c, tm, r.states[k], r.steps[k], r.states[k + 1]);
  }

  /** Instance i is not leader, has no live context, and the loop that it may still have is told to end. */
  ghost predicate Down(s: TState, i: nat) {
    && i < |s.p.insts| == |s.clocks|
    && !s.p.insts[i].isLeader
    && !s.clocks[i].live
    && (s.clocks[i].loop.Some? ==> !s.clocks[i].loop.value.live)
  }

  lemma DownStep(c: Config, tm: Timing, s: TState, step: TStep, i: nat)
    requires tm.Valid() && TEnabled(c, tm, s, step) && Down(s, i) && step != Start(i)
    ensures Down(TApply(c, tm, s, step), i)
  {
    TimedStepProjects(c, tm, s, step);
    if Inner(s, step).Some? {
      StaysFollower(c, s.p, Inner(s, step).value, i);
    }
  }

  /** Only an acquisition or a takeover of its own makes an instance leader. */
  lemma StaysFollower(c: Config, s: State, step: Step, i: nat)
    requires Enabled(c, s, step) && i < |c| && !s.insts[i].isLeader
    requires !(step.Acquire? && step.i == i) && !step.TakeoverWrite?
    ensures i < |Apply(c, s, step).insts| && !Apply(c, s, step).insts[i].isLeader
  {
  }

  /** From a Stop until the next Start an instance is down. */
  lemma {:induction false} StoppedStaysDown(c: Config, tm: Timing, r: TRun, i: nat, j: nat, k: nat)
    requires tm.Valid() && IsTRun(c, tm, r) && j < k < |r.states| && r.steps[j] == Stop(i)
    requires forall m :: j < m < k ==> r.steps[m] != Start(i)
    ensures Down(r.states[k], i)
  {
    var (s, step) := (r.states[k - 1], r.steps[k - 1]);
    assert TNext(c, tm, s, step, r.states[k - 1 + 1]);
    if j < k - 1 {
      StoppedStaysDown(c, tm, r, i, j, k - 1);
      assert step != Start(i);
      DownStep(c, tm, s, step, i);
    }
  }
}
