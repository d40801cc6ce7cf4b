/**
 The protocol with time, for deployments that rely on the lease alone: no takeover and no deletion.
 Times are in nanoseconds.

 Hypotheses beyond those of module Protocol:
 - H-TICK    A tick of the heartbeat ticker is served as soon as it is due and the loop is free, and the
             wait for an update ends by its timeout.
 - H-EXPIRY  The entry expires no earlier than TTL after its last write, and is not deleted.
 - H-CONTEXT A context ends only through Stop, and an acquisition happens only under a live context.
 - H-PROMPT  The Get that only logs who took over (heartbeat.go:137) takes no time; there is no health checker.
 A demotion by the validation loop, the watcher or the caller may happen at any moment, and an update
 may fail at any moment, with a permanent or a transient error, whether or not it reaches the store.
 */
module Lease {
  import opened Store
  import opened Protocol

  const SECOND: int := 1_000_000_000

  datatype Timing = Timing(hb: int, ttl: int) {
    predicate Valid() {
      0 < hb && 0 < ttl
    }

    /** How long the heartbeat loop waits for one update. */
    function UpdateTimeout(): int {
      if hb / 2 < SECOND then SECOND else hb / 2
    }

    /** The longest time between the service of one tick and that of the next. */
    function Period(): int {
      if hb < UpdateTimeout() then UpdateTimeout() else hb
    }

    /** The longest time that a leader stays leader after it sent its last successful update. */
    function Hold(): int {
      3 * Period() + UpdateTimeout()
    }

    /** The first time after s at which a ticker started at epoch fires. */
    function NextFire(epoch: int, s: int): int
      requires 0 < hb
    {
      epoch + hb * ((s - epoch) / hb + 1)
    }
  }

  datatype Phase = Idle | Awaiting(start: int, beat: nat)

  /**
   A running heartbeat loop: when its ticker was started, when the next tick is due, how many updates
   failed in a row, what it is doing, and whether the context that it was started with is live.  `base`
   is a history variable: when the last update that succeeded was sent, or the term acquired.
   */
  datatype Loop = Loop(epoch: int, due: int, fails: nat, phase: Phase, live: bool, base: int)

  datatype Clock = Clock(live: bool, loop: Option<Loop>)

  datatype TState = TState(p: State, now: int, lastWrite: int, clocks: seq<Clock>)

  datatype TStep =
    | Advance(to: int)
    | TAcquire(i: nat, token: nat)
    | Serve(i: nat)
    | Reach(h: nat)
    | Deliver(i: nat)
    | Miss(i: nat)
    | Refuse(i: nat)
    | TDemote(i: nat)
    | TObserve(i: nat, id: nat, rev: nat)
    | Start(i: nat)
    | Stop(i: nat)
    | Leave(i: nat)
    | Expire
    | TOtherKeyWrite

  function TInit(c: Config): TState {
    TState(Init(c), 0, 0, seq(|c|, _ => Clock(false, None)))
  }

  predicate Running(s: TState, i: nat) {
    i < |s.clocks| && s.clocks[i].loop.Some?
  }

  predicate Waiting(s: TState, i: nat) {
    Running(s, i) && s.clocks[i].loop.value.phase.Awaiting?
  }

  /** Time may not pass a tick that is due or the end of a wait. */
  predicate MayReach(tm: Timing, loop: Loop, to: int) {
    match loop.phase
    case Idle => to <= loop.due
    case Awaiting(start, _) => to <= start + tm.UpdateTimeout()
  }

  /** The protocol step that a timed step takes first, if any. */
  function Inner(s: TState, step: TStep): Option<Step> {
    match step
    case TAcquire(i, token) => Some(Acquire(i, token))
    case Serve(i) => if i < |s.p.insts| && s.p.insts[i].isLeader then Some(BeatSend(i)) else None
    case Reach(h) => Some(BeatApply(h))
    case Deliver(i) => if Waiting(s, i) then Some(BeatResult(s.clocks[i].loop.value.phase.beat)) else None
    case Miss(i) => if Waiting(s, i) then Some(BeatTimeout(s.clocks[i].loop.value.phase.beat)) else None
    case Refuse(i) => if Waiting(s, i) then Some(BeatTimeout(s.clocks[i].loop.value.phase.beat)) else None
    case TDemote(i) => Some(Protocol.Demote(i))
    case TObserve(i, id, rev) => Some(Protocol.Observe(i, id, rev))
    case Stop(i) => Some(Protocol.Demote(i))
    case Expire => Some(Remove)
    case TOtherKeyWrite => Some(OtherKeyWrite)
    case _ => None
  }

  predicate TEnabled(c: Config, tm: Timing, s: TState, step: TStep) {
    && |s.clocks| == |s.p.insts| == |c|
    && (Inner(s, step).Some? ==> Enabled(c, s.p, Inner(s, step).value))
    && (match step
        case Advance(to) =>
          s.now < to && forall i :: 0 <= i < |c| && s.clocks[i].loop.Some? ==> MayReach(tm, s.clocks[i].loop.value, to)
        case TAcquire(i, _) => s.clocks[i].live
        case Serve(i) => Running(s, i) && s.clocks[i].loop.value.phase.Idle? && s.clocks[i].loop.value.due <= s.now
        case Deliver(i) => Waiting(s, i) && s.p.beats[s.clocks[i].loop.value.phase.beat].outcome.Applied?
        case Miss(i) => Waiting(s, i)
        case Refuse(i) => Waiting(s, i)
        case Start(i) => i < |c| && !s.clocks[i].live
        case Stop(i) => s.clocks[i].live
        case Leave(i) => Running(s, i) && !s.clocks[i].loop.value.live
        case Expire => s.p.cell.entry.Some? && s.lastWrite + tm.ttl <= s.now
        case _ => true)
  }

  function SetLoop(s: TState, i: nat, loop: Option<Loop>): TState
    requires i < |s.clocks|
  {
    s.(clocks := s.clocks[i := s.clocks[i].(loop := loop)])
  }

  function TApply(c: Config, tm: Timing, s: TState, step: TStep): TState
    requires tm.Valid() && TEnabled(c, tm, s, step)
  {
    var s1 := if Inner(s, step).Some? then s.(p := Apply(c, s.p, Inner(s, step).value)) else s;
    match step
    case Advance(to) => s.(now := to)
    case TAcquire(i, _) =>
      if s.p.cell.Absent() then
        SetLoop(s1.(lastWrite := s.now), i, Some(Loop(s.now, s.now + tm.hb, 0, Idle, true, s.now)))
      else s1
    case Serve(i) =>
      var loop := s.clocks[i].loop.value;
      if s.p.insts[i].isLeader then
        SetLoop(s1, i, Some(loop.(due := tm.NextFire(loop.epoch, s.now), phase := Awaiting(s.now, |s.p.beats|))))
      else SetLoop(s1, i, None)
    case Reach(h) =>
      if s.p.cell.Matches(s.p.beats[h].rev) then s1.(lastWrite := s.now) else s1
    case Deliver(i) =>
      var loop := s.clocks[i].loop.value;
      SetLoop(s1, i, Some(loop.(fails := 0, phase := Idle, base := loop.phase.start)))
    case Miss(i) =>
      var loop := s.clocks[i].loop.value;
      if loop.fails + 1 >= 3 then SetLoop(s1.(p := Apply(c, s1.p, Protocol.Demote(i))), i, None)
      else SetLoop(s1, i, Some(loop.(fails := loop.fails + 1, phase := Idle)))
    case Refuse(i) => SetLoop(s1.(p := Apply(c, s1.p, Protocol.Demote(i))), i, None)
    case Start(i) => s.(clocks := s.clocks[i := s.clocks[i].(live := true)])
    case Stop(i) =>
      var loop := s.clocks[i].loop;
      var ended := if loop.Some? then Some(loop.value.(live := false)) else None;
      s1.(clocks := s.clocks[i := Clock(false, ended)])
    case Leave(i) => SetLoop(s, i, None)
    case _ => s1
  }

  datatype TRun = TRun(states: seq<TState>, steps: seq<TStep>)

  ghost predicate TNext(c: Config, tm: Timing, s: TState, step: TStep, s': TState)
    requires tm.Valid()
  {
    TEnabled(c, tm, s, step) && s' == TApply(c, tm, s, step)
  }

  ghost predicate IsTRun(c: Config, tm: Timing, r: TRun)
    requires tm.Valid()
  {
    && |r.states| == |r.steps| + 1
    && r.states[0] == TInit(c)
    && forall k :: 0 <= k < |r.steps| ==> TNext(c, tm, r.states[k], r.steps[k], r.states[k + 1])
  }

  ghost predicate AtMostOneLeader(s: TState) {
    forall i, j :: 0 <= i < j < |s.p.insts| ==> !(s.p.insts[i].isLeader && s.p.insts[j].isLeader)
  }
}
