/**
 The bound of module LeaseSafety is exact: for every TTL that does not exceed the hold time there is a
 run with two leaders.  In that run instance 0 keeps missing the replies to its updates, its entry
 expires, and instance 1 acquires the key just before instance 0 gives up.
 */
module LeaseTight {
  import opened Store
  import opened Protocol
  import opened Lease
  import LeaseSafety

  ghost function Last(r: TRun): TState
    requires r.states != []
  {
    r.states[|r.states| - 1]
  }

  lemma Extend(c: Config, tm: Timing, r: TRun, step: TStep) returns (r': TRun)
    requires tm.Valid() && IsTRun(c, tm, r) && TEnabled(c, tm, Last(r), step)
    ensures IsTRun(c, tm, r') && Last(r') == TApply(c, tm, Last(r), step)
  {
    r' := TRun(r.states + [TApply(c, tm, Last(r), step)], r.steps + [step]);
    forall k | 0 <= k < |r'.steps|
      ensures TNext(c, tm, r'.states[k], r'.steps[k], r'.states[k + 1])
    {
      if k < |r.steps| {
        assert TNext(c, tm, r.states[k], r.steps[k], r.states[k + 1]);
      }
    }
  }

  /**
   Instance 0 leads alone with the given loop; the last write was at lw; the update that it waits for,
   if any, has been applied or is still under way.
   */
  ghost predicate Solo(c: Config, s: TState, loop: Loop, now: int, lw: int, reached: bool) {
    && |c| >= 2 && |s.clocks| == |s.p.insts| == |c|
    && s.now == now && s.lastWrite == lw
    && s.p.insts[0].isLeader && s.p.drawn == {NO_TOKEN, 1}
    && s.clocks[0] == Clock(true, Some(loop))
    && s.clocks[1].live
    && (forall i :: 1 <= i < |c| ==> s.clocks[i].loop.None?)
    && s.p.cell.entry.Some?
    && (!reached ==> s.p.cell.Matches(s.p.insts[0].revision))
    && (loop.phase.Awaiting? ==>
          && loop.phase.beat < |s.p.beats|
          && var b := s.p.beats[loop.phase.beat];
             && b.inst == 0 && b.awaited
             && (if reached then b.outcome.Applied? && s.p.cell.Matches(b.outcome.newRev)
                 else b.outcome.InFlight? && b.rev == s.p.insts[0].revision))
  }

  ghost predicate SoloRun(c: Config, tm: Timing, r: TRun, loop: Loop, now: int, lw: int, reached: bool) {
    tm.Valid() && IsTRun(c, tm, r) && Solo(c, Last(r), loop, now, lw, reached)
  }

  lemma SetUp(c: Config, tm: Timing) returns (r: TRun)
    requires tm.Valid() && |c| >= 2
    ensures SoloRun(c, tm, r, Loop(0, tm.hb, 0, Idle, true, 0), 0, 0, false)
  {
    r := TRun([TInit(c)], []);
    r := Extend(c, tm, r, Start(0));
    r := Extend(c, tm, r, Start(1));
    r := Extend(c, tm, r, TAcquire(0, 1));
  }

  lemma Wait(c: Config, tm: Timing, r: TRun, loop: Loop, now: int, lw: int, reached: bool, to: int) returns (r': TRun)
    requires SoloRun(c, tm, r, loop, now, lw, reached) && now <= to && (now < to ==> MayReach(tm, loop, to))
    ensures SoloRun(c, tm, r', loop, to, lw, reached)
  {
    r' := r;
    if now < to {
      r' := Extend(c, tm, r, Advance(to));
    }
  }

  lemma Tick(c: Config, tm: Timing, r: TRun, loop: Loop, now: int, lw: int) returns (r': TRun, n: nat)
    requires SoloRun(c, tm, r, loop, now, lw, false) && loop.phase.Idle? && loop.due <= now
    ensures SoloRun(c, tm, r', loop.(due := tm.NextFire(loop.epoch, now), phase := Awaiting(now, n)), now, lw, false)
  {
    n := |Last(r).p.beats|;
    r' := Extend(c, tm, r, Serve(0));
  }

  lemma Refresh(c: Config, tm: Timing, r: TRun, loop: Loop, now: int, lw: int) returns (r': TRun)
    requires SoloRun(c, tm, r, loop, now, lw, false) && loop.phase.Awaiting?
    ensures SoloRun(c, tm, r', loop, now, now, true)
  {
    r' := Extend(c, tm, r, Reach(loop.phase.beat));
  }

  lemma Succeed(c: Config, tm: Timing, r: TRun, loop: Loop, now: int, lw: int) returns (r': TRun)
    requires SoloRun(c, tm, r, loop, now, lw, true) && loop.phase.Awaiting?
    ensures SoloRun(c, tm, r', loop.(fails := 0, phase := Idle, base := loop.phase.start), now, lw, false)
  {
    r' := Extend(c, tm, r, Deliver(0));
  }

  lemma Fail(c: Config, tm: Timing, r: TRun, loop: Loop, now: int, lw: int) returns (r': TRun)
    requires SoloRun(c, tm, r, loop, now, lw, false) && loop.phase.Awaiting? && loop.fails <= 1
    ensures SoloRun(c, tm, r', loop.(fails := loop.fails + 1, phase := Idle), now, lw, false)
  {
    r' := Extend(c, tm, r, Miss(0));
  }

  /** A whole tick at time t whose update is not answered before the timeout. */
  lemma LostTick(c: Config, tm: Timing, r: TRun, loop: Loop, now: int, lw: int, t: int) returns (r': TRun, loop': Loop)
    requires SoloRun(c, tm, r, loop, now, lw, false) && loop.phase.Idle?
    requires now <= t && loop.due <= t && (now < t ==> t <= loop.due)
    ensures SoloRun(c, tm, r', loop', t + tm.UpdateTimeout(), lw, false)
    ensures loop'.phase.Awaiting? && loop'.fails == loop.fails && loop'.epoch == loop.epoch
    ensures loop'.due == tm.NextFire(loop.epoch, t)
  {
    r' := Wait(c, tm, r, loop, now, lw, false, t);
    var n;
    r', n := Tick(c, tm, r', loop, t, lw);
    loop' := loop.(due := tm.NextFire(loop.epoch, t), phase := Awaiting(t, n));
    r' := Wait(c, tm, r', loop', t, lw, false, t + tm.UpdateTimeout());
  }

  lemma FiresOnMultiples(tm: Timing, k: nat)
    requires tm.Valid()
    ensures tm.NextFire(0, k * tm.hb) == (k + 1) * tm.hb
  {
    assert (k * tm.hb) / tm.hb == k by {
      var q := (k * tm.hb) / tm.hb;
      assert k * tm.hb == tm.hb * q + (k * tm.hb) % tm.hb;
      assert tm.hb * (k - q) == (k * tm.hb) % tm.hb;
      assert k - q >= 1 ==> tm.hb * (k - q) >= tm.hb;
      assert k - q <= -1 ==> tm.hb * (k - q) <= -tm.hb;
    }
  }

  /** Updates are answered or given up within one heartbeat interval: the ticks are hb apart. */
  lemma SlowTicks(c: Config, tm: Timing) returns (r: TRun, loop: Loop, now: int, lw: int)
    requires tm.Valid() && |c| >= 2 && tm.UpdateTimeout() <= tm.hb
    ensures SoloRun(c, tm, r, loop, now, lw, false) && now == lw + tm.Hold()
  {
    var (hb, u) := (tm.hb, tm.UpdateTimeout());
    r := SetUp(c, tm);
    loop := Loop(0, hb, 0, Idle, true, 0);
    FiresOnMultiples(tm, 1);
    FiresOnMultiples(tm, 2);
    r, loop := LostTick(c, tm, r, loop, 0, 0, hb);
    r := Fail(c, tm, r, loop, hb + u, 0);
    loop := loop.(fails := 1, phase := Idle);
    r, loop := LostTick(c, tm, r, loop, hb + u, 0, 2 * hb);
    r := Fail(c, tm, r, loop, 2 * hb + u, 0);
    loop := loop.(fails := 2, phase := Idle);
    r, loop := LostTick(c, tm, r, loop, 2 * hb + u, 0, 3 * hb);
    now, lw := 3 * hb + u, 0;
  }

  /** The timeout is longer than the interval: every tick is due already when the wait before it ends. */
  lemma FastTicks(c: Config, tm: Timing) returns (r: TRun, loop: Loop, now: int, lw: int)
    requires tm.Valid() && |c| >= 2 && tm.hb < tm.UpdateTimeout()
    ensures SoloRun(c, tm, r, loop, now, lw, false) && now == lw + tm.Hold()
  {
    var (hb, u) := (tm.hb, tm.UpdateTimeout());
    r := SetUp(c, tm);
    loop := Loop(0, hb, 0, Idle, true, 0);
    r := Wait(c, tm, r, loop, 0, 0, false, hb);
    var n;
    r, n := Tick(c, tm, r, loop, hb, 0);
    loop := loop.(due := tm.NextFire(0, hb), phase := Awaiting(hb, n));
    LeaseSafety.NextFireSoon(tm, 0, hb);
    LeaseSafety.NextFireSoon(tm, 0, hb + u);
    LeaseSafety.NextFireSoon(tm, 0, hb + 2 * u);
    r := Refresh(c, tm, r, loop, hb, 0);
    r := Wait(c, tm, r, loop, hb, hb, true, hb + u);
    r := Succeed(c, tm, r, loop, hb + u, hb);
    loop := loop.(fails := 0, phase := Idle, base := hb);
    r, loop := LostTick(c, tm, r, loop, hb + u, hb, hb + u);
    r := Fail(c, tm, r, loop, hb + 2 * u, hb);
    loop := loop.(fails := 1, phase := Idle);
    r, loop := LostTick(c, tm, r, loop, hb + 2 * u, hb, hb + 2 * u);
    r := Fail(c, tm, r, loop, hb + 3 * u, hb);
    loop := loop.(fails := 2, phase := Idle);
    r, loop := LostTick(c, tm, r, loop, hb + 3 * u, hb, hb + 3 * u);
    now, lw := hb + 4 * u, hb;
  }

  /** A TTL within the hold time allows two leaders at once. */
  lemma TwoLeaders(c: Config, tm: Timing) returns (r: TRun)
    requires tm.Valid() && |c| >= 2 && tm.ttl <= tm.Hold()
    ensures IsTRun(c, tm, r) && !AtMostOneLeader(Last(r))
  {
    var loop, now, lw;
    if tm.UpdateTimeout() <= tm.hb {
      r, loop, now, lw := SlowTicks(c, tm);
    } else {
      r, loop, now, lw := FastTicks(c, tm);
    }
    r := Extend(c, tm, r, Expire);
    r := Extend(c, tm, r, TAcquire(1, 2));
    var s := Last(r);
    assert s.p.insts[0].isLeader && s.p.insts[1].isLeader;
  }

  ghost predicate AlwaysOneLeader(c: Config, tm: Timing)
    requires tm.Valid()
  {
    forall r: TRun :: IsTRun(c, tm, r) ==> forall k :: 0 <= k < |r.states| ==> AtMostOneLeader(r.states[k])
  }

  /** The lease keeps leaders apart in every run exactly when the TTL exceeds the hold time. */
  lemma LeaseIff(c: Config, tm: Timing)
    requires tm.Valid() && |c| >= 2
    ensures AlwaysOneLeader(c, tm) <==> tm.Hold() < tm.ttl
  {
    if tm.Hold() < tm.ttl {
      forall r: TRun, k | IsTRun(c, tm, r) && 0 <= k < |r.states|
        ensures AtMostOneLeader(r.states[k])
      {
        LeaseSafety.OneLeader(c, tm, r, k);
      }
    } else {
      var r := TwoLeaders(c, tm);
      assert !AtMostOneLeader(r.states[|r.states| - 1]);
    }
  }

  /**
   The law in numbers.  From two seconds on, the TTL must exceed three and a half intervals; between one and
   two seconds, three intervals and a second; below that, four seconds.
   */
  lemma LeaseInNumbers(c: Config, hb: int, ttl: int)
    requires 0 < hb && 0 < ttl && |c| >= 2
    ensures 2_000_000_000 <= hb ==> (AlwaysOneLeader(c, Timing(hb, ttl)) <==> 3 * hb + hb / 2 < ttl)
    ensures 1_000_000_000 <= hb < 2_000_000_000 ==>
              (AlwaysOneLeader(c, Timing(hb, ttl)) <==> 3 * hb + 1_000_000_000 < ttl)
    ensures hb < 1_000_000_000 ==> (AlwaysOneLeader(c, Timing(hb, ttl)) <==> 4_000_000_000 < ttl)
  {
    LeaseIff(c, Timing(hb, ttl));
  }
}
