/**
 The heartbeat loop as a reaction to a sequence of events, and its declarative trace specification.
 The loop itself is the method Election.KvElection.HeartbeatLoop, which is proved to do what `React` says.
 */
module Heartbeat {
  import opened Store
  import opened Errors

  const MAX_INT32: int := 0x7fff_ffff
  const MIN_INT32: int := -0x8000_0000
  const MAX_FAILURES: nat := 3

  function ToInt32(x: int): (r: int)
    ensures MIN_INT32 <= r <= MAX_INT32
    ensures MIN_INT32 <= x <= MAX_INT32 ==> r == x
    ensures (x - r) % 0x1_0000_0000 == 0
  {
    (x - MIN_INT32) % 0x1_0000_0000 + MIN_INT32
  }

  type int32 = x: int | MIN_INT32 <= x <= MAX_INT32

  /** `checker`: is there a health checker?  `maxHealthFailures`: as configured, 0 or less for the default. */
  datatype HbConfig = HbConfig(checker: bool, maxHealthFailures: int) {
    function Threshold(): int {
      ToInt32(if maxHealthFailures <= 0 then 3 else maxHealthFailures)
    }
  }

  datatype Update = MarshalError | Success(rev: nat) | Failure(err: Error) | DoneInWait

  /** The context ends, or a tick comes: what the leader flag, the health check and the update would give. */
  datatype Event = ContextDone | Ticked(leader: bool, healthy: bool, update: Update)

  datatype Counters = Counters(fails: nat, health: int32)

  datatype Verdict = Continue | Leave | StepDown

  /** What one event does. */
  function React(cfg: HbConfig, n: Counters, e: Event): (Counters, Verdict) {
    if e.ContextDone? || !e.leader then (n, Leave)
    else if cfg.checker && !e.healthy then
      var health := ToInt32(n.health + 1);
      (n.(health := health), if health >= cfg.Threshold() then StepDown else Continue)
    else
      var m := if cfg.checker && n.health > 0 then n.(health := 0) else n;
      match e.update
      case MarshalError => (m.(fails := n.fails + 1), if n.fails + 1 >= MAX_FAILURES then StepDown else Continue)
      case DoneInWait => (m, Leave)
      case Success(_) => (m.(fails := 0), Continue)
      case Failure(err) =>
        if IsPermanent(Some(err)) then (m, StepDown)
        else (m.(fails := n.fails + 1), if n.fails + 1 >= MAX_FAILURES then StepDown else Continue)
  }

  /** The counters after the first k events of a term that began with the health count `carried`. */
  ghost function At(cfg: HbConfig, carried: int32, es: seq<Event>, k: nat): Counters
    requires k <= |es|
  {
    if k == 0 then Counters(0, carried) else React(cfg, At(cfg, carried, es, k - 1), es[k - 1]).0
  }

  ghost function VerdictAt(cfg: HbConfig, carried: int32, es: seq<Event>, k: nat): Verdict
    requires k < |es|
  {
    React(cfg, At(cfg, carried, es, k), es[k]).1
  }

  /** The loop is still running after the first k events. */
  ghost predicate Alive(cfg: HbConfig, carried: int32, es: seq<Event>, k: nat)
    requires k <= |es|
  {
    forall j :: 0 <= j < k ==> VerdictAt(cfg, carried, es, j) == Continue
  }

  // ---------------------------------------------------------------------------------------------
  // The trace specification, without counters
  // ---------------------------------------------------------------------------------------------

  ghost predicate Unhealthy(cfg: HbConfig, e: Event) {
    e.Ticked? && e.leader && cfg.checker && !e.healthy
  }

  /** The tick got as far as its update. */
  ghost predicate Updates(cfg: HbConfig, e: Event) {
    e.Ticked? && e.leader && !(cfg.checker && !e.healthy)
  }

  ghost predicate UpdateFailed(cfg: HbConfig, e: Event) {
    Updates(cfg, e) && (e.update.MarshalError? || e.update.Failure?)
  }

  ghost predicate UpdateOk(cfg: HbConfig, e: Event) {
    Updates(cfg, e) && e.update.Success?
  }

  ghost predicate PermanentError(cfg: HbConfig, e: Event) {
    Updates(cfg, e) && e.update.Failure? && IsPermanent(Some(e.update.err))
  }

  ghost predicate NoSuccess(cfg: HbConfig, es: seq<Event>, a: nat, k: nat)
    requires k <= |es|
  {
    forall j :: a <= j < k ==> !UpdateOk(cfg, es[j])
  }

  /** Tick k is a third failed update with no successful one in between. */
  ghost predicate ThirdFailure(cfg: HbConfig, es: seq<Event>, k: nat)
    requires k < |es|
  {
    UpdateFailed(cfg, es[k])
    && exists a, b :: 0 <= a < b < k && UpdateFailed(cfg, es[a]) && UpdateFailed(cfg, es[b]) && NoSuccess(cfg, es, a, k)
  }

  ghost predicate AllUnhealthy(cfg: HbConfig, es: seq<Event>, a: nat, k: nat)
    requires k <= |es|
  {
    forall j :: a <= j < k ==> Unhealthy(cfg, es[j])
  }

  ghost predicate RowEnds(cfg: HbConfig, es: seq<Event>, a: nat, k: nat)
    requires k < |es|
  {
    AllUnhealthy(cfg, es, a, k + 1)
  }

  /**
   Tick k makes the health count reach the threshold: it ends a row of that many unhealthy ticks, or
   the row reaches back to the start of the term and the carried count makes up for the rest.
   */
  ghost predicate HealthExhausted(cfg: HbConfig, carried: int32, es: seq<Event>, k: nat)
    requires k < |es|
  {
    && Unhealthy(cfg, es[k])
    && ((exists a :: 0 <= a <= k && RowEnds(cfg, es, a, k) && k + 1 - a >= cfg.Threshold())
        || (RowEnds(cfg, es, 0, k) && carried + k + 1 >= cfg.Threshold()))
  }

  ghost predicate MustDemote(cfg: HbConfig, carried: int32, es: seq<Event>, k: nat)
    requires k < |es|
  {
    PermanentError(cfg, es[k]) || ThirdFailure(cfg, es, k) || HealthExhausted(cfg, carried, es, k)
  }

  // ---------------------------------------------------------------------------------------------
  // The loop refines the specification
  // ---------------------------------------------------------------------------------------------

  /** What the update counter means: how many failures there are since the last success, up to two. */
  ghost predicate FailsMeans(cfg: HbConfig, es: seq<Event>, k: nat, fails: nat)
    requires k <= |es|
  {
    && fails <= 2
    && (fails == 0 ==> forall a :: 0 <= a < k && UpdateFailed(cfg, es[a]) ==> !NoSuccess(cfg, es, a, k))
    && (fails == 1 ==>
          && (exists a :: 0 <= a < k && UpdateFailed(cfg, es[a]) && NoSuccess(cfg, es, a, k))
          && (forall a, b :: 0 <= a < b < k && UpdateFailed(cfg, es[a]) && UpdateFailed(cfg, es[b]) ==>
                !NoSuccess(cfg, es, a, k)))
    && (fails == 2 ==>
          exists a, b :: 0 <= a < b < k && UpdateFailed(cfg, es[a]) && UpdateFailed(cfg, es[b])
                         && NoSuccess(cfg, es, a, k))
  }

  /** What the health count means: it is the length of the row of unhealthy ticks, plus the carried count. */
  ghost predicate HealthMeans(cfg: HbConfig, carried: int32, es: seq<Event>, k: nat, health: int)
    requires k <= |es|
  {
    && 0 <= health
    && (!cfg.checker ==> health == carried)
    && (cfg.checker ==>
          || (AllUnhealthy(cfg, es, 0, k) && health == carried + k)
          || (health < k && AllUnhealthy(cfg, es, k - health, k) && !Unhealthy(cfg, es[k - health - 1])))
  }

  lemma FailsStep(cfg: HbConfig, n: Counters, es: seq<Event>, k: nat)
    requires k < |es| && FailsMeans(cfg, es, k, n.fails) && React(cfg, n, es[k]).1 == Continue
    ensures FailsMeans(cfg, es, k + 1, React(cfg, n, es[k]).0.fails)
  {
    forall a | 0 <= a <= k
      ensures NoSuccess(cfg, es, a, k + 1) <==> NoSuccess(cfg, es, a, k) && !UpdateOk(cfg, es[k])
    {
    }
  }

  lemma HealthStep(cfg: HbConfig, carried: int32, n: Counters, es: seq<Event>, k: nat)
    requires k < |es| && 0 <= carried < MAX_INT32
    requires HealthMeans(cfg, carried, es, k, n.health) && n.health < MAX_INT32
    requires es[k].Ticked? && es[k].leader
    ensures HealthMeans(cfg, carried, es, k + 1, React(cfg, n, es[k]).0.health)
    ensures React(cfg, n, es[k]).1 == Continue ==> React(cfg, n, es[k]).0.health < MAX_INT32
  {
  }

  lemma {:induction false} CountersMean(cfg: HbConfig, carried: int32, es: seq<Event>, k: nat)
    requires k <= |es| && 0 <= carried < MAX_INT32 && Alive(cfg, carried, es, k)
    ensures FailsMeans(cfg, es, k, At(cfg, carried, es, k).fails)
    ensures HealthMeans(cfg, carried, es, k, At(cfg, carried, es, k).health)
    ensures At(cfg, carried, es, k).health < MAX_INT32
  {
    if k > 0 {
      CountersMean(cfg, carried, es, k - 1);
      assert VerdictAt(cfg, carried, es, k - 1) == Continue;
      FailsStep(cfg, At(cfg, carried, es, k - 1), es, k - 1);
      HealthStep(cfg, carried, At(cfg, carried, es, k - 1), es, k - 1);
    }
  }

  /** What the health count means when the loop has ended with event k: it is carried on to the next term. */
  lemma HealthAfter(cfg: HbConfig, carried: int32, es: seq<Event>, k: nat)
    requires k < |es| && 0 <= carried < MAX_INT32 && Alive(cfg, carried, es, k)
    ensures if es[k].Ticked? && es[k].leader
              then HealthMeans(cfg, carried, es, k + 1, At(cfg, carried, es, k + 1).health)
              else At(cfg, carried, es, k + 1).health == At(cfg, carried, es, k).health
  {
    CountersMean(cfg, carried, es, k);
    if es[k].Ticked? && es[k].leader {
      HealthStep(cfg, carried, At(cfg, carried, es, k), es, k);
    }
  }

  /** The loop leaves without a demotion exactly if it finds its context done or the instance not leading. */
  lemma LeavesExactly(cfg: HbConfig, carried: int32, es: seq<Event>, k: nat)
    requires k < |es|
    ensures VerdictAt(cfg, carried, es, k) == Leave <==>
              || es[k].ContextDone?
              || !es[k].leader
              || (es[k].update.DoneInWait? && !(cfg.checker && !es[k].healthy))
  {
  }

  /**
   The threshold in numbers: the configured maximum, or 3 if none is configured, as a 32-bit integer.  A term that
   starts with a count of 0 and stays unhealthy ends with exactly that tick, the first one if it is below 1.
   */
  lemma UnhealthyEndsAt(cfg: HbConfig, max: int32, es: seq<Event>, k: nat)
    requires cfg.checker
    requires ((if cfg.maxHealthFailures > 0 then cfg.maxHealthFailures else 3) - max) % 0x1_0000_0000 == 0
    requires k == (if max < 1 then 0 else max - 1) && k < |es| && AllUnhealthy(cfg, es, 0, k + 1)
    ensures Alive(cfg, 0, es, k) && VerdictAt(cfg, 0, es, k) == StepDown
  {
    UnhealthyCounts(cfg, es, k);
  }

  lemma {:induction false} UnhealthyCounts(cfg: HbConfig, es: seq<Event>, k: nat)
    requires k < |es| && AllUnhealthy(cfg, es, 0, k + 1) && (k == 0 || k < cfg.Threshold())
    ensures Alive(cfg, 0, es, k) && At(cfg, 0, es, k) == Counters(0, k)
  {
    if k > 0 {
      UnhealthyCounts(cfg, es, k - 1);
      assert Unhealthy(cfg, es[k - 1]);
    }
  }

  /**
   The loop demotes at exactly the first tick with a permanent error, a third update failure with no
   success in between, or a health count that reaches the threshold.
   */
  lemma DemotesExactly(cfg: HbConfig, carried: int32, es: seq<Event>, k: nat)
    requires k < |es| && 0 <= carried < MAX_INT32 && Alive(cfg, carried, es, k)
    ensures VerdictAt(cfg, carried, es, k) == StepDown <==> MustDemote(cfg, carried, es, k)
  {
    CountersMean(cfg, carried, es, k);
    var n := At(cfg, carried, es, k);
    ThirdExactly(cfg, es, k, n.fails);
    if cfg.checker {
      HealthExactly(cfg, carried, es, k, n.health);
    }
  }

  lemma ThirdExactly(cfg: HbConfig, es: seq<Event>, k: nat, fails: nat)
    requires k < |es| && FailsMeans(cfg, es, k, fails)
    ensures ThirdFailure(cfg, es, k) <==> UpdateFailed(cfg, es[k]) && fails == 2
  {
  }

  lemma HealthExactly(cfg: HbConfig, carried: int32, es: seq<Event>, k: nat, health: int)
    requires k < |es| && 0 <= carried && cfg.checker && HealthMeans(cfg, carried, es, k, health)
    ensures HealthExhausted(cfg, carried, es, k) <==> Unhealthy(cfg, es[k]) && health + 1 >= cfg.Threshold()
  {
    if Unhealthy(cfg, es[k]) {
      if AllUnhealthy(cfg, es, 0, k) && health == carried + k {
        assert RowEnds(cfg, es, 0, k);
      } else {
        assert RowEnds(cfg, es, k - health, k);
      }
    }
  }

  // ---------------------------------------------------------------------------------------------
  // How long a loop survives when nothing succeeds
  // ---------------------------------------------------------------------------------------------

  /** The tick finds the instance leader, and it is unhealthy or its update fails. */
  ghost predicate Fruitless(cfg: HbConfig, e: Event) {
    Unhealthy(cfg, e) || UpdateFailed(cfg, e)
  }

  ghost predicate AllFruitless(cfg: HbConfig, es: seq<Event>) {
    forall k :: 0 <= k < |es| ==> Fruitless(cfg, es[k])
  }

  /** The health threshold that takes effect: 1 without a checker. */
  ghost function Limit(cfg: HbConfig): nat {
    if !cfg.checker || cfg.Threshold() < 1 then 1 else cfg.Threshold()
  }

  /** How many fruitless ticks the loop can still survive, plus one. */
  ghost function Reserve(cfg: HbConfig, n: Counters): int {
    var h := Limit(cfg);
    (if n.fails == 0 then 3 * h else if n.fails == 1 then 2 * h else h)
    - (if !cfg.checker then 0 else if n.health < h then n.health else h - 1)
  }

  ghost predicate Sound(n: Counters) {
    n.fails <= 2 && 0 <= n.health < MAX_INT32
  }

  lemma ReserveStep(cfg: HbConfig, n: Counters, e: Event)
    requires Sound(n) && !UpdateOk(cfg, e) && React(cfg, n, e).1 == Continue
    ensures Sound(React(cfg, n, e).0) && Reserve(cfg, React(cfg, n, e).0) < Reserve(cfg, n)
  {
  }

  lemma {:induction false} ReserveShrinks(cfg: HbConfig, carried: int32, es: seq<Event>, p: nat, k: nat)
    requires p <= k <= |es| && 0 <= carried < MAX_INT32 && NoSuccess(cfg, es, p, k) && Alive(cfg, carried, es, k)
    ensures var n := At(cfg, carried, es, k); Sound(n) && 0 < Reserve(cfg, n) <= 3 * Limit(cfg) - (k - p)
  {
    if k == p {
      CountersMean(cfg, carried, es, p);
    } else {
      ReserveShrinks(cfg, carried, es, p, k - 1);
      assert VerdictAt(cfg, carried, es, k - 1) == Continue;
      ReserveStep(cfg, At(cfg, carried, es, k - 1), es[k - 1]);
    }
  }

  /**
   From whatever tick p of a term on, and however many updates failed before it: a loop without a
   successful update has ended within 3 * H ticks, H being the health threshold.  It ends by demoting the
   instance unless it finds it not leading any more or its context done.
   */
  lemma FruitlessBound(cfg: HbConfig, carried: int32, es: seq<Event>, p: nat) returns (k: nat)
    requires 0 <= carried < MAX_INT32 && p + 3 * Limit(cfg) <= |es| && Alive(cfg, carried, es, p)
    requires NoSuccess(cfg, es, p, p + 3 * Limit(cfg))
    ensures p <= k < p + 3 * Limit(cfg)
    ensures Alive(cfg, carried, es, k) && VerdictAt(cfg, carried, es, k) != Continue
    ensures Fruitless(cfg, es[k]) ==> VerdictAt(cfg, carried, es, k) == StepDown
  {
    k := p;
    while k < p + 3 * Limit(cfg) && VerdictAt(cfg, carried, es, k) == Continue
      invariant p <= k <= p + 3 * Limit(cfg) && Alive(cfg, carried, es, k)
    {
      k := k + 1;
    }
    ReserveShrinks(cfg, carried, es, p, k);
  }

  ghost function BadHealth(): Event {
    Ticked(true, false, MarshalError)
  }

  ghost function BadUpdate(): Event {
    Ticked(true, true, Failure(Error("operation heartbeat update timed out", true, false, false, {})))
  }

  /** Tick k of a row of unhealthy ticks with two failed updates in it, after `first` and `first + h` ticks. */
  ghost function SlowTick(first: nat, h: nat, k: nat): Event {
    if k == first || k == first + h then BadUpdate() else BadHealth()
  }

  ghost function SlowDeath(first: nat, h: nat): (es: seq<Event>)
    ensures |es| == first + 2 * h && forall k :: 0 <= k < |es| ==> es[k] == SlowTick(first, h, k)
  {
    seq(first + 2 * h, k requires 0 <= k < first + 2 * h => SlowTick(first, h, k))
  }

  lemma SlowDeathIsFruitless(cfg: HbConfig, first: nat, h: nat)
    requires cfg.checker
    ensures AllFruitless(cfg, SlowDeath(first, h))
  {
    var es := SlowDeath(first, h);
    forall k | 0 <= k < |es|
      ensures Fruitless(cfg, es[k])
    {
      assert es[k] == SlowTick(first, h, k);
    }
  }

  ghost predicate Survivable(h: nat, carried: int32, first: nat) {
    || (carried == 0 && first == h - 1)
    || ((carried < 0 || carried == MAX_INT32) && first == h)
  }

  /** Where the counters can stand after k ticks of SlowDeath. */
  ghost predicate Wasting(h: nat, carried: int32, first: nat, k: nat, n: Counters) {
    if k == 0 then n == Counters(0, carried)
    else if k <= first then n.fails == 0 && n.health <= k - (first + 1 - h)
    else if k <= first + h then n.fails == 1 && n.health <= k - first - 1
    else n.fails == 2 && n.health <= k - first - h - 1
  }

  lemma WastingStep(cfg: HbConfig, carried: int32, first: nat, k: nat, n: Counters)
    requires cfg.checker && 1 <= cfg.Threshold()
    requires Survivable(cfg.Threshold(), carried, first) && k < first + 2 * cfg.Threshold()
    requires Wasting(cfg.Threshold(), carried, first, k, n)
    ensures var (n', v) := React(cfg, n, SlowTick(first, cfg.Threshold(), k));
            v == Continue && Wasting(cfg.Threshold(), carried, first, k + 1, n')
  {
  }

  lemma {:induction false} SlowDeathAlive(cfg: HbConfig, carried: int32, first: nat, k: nat)
    requires cfg.checker && 1 <= cfg.Threshold()
    requires Survivable(cfg.Threshold(), carried, first) && k <= first + 2 * cfg.Threshold()
    ensures var es := SlowDeath(first, cfg.Threshold());
            Alive(cfg, carried, es, k) && Wasting(cfg.Threshold(), carried, first, k, At(cfg, carried, es, k))
  {
    if k > 0 {
      SlowDeathAlive(cfg, carried, first, k - 1);
      WastingStep(cfg, carried, first, k - 1, At(cfg, carried, SlowDeath(first, cfg.Threshold()), k - 1));
    }
  }

  /** The bound is exact: a term that starts with a health count of 0 can survive 3 * H - 1 fruitless ticks. */
  lemma FruitlessBoundTight(cfg: HbConfig) returns (es: seq<Event>)
    requires cfg.checker && 1 <= cfg.Threshold()
    ensures |es| == 3 * Limit(cfg) - 1 && AllFruitless(cfg, es) && Alive(cfg, 0, es, |es|)
  {
    var h := cfg.Threshold();
    es := SlowDeath(h - 1, h);
    SlowDeathIsFruitless(cfg, h - 1, h);
    SlowDeathAlive(cfg, 0, h - 1, |es|);
  }

  ghost predicate AlwaysDemotedInTime(cfg: HbConfig, carried: int32) {
    forall es: seq<Event> :: AllFruitless(cfg, es) && |es| == 3 * Limit(cfg) ==> !Alive(cfg, carried, es, |es|)
  }

  /**
   The health count is a 32-bit integer that is carried from term to term and never reset while it is
   negative: the bound holds exactly for the counts that one more failure does not wrap around and that
   have not wrapped around before.
   */
  lemma BoundIff(cfg: HbConfig, carried: int32)
    requires cfg.checker && 1 <= cfg.Threshold()
    ensures AlwaysDemotedInTime(cfg, carried) <==> 0 <= carried < MAX_INT32
  {
    var h := cfg.Threshold();
    if 0 <= carried < MAX_INT32 {
      forall es: seq<Event> | AllFruitless(cfg, es) && |es| == 3 * Limit(cfg)
        ensures !Alive(cfg, carried, es, |es|)
      {
        assert forall j :: 0 <= j < |es| ==> Fruitless(cfg, es[j]) ==> !UpdateOk(cfg, es[j]);
        var k := FruitlessBound(cfg, carried, es, 0);
      }
    } else {
      var es := SlowDeath(h, h);
      SlowDeathIsFruitless(cfg, h, h);
      SlowDeathAlive(cfg, carried, h, |es|);
    }
  }

  ghost predicate RefinesTrace(cfg: HbConfig, carried: int32) {
    forall es: seq<Event>, k: nat :: k < |es| && Alive(cfg, carried, es, k) ==>
      (VerdictAt(cfg, carried, es, k) == StepDown <==> MustDemote(cfg, carried, es, k))
  }

  /** For the same counts, and for no other, the loop follows the trace specification on every sequence of events. */
  lemma RefinesTraceIff(cfg: HbConfig, carried: int32)
    requires cfg.checker && 1 <= cfg.Threshold()
    ensures RefinesTrace(cfg, carried) <==> 0 <= carried < MAX_INT32
  {
    var h := cfg.Threshold();
    if 0 <= carried < MAX_INT32 {
      forall es: seq<Event>, k: nat | k < |es| && Alive(cfg, carried, es, k)
        ensures VerdictAt(cfg, carried, es, k) == StepDown <==> MustDemote(cfg, carried, es, k)
      {
        DemotesExactly(cfg, carried, es, k);
      }
    } else {
      var es := SlowDeath(h, h);
      SlowDeathAlive(cfg, carried, h, |es|);
      assert VerdictAt(cfg, carried, es, h - 1) == Continue && Alive(cfg, carried, es, h - 1);
      assert forall j :: 0 <= j < h ==> es[j] == SlowTick(h, h, j);
      assert RowEnds(cfg, es, 0, h - 1);
      assert MustDemote(cfg, carried, es, h - 1);
    }
  }
}
