/**
 Validation of an election configuration, and what the accepted timings mean for the lease.
 */
module Config {
  import opened Store
  import opened Lease
  import LeaseTight
  import P = Protocol

  const MAX_INT64: int := 0x7fff_ffff_ffff_ffff

  /** What the machine makes of an integer that does not fit into 64 bits. */
  function ToInt64(x: int): (r: int)
    ensures -MAX_INT64 - 1 <= r <= MAX_INT64
    ensures -MAX_INT64 - 1 <= x <= MAX_INT64 ==> r == x
    ensures (x - r) % 0x1_0000_0000_0000_0000 == 0
  {
    (x + MAX_INT64 + 1) % (2 * MAX_INT64 + 2) - MAX_INT64 - 1
  }

  type int64 = x: int | -MAX_INT64 - 1 <= x <= MAX_INT64

  datatype ElectionConfig = ElectionConfig(
    bucket: string, group: string, instanceId: string,
    ttl: int64, heartbeatInterval: int64, validationInterval: int64, disconnectGracePeriod: int64,
    maxConsecutiveFailures: int64, priority: int64, allowPriorityTakeover: bool)

  datatype Field = Bucket | Group | InstanceId | Ttl | HeartbeatInterval | ValidationInterval
                 | DisconnectGracePeriod | MaxConsecutiveFailures | PriorityField

  /** The first field that is refused, if any. */
  function ValidateConfig(cfg: ElectionConfig): Option<Field> {
    if cfg.bucket == "" then Some(Bucket)
    else if cfg.group == "" then Some(Group)
    else if cfg.instanceId == "" then Some(InstanceId)
    else if cfg.ttl <= 0 then Some(Ttl)
    else if cfg.heartbeatInterval <= 0 then Some(HeartbeatInterval)
    else if cfg.ttl < ToInt64(cfg.heartbeatInterval * 3) then Some(Ttl)
    else if cfg.validationInterval > 0 && cfg.validationInterval < cfg.heartbeatInterval then
      Some(ValidationInterval)
    else if cfg.disconnectGracePeriod > 0 && cfg.disconnectGracePeriod < ToInt64(cfg.heartbeatInterval * 2) then
      Some(DisconnectGracePeriod)
    else if cfg.maxConsecutiveFailures < 0 then Some(MaxConsecutiveFailures)
    else if cfg.allowPriorityTakeover && cfg.priority <= 0 then Some(PriorityField)
    else None
  }

  /** The documented rule for each field, in unbounded arithmetic. */
  predicate Violates(cfg: ElectionConfig, f: Field) {
    match f
    case Bucket => cfg.bucket == ""
    case Group => cfg.group == ""
    case InstanceId => cfg.instanceId == ""
    case Ttl => cfg.ttl <= 0 || (cfg.heartbeatInterval > 0 && cfg.ttl < 3 * cfg.heartbeatInterval)
    case HeartbeatInterval => cfg.heartbeatInterval <= 0
    case ValidationInterval => 0 < cfg.validationInterval < cfg.heartbeatInterval
    case DisconnectGracePeriod => 0 < cfg.disconnectGracePeriod < 2 * cfg.heartbeatInterval
    case MaxConsecutiveFailures => cfg.maxConsecutiveFailures < 0
    case PriorityField => cfg.allowPriorityTakeover && cfg.priority <= 0
  }

  /** The rules whose multiple of the interval does not fit into 64 bits. */
  predicate Overflows(cfg: ElectionConfig, f: Field) {
    || (f == Ttl && 3 * cfg.heartbeatInterval > MAX_INT64)
    || (f == DisconnectGracePeriod && 2 * cfg.heartbeatInterval > MAX_INT64)
  }

  /** The order in which the fields are looked at. */
  function Rank(f: Field): nat {
    match f
    case Bucket => 0
    case Group => 1
    case InstanceId => 2
    case Ttl => 3
    case HeartbeatInterval => 4
    case ValidationInterval => 5
    case DisconnectGracePeriod => 6
    case MaxConsecutiveFailures => 7
    case PriorityField => 8
  }

  /**
   A refused field breaks its rule and is the first that does; an accepted configuration breaks no rule,
   except one whose multiple overflowed.  Unless the triple overflows, the accepted configurations are
   exactly those within the rules.
   */
  lemma ValidatesTheRules(cfg: ElectionConfig)
    ensures ValidateConfig(cfg).Some? ==> Violates(cfg, ValidateConfig(cfg).value)
    ensures ValidateConfig(cfg).Some? ==>
              forall f :: Rank(f) < Rank(ValidateConfig(cfg).value) && Violates(cfg, f) ==> Overflows(cfg, f)
    ensures ValidateConfig(cfg).None? ==> forall f :: Violates(cfg, f) ==> Overflows(cfg, f)
    ensures !Overflows(cfg, Ttl) ==> (ValidateConfig(cfg).None? <==> forall f :: !Violates(cfg, f))
  {
    if ValidateConfig(cfg).Some? {
      assert Violates(cfg, ValidateConfig(cfg).value);
    }
  }

  /**
   If the triple overflows, the rules on the TTL and the grace period are what 64 bits leave of them: the TTL
   is compared with the triple less 2^64, and a double that overflows bounds nothing.
   */
  lemma OverflowedRules(cfg: ElectionConfig)
    requires Overflows(cfg, Ttl)
    ensures ValidateConfig(cfg).None? <==>
              && (forall f :: Violates(cfg, f) ==> f == Ttl || f == DisconnectGracePeriod)
              && 0 < cfg.ttl && 3 * cfg.heartbeatInterval - 0x1_0000_0000_0000_0000 <= cfg.ttl
              && (Violates(cfg, DisconnectGracePeriod) ==> Overflows(cfg, DisconnectGracePeriod))
  {
    var hb := cfg.heartbeatInterval;
    assert ToInt64(hb * 3) == 3 * hb - 0x1_0000_0000_0000_0000;
    assert ToInt64(hb * 2) == if 2 * hb <= MAX_INT64 then 2 * hb else 2 * hb - 0x1_0000_0000_0000_0000;
    if ValidateConfig(cfg).Some? {
      assert Violates(cfg, ValidateConfig(cfg).value);
    }
  }

  /** The promise on the timings: the TTL is at least three heartbeat intervals. */
  ghost predicate TtlCoversThree(hb: int64) {
    forall cfg: ElectionConfig :: cfg.heartbeatInterval == hb && ValidateConfig(cfg).None? ==> 3 * hb <= cfg.ttl
  }

  /** The promise is kept for every interval whose triple fits into 64 bits, and for no other. */
  lemma TtlPromise(hb: int64)
    requires 0 < hb
    ensures TtlCoversThree(hb) <==> 3 * hb <= MAX_INT64
  {
    if 3 * hb > MAX_INT64 {
      var cfg := ElectionConfig("b", "g", "i", MAX_INT64, hb, 0, 0, 0, 0, false);
      assert ValidateConfig(cfg).None?;
    }
  }

  function TimingOf(cfg: ElectionConfig): Timing {
    Timing(cfg.heartbeatInterval, cfg.ttl)
  }

  /**
   The smallest TTL that validation accepts is never enough: whatever the interval, two members of a
   group with TTL = 3 * HeartbeatInterval can be leader at the same time.
   */
  lemma SmallestTtlIsUnsafe(cfg: ElectionConfig, c: P.Config)
    requires ValidateConfig(cfg).None? && cfg.ttl == 3 * cfg.heartbeatInterval && |c| >= 2
    ensures TimingOf(cfg).Valid() && !LeaseTight.AlwaysOneLeader(c, TimingOf(cfg))
  {
    LeaseTight.LeaseIff(c, TimingOf(cfg));
  }

  /** From one second on, a TTL above four intervals is enough; the recommended factor 5 is such a TTL. */
  lemma FourfoldTtlIsSafe(cfg: ElectionConfig, c: P.Config)
    requires ValidateConfig(cfg).None? && |c| >= 2
    requires SECOND <= cfg.heartbeatInterval && 4 * cfg.heartbeatInterval < cfg.ttl
    ensures TimingOf(cfg).Valid() && LeaseTight.AlwaysOneLeader(c, TimingOf(cfg))
  {
    LeaseTight.LeaseIff(c, TimingOf(cfg));
  }

  /** Below one second no multiple is enough by itself: any TTL up to four seconds is unsafe. */
  lemma ShortTtlIsUnsafe(cfg: ElectionConfig, c: P.Config)
    requires ValidateConfig(cfg).None? && |c| >= 2 && cfg.ttl <= 4 * SECOND
    ensures TimingOf(cfg).Valid() && !LeaseTight.AlwaysOneLeader(c, TimingOf(cfg))
  {
    LeaseTight.LeaseIff(c, TimingOf(cfg));
  }
}
