/**
 Exponential backoff with jitter, over the reals and in nanoseconds.  Random draws are inputs.
 */
module Backoff {
  const MILLISECOND: real := 1_000_000.0
  const JITTER_MIN: real := 10.0 * MILLISECOND
  const JITTER_MAX: real := 100.0 * MILLISECOND
  const MAX_RETRIES: nat := 3

  datatype BackoffConfig = BackoffConfig(initial: real, max: real, multiplier: real, jitter: real) {
    /** Durations are not negative, the multiplier does not shrink, and the jitter is a fraction. */
    predicate Sane() {
      0.0 <= initial && 0.0 <= max && 1.0 <= multiplier && 0.0 <= jitter <= 1.0
    }

    /** No wait is longer. */
    function MaxWait(): real {
      max * (1.0 + jitter)
    }
  }

  function DefaultBackoffConfig(): BackoffConfig {
    BackoffConfig(50.0 * MILLISECOND, 5000.0 * MILLISECOND, 2.0, 0.1)
  }

  function Pow(x: real, n: nat): real {
    if n == 0 then 1.0 else x * Pow(x, n - 1)
  }

  /** The backoff before jitter. */
  function Base(cfg: BackoffConfig, attempt: nat): real {
    var backoff := cfg.initial * Pow(cfg.multiplier, attempt);
    if backoff > cfg.max then cfg.max else backoff
  }

  /** `draw` is the random number, at least 0 and less than 1. */
  function CalculateBackoff(cfg: BackoffConfig, attempt: nat, draw: real): real {
    var base := Base(cfg, attempt);
    var final := base + base * cfg.jitter * (draw * 2.0 - 1.0);
    if final < 0.0 then base else final
  }

  predicate Draw(x: real) {
    0.0 <= x < 1.0
  }

  lemma {:induction false} PowGrows(x: real, m: nat, n: nat)
    requires 1.0 <= x && m <= n
    ensures 1.0 <= Pow(x, m) <= Pow(x, n)
  {
    if n > 0 {
      if m == n {
        PowGrows(x, m - 1, n - 1);
      } else {
        PowGrows(x, m, n - 1);
      }
      assert (x - 1.0) * Pow(x, n - 1) >= 0.0;
    }
  }

  /** The base grows with the attempt until it reaches the cap, and never exceeds it. */
  lemma BaseGrows(cfg: BackoffConfig, m: nat, n: nat)
    requires cfg.Sane() && m <= n
    ensures 0.0 <= Base(cfg, m) <= Base(cfg, n) <= cfg.max
  {
    PowGrows(cfg.multiplier, m, n);
    assert 0.0 <= cfg.initial * Pow(cfg.multiplier, m);
    assert cfg.initial * (Pow(cfg.multiplier, n) - Pow(cfg.multiplier, m)) >= 0.0;
  }

  lemma Product(x: real, y: real)
    requires 0.0 <= x && 0.0 <= y
    ensures 0.0 <= x * y
  {
  }

  lemma Negative(x: real, y: real)
    requires 0.0 < x && y < 0.0
    ensures x * y < 0.0
  {
  }

  /** Jitter moves the backoff by at most its fraction of the base, in either direction. */
  lemma BackoffWithin(cfg: BackoffConfig, attempt: nat, draw: real)
    requires cfg.Sane() && Draw(draw)
    ensures var base := Base(cfg, attempt);
            && (1.0 - cfg.jitter) * base <= CalculateBackoff(cfg, attempt, draw) <= (1.0 + cfg.jitter) * base
            && CalculateBackoff(cfg, attempt, draw) <= cfg.MaxWait()
  {
    var base := Base(cfg, attempt);
    BaseGrows(cfg, attempt, attempt);
    var (amount, f) := (base * cfg.jitter, draw * 2.0 - 1.0);
    Product(base, cfg.jitter);
    Product(amount, 1.0 - f);
    Product(amount, 1.0 + f);
    Product(1.0 - cfg.jitter, base);
    Product(cfg.max - base, 1.0 + cfg.jitter);
  }

  /** The base starts at the initial backoff and is multiplied with each attempt, up to the cap. */
  lemma BaseSteps(cfg: BackoffConfig, n: nat)
    requires cfg.Sane()
    ensures Base(cfg, 0) == if cfg.initial <= cfg.max then cfg.initial else cfg.max
    ensures var next := cfg.multiplier * Base(cfg, n); Base(cfg, n + 1) == if next <= cfg.max then next else cfg.max
  {
    BaseGrows(cfg, n, n + 1);
    var raw := cfg.initial * Pow(cfg.multiplier, n);
    assert cfg.initial * Pow(cfg.multiplier, n + 1) == cfg.multiplier * raw;
    if raw > cfg.max {
      Product(cfg.multiplier - 1.0, raw - cfg.max);
      Product(cfg.multiplier - 1.0, cfg.max);
    }
  }

  /**
   The jitter follows the draw: over the draws the wait runs through the whole interval around the base, in
   proportion to the draw, from its lower end for 0 through the base itself for 1/2.
   */
  lemma JitterFollowsDraw(cfg: BackoffConfig, attempt: nat, draw: real)
    requires cfg.Sane() && Draw(draw)
    ensures CalculateBackoff(cfg, attempt, 0.0) == (1.0 - cfg.jitter) * Base(cfg, attempt)
    ensures CalculateBackoff(cfg, attempt, 0.5) == Base(cfg, attempt)
    ensures CalculateBackoff(cfg, attempt, draw) - CalculateBackoff(cfg, attempt, 0.0)
            == 2.0 * draw * (cfg.jitter * Base(cfg, attempt))
  {
    BaseGrows(cfg, attempt, attempt);
    WaitIsMultiple(cfg, attempt, draw);
    WaitIsMultiple(cfg, attempt, 0.0);
    WaitIsMultiple(cfg, attempt, 0.5);
    Product(cfg.jitter, draw);
    var (base, rise) := (Base(cfg, attempt), cfg.jitter * (2.0 * draw));
    assert base * (1.0 - cfg.jitter + rise) == base * (1.0 - cfg.jitter) + base * rise;
  }

  /** The wait is a multiple of the base, whatever the jitter; a negative multiple counts as 1. */
  lemma WaitIsMultiple(cfg: BackoffConfig, attempt: nat, draw: real)
    requires 0.0 <= Base(cfg, attempt)
    ensures var f := 1.0 + cfg.jitter * (draw * 2.0 - 1.0);
            CalculateBackoff(cfg, attempt, draw) == Base(cfg, attempt) * (if f < 0.0 then 1.0 else f)
  {
    var (base, f) := (Base(cfg, attempt), 1.0 + cfg.jitter * (draw * 2.0 - 1.0));
    assert base + base * cfg.jitter * (draw * 2.0 - 1.0) == base * f;
    if f >= 0.0 {
      Product(base, f);
    } else if base > 0.0 {
      Negative(base, f);
    }
  }

  /** The default backoff in numbers: 50 ms, doubled six times, then five seconds; a tenth of jitter. */
  lemma DefaultBases(n: nat)
    ensures Base(DefaultBackoffConfig(), 0) == 50.0 * MILLISECOND
    ensures Base(DefaultBackoffConfig(), 6) == 3200.0 * MILLISECOND
    ensures n >= 7 ==> Base(DefaultBackoffConfig(), n) == 5000.0 * MILLISECOND
    ensures CalculateBackoff(DefaultBackoffConfig(), n, 0.0) == 0.9 * Base(DefaultBackoffConfig(), n)
  {
    var cfg := DefaultBackoffConfig();
    assert Pow(2.0, 0) == 1.0 && Pow(2.0, 1) == 2.0 && Pow(2.0, 2) == 4.0 && Pow(2.0, 3) == 8.0;
    assert Pow(2.0, 4) == 16.0 && Pow(2.0, 5) == 32.0 && Pow(2.0, 6) == 64.0 && Pow(2.0, 7) == 128.0;
    if n >= 7 {
      BaseGrows(cfg, 7, n);
    }
    JitterFollowsDraw(cfg, n, 0.0);
  }

  /** The three waits of the acquisition loop. */
  lemma DefaultBackoffs(draw0: real, draw1: real, draw2: real)
    requires Draw(draw0) && Draw(draw1) && Draw(draw2)
    ensures DefaultBackoffConfig().Sane()
    ensures 45.0 * MILLISECOND <= CalculateBackoff(DefaultBackoffConfig(), 0, draw0) <= 55.0 * MILLISECOND
    ensures 90.0 * MILLISECOND <= CalculateBackoff(DefaultBackoffConfig(), 1, draw1) <= 110.0 * MILLISECOND
    ensures 180.0 * MILLISECOND <= CalculateBackoff(DefaultBackoffConfig(), 2, draw2) <= 220.0 * MILLISECOND
  {
    var cfg := DefaultBackoffConfig();
    BackoffWithin(cfg, 0, draw0);
    BackoffWithin(cfg, 1, draw1);
    BackoffWithin(cfg, 2, draw2);
    assert Pow(2.0, 0) == 1.0 && Pow(2.0, 1) == 2.0 && Pow(2.0, 2) == 4.0;
  }
}
