/**
 * `rng` and `looprng`: continuous-time random signals. At time `t` a signal
 * scrambles the time seed plus the scrambled seed. Evaluation reads the salt
 * current at that moment, so each signal value is a pure function of
 * `(salt, seed, t)`; the host's signal wrapper and the bipolar variants are
 * not modelled.
 */
module RandomSignal {

  import opened Int32
  import opened Scrambler
  import opened TimeQuantizer

  /** `rng(seed)` evaluated at time `t` while the salt is `salt`. */
  function Rng(salt: int, seed: int, t: real): int32 {
    Scramble(TimeToSeed(salt, t) + Scramble(seed))
  }

  /** `looprng(cycles, seed)` evaluated at time `t`: time is first wrapped with `t % cycles`. */
  function LoopRng(salt: int, cycles: real, seed: int, t: real): int32
    requires cycles != 0.0
  {
    Scramble(TimeToSeed(salt, RealRem(t, cycles)) + Scramble(seed))
  }

  /** Wrapping a non-negative time is periodic: `(t + m) % m == t % m`. */
  lemma RealRemPeriodic(t: real, m: real)
    requires m > 0.0 && t >= 0.0
    ensures RealRem(t + m, m) == RealRem(t, m)
  {
    var y := t / m;
    assert (y + 1.0) * m == t + m;
    DivisionUnique(y + 1.0, t + m, m);
    assert Trunc(y + 1.0) == Trunc(y) + 1;
  }

  /** Wrapping is periodic on the negative side too: `(t + m) % m == t % m` when `t + m <= 0`. */
  lemma RealRemPeriodicNegative(t: real, m: real)
    requires m > 0.0 && t + m <= 0.0
    ensures RealRem(t + m, m) == RealRem(t, m)
  {
    var y := t / m;
    assert (y + 1.0) * m == t + m;
    DivisionUnique(y + 1.0, t + m, m);
    QuotientSign(t + m, m, y + 1.0);
    assert Trunc(y + 1.0) == Trunc(y) + 1;
  }

  /** Division is the inverse of multiplication: `a * m == b` gives `a == b / m`. */
  lemma DivisionUnique(a: real, b: real, m: real)
    requires m != 0.0 && a * m == b
    ensures a == b / m
  {
    assert (b / m) * m == b;
    assert (a - b / m) * m == 0.0;
  }

  /** Wrapping a time already in [0, m) leaves it as it is. */
  lemma RealRemSmall(t: real, m: real)
    requires 0.0 <= t < m
    ensures RealRem(t, m) == t
  {
    var y := t / m;
    assert t == y * m;
    assert (y - 1.0) * m == t - m;
    ProductSign(y - 1.0, m);
    ProductSign(-y, m);
    assert 0.0 <= y < 1.0;
  }

  /** For `cycles > 0` and `t >= 0`, `looprng` repeats every `cycles` cycles. */
  lemma LoopRngPeriodic(salt: int, cycles: real, seed: int, t: real)
    requires cycles > 0.0 && t >= 0.0
    ensures LoopRng(salt, cycles, seed, t + cycles) == LoopRng(salt, cycles, seed, t)
  {
    RealRemPeriodic(t, cycles);
  }

  /**
   * Before time 0, `looprng` also repeats every `cycles` cycles, as long as
   * both times lie on the non-positive side.
   */
  lemma LoopRngPeriodicNegative(salt: int, cycles: real, seed: int, t: real)
    requires cycles > 0.0 && t + cycles <= 0.0
    ensures LoopRng(salt, cycles, seed, t + cycles) == LoopRng(salt, cycles, seed, t)
  {
    RealRemPeriodicNegative(t, cycles);
  }

  /** During its first loop, `looprng` is `rng` with the same seed. */
  lemma LoopRngFirstLoop(salt: int, cycles: real, seed: int, t: real)
    requires 0.0 <= t < cycles
    ensures LoopRng(salt, cycles, seed, t) == Rng(salt, seed, t)
  {
    RealRemSmall(t, cycles);
  }

  /**
   * Periodicity fails across time 0: with `cycles = 1` the wrapped time at
   * -0.5 stays -0.5 and one cycle later it is 0.5, so the time seeds differ
   * by 10000 ticks.
   */
  lemma LoopTimeNotPeriodicAcrossZero(salt: int)
    ensures TimeToSeed(salt, RealRem(-0.5, 1.0)) == salt - 5000
    ensures TimeToSeed(salt, RealRem(-0.5 + 1.0, 1.0)) == salt + 5000
  {
    assert Trunc(-0.5) == 0;
    assert Trunc(-5000.0) == -5000;
  }

  /**
   * Across 0 the values can still agree: with `cycles = 0.00005`, the wrapped
   * times of -0.00002 and of 0.00003 both fall in the tick around 0.
   */
  lemma LoopRngAcrossZeroSameTick(salt: int, seed: int)
    ensures LoopRng(salt, 0.00005, seed, -0.00002 + 0.00005) == LoopRng(salt, 0.00005, seed, -0.00002)
  {
    TimeToSeedZeroTick(salt, RealRem(-0.00002, 0.00005));
    TimeToSeedZeroTick(salt, RealRem(-0.00002 + 0.00005, 0.00005));
  }

  /** Like every signal built on the time seed, `rng` is constant on a tick. */
  lemma RngConstantOnTick(salt: int, seed: int, k: nat, t1: real, t2: real)
    requires k as real / TICKS_PER_CYCLE <= t1 < (k + 1) as real / TICKS_PER_CYCLE
    requires k as real / TICKS_PER_CYCLE <= t2 < (k + 1) as real / TICKS_PER_CYCLE
    ensures Rng(salt, seed, t1) == Rng(salt, seed, t2)
  {
    TimeToSeedOnTick(salt, k, t1);
    TimeToSeedOnTick(salt, k, t2);
  }

  /** `rng` is constant on each tick before time 0 as well, (-(k+1)/10000, -k/10000]. */
  lemma RngConstantOnNegativeTick(salt: int, seed: int, k: nat, t1: real, t2: real)
    requires -((k + 1) as real) / TICKS_PER_CYCLE < t1 <= -(k as real) / TICKS_PER_CYCLE
    requires -((k + 1) as real) / TICKS_PER_CYCLE < t2 <= -(k as real) / TICKS_PER_CYCLE
    ensures Rng(salt, seed, t1) == Rng(salt, seed, t2)
  {
    TimeToSeedOnNegativeTick(salt, k, t1);
    TimeToSeedOnNegativeTick(salt, k, t2);
  }

  /** The default seed 0 scrambles to 0, so `rng()` is the scrambled time seed alone. */
  lemma RngDefaultSeed(salt: int, t: real)
    ensures Rng(salt, 0, t) == Scramble(TimeToSeed(salt, t))
  {
    ScrambleOfMultiple(0);
  }

  /** Seeds of the same sign that differ by 2^29 give the same signal. */
  lemma RngSeedAliasing(salt: int, seed: int, t: real)
    ensures seed >= 0 ==> Rng(salt, seed + REDUCE_MOD, t) == Rng(salt, seed, t)
    ensures seed <= 0 ==> Rng(salt, seed - REDUCE_MOD, t) == Rng(salt, seed, t)
  {
    ScramblePeriodic(seed);
    var mixed := Scramble(seed);
    if seed >= 0 {
      assert Scramble(seed + REDUCE_MOD) == mixed;
    }
    if seed <= 0 {
      assert Scramble(seed - REDUCE_MOD) == mixed;
    }
  }

  /** Changing the salt changes the signal: at `t = 0` with seed 0, salt 0 gives 0 and salt 1 does not. */
  lemma RngSaltSensitive()
    ensures Rng(0, 0, 0.0) == 0
    ensures Rng(1, 0, 0.0) == 270369
  {
    ScrambleOfMultiple(0);
    assert TimeToSeed(0, 0.0) == 0 && TimeToSeed(1, 0.0) == 1;
    ScrambleOfOne();
  }
}
