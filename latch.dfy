/**
 * `latch` and the ramps built on it. A latch owns one cell, `start`, that is
 * empty until the first evaluation stores that evaluation's time; every
 * evaluation hands the wrapped function the time elapsed since then. The
 * ramp bodies are clamped linear functions of that elapsed time.
 */
module Latch {

  import opened Wrappers
  import opened TimeQuantizer

  /** One `latch(f)` signal with its private `start` cell. */
  class Latch<V> {

    const f: real -> V
    var start: Option<real>

    /** `latch(f)`: `start` begins undefined. */
    constructor (f: real -> V)
      ensures this.f == f
      ensures start == None
    {
      this.f := f;
      start := None;
    }

    /**
     * Evaluating the signal at `t`: `start = start ?? t`, then `f(t - start)`.
     * The cell is written by the first evaluation only, which therefore
     * passes 0 to `f`.
     */
    method Eval(t: real) returns (v: V)
      modifies this
      ensures start == Some(old(start).GetOr(t))
      ensures v == f(t - start.value)
      ensures old(start).None? ==> v == f(0.0)
    {
      start := Some(start.GetOr(t));
      v := f(t - start.value);
    }
  }

  /** The smaller of two reals (`Math.min`). */
  function Min(a: real, b: real): (r: real)
    ensures r <= a && r <= b
    ensures r == a || r == b
  {
    if a <= b then a else b
  }

  /** The larger of two reals (`Math.max`). */
  function Max(a: real, b: real): (r: real)
    ensures r >= a && r >= b
    ensures r == a || r == b
  {
    if a >= b then a else b
  }

  /** The body of `ramp(cycles)` at elapsed time `tau`: `min(tau / cycles, 1)`. */
  function RampAt(cycles: real, tau: real): real
    requires cycles != 0.0
  {
    Min(tau / cycles, 1.0)
  }

  /** The body of `iramp(cycles)` at elapsed time `tau`: `max(1 - tau / cycles, 0)`. */
  function IrampAt(cycles: real, tau: real): real
    requires cycles != 0.0
  {
    Max(1.0 - tau / cycles, 0.0)
  }

  /** The body of `partrun(ratio)` at elapsed time `tau`: `min((tau % 1) / ratio, 1)`. */
  function PartrunAt(ratio: real, tau: real): real
    requires ratio != 0.0
  {
    Min(RealRem(tau, 1.0) / ratio, 1.0)
  }

  /** The body of `ipartrun(ratio)` at elapsed time `tau`: `max(1 - (tau % 1) / ratio, 0)`. */
  function IpartrunAt(ratio: real, tau: real): real
    requires ratio != 0.0
  {
    Max(1.0 - RealRem(tau, 1.0) / ratio, 0.0)
  }

  /**
   * `ramp` rises from 0 at the trigger, linearly, to 1 after `cycles` cycles
   * and holds there.
   */
  lemma RampShape(cycles: real, tau: real)
    requires cycles > 0.0 && tau >= 0.0
    ensures 0.0 <= RampAt(cycles, tau) <= 1.0
    ensures tau == 0.0 ==> RampAt(cycles, tau) == 0.0
    ensures tau <= cycles ==> RampAt(cycles, tau) == tau / cycles
    ensures tau >= cycles ==> RampAt(cycles, tau) == 1.0
  {
    DivBounds(tau, cycles);
  }

  /** For `0 <= a` and `0 < m`: `0 <= a / m`, and `a / m` is below 1 exactly when `a < m`. */
  lemma DivBounds(a: real, m: real)
    requires a >= 0.0 && m > 0.0
    ensures 0.0 <= a / m
    ensures a / m <= 1.0 <==> a <= m
    ensures a / m >= 1.0 <==> a >= m
  {
    var q := a / m;
    assert a == q * m;
    assert (q - 1.0) * m == a - m;
    assert (1.0 - q) * m == m - a;
    ProductSign(q, m);
    ProductSign(q - 1.0, m);
    ProductSign(1.0 - q, m);
    if a >= m {
      assert q >= 1.0;
    }
    if a <= m {
      assert q <= 1.0;
    }
  }

  /** `ramp` never decreases as time goes on. */
  lemma RampMonotone(cycles: real, tau1: real, tau2: real)
    requires cycles > 0.0 && tau1 <= tau2
    ensures RampAt(cycles, tau1) <= RampAt(cycles, tau2)
  {
    assert (tau2 / cycles - tau1 / cycles) * cycles == tau2 - tau1;
    ProductSign(tau1 / cycles - tau2 / cycles, cycles);
  }

  /** `iramp` mirrors `ramp`: at every elapsed time the two add up to 1. */
  lemma IrampMirrorsRamp(cycles: real, tau: real)
    requires cycles != 0.0
    ensures IrampAt(cycles, tau) == 1.0 - RampAt(cycles, tau)
  {
  }

  /** `iramp` falls from 1 at the trigger to 0 after `cycles` cycles and holds there. */
  lemma IrampShape(cycles: real, tau: real)
    requires cycles > 0.0 && tau >= 0.0
    ensures 0.0 <= IrampAt(cycles, tau) <= 1.0
    ensures tau == 0.0 ==> IrampAt(cycles, tau) == 1.0
    ensures tau >= cycles ==> IrampAt(cycles, tau) == 0.0
  {
    RampShape(cycles, tau);
    IrampMirrorsRamp(cycles, tau);
  }

  /**
   * In every cycle `partrun` ramps from 0 over the first `ratio` of the cycle
   * and holds at 1 for the rest; it stays within [0, 1].
   */
  lemma PartrunShape(ratio: real, tau: real)
    requires ratio > 0.0 && tau >= 0.0
    ensures 0.0 <= PartrunAt(ratio, tau) <= 1.0
    ensures RealRem(tau, 1.0) >= ratio ==> PartrunAt(ratio, tau) == 1.0
    ensures RealRem(tau, 1.0) <= ratio ==> PartrunAt(ratio, tau) == RealRem(tau, 1.0) / ratio
  {
    DivBounds(RealRem(tau, 1.0), ratio);
  }

  /** `partrun` is 0 at the start of every whole cycle of elapsed time. */
  lemma PartrunCycleStart(ratio: real, n: nat)
    requires ratio != 0.0
    ensures PartrunAt(ratio, n as real) == 0.0
  {
    assert Trunc(n as real / 1.0) == n;
  }

  /** `partrun` repeats every cycle of elapsed time. */
  lemma PartrunPeriodic(ratio: real, tau: real)
    requires ratio != 0.0 && tau >= 0.0
    ensures PartrunAt(ratio, tau + 1.0) == PartrunAt(ratio, tau)
  {
    assert Trunc((tau + 1.0) / 1.0) == Trunc(tau / 1.0) + 1;
  }

  /** `ipartrun` mirrors `partrun`: at every elapsed time the two add up to 1. */
  lemma IpartrunMirrorsPartrun(ratio: real, tau: real)
    requires ratio != 0.0
    ensures IpartrunAt(ratio, tau) == 1.0 - PartrunAt(ratio, tau)
  {
  }

  /** `ipartrun` stays within [0, 1] and is 0 for the held part of each cycle. */
  lemma IpartrunShape(ratio: real, tau: real)
    requires ratio > 0.0 && tau >= 0.0
    ensures 0.0 <= IpartrunAt(ratio, tau) <= 1.0
    ensures RealRem(tau, 1.0) >= ratio ==> IpartrunAt(ratio, tau) == 0.0
  {
    PartrunShape(ratio, tau);
    IpartrunMirrorsPartrun(ratio, tau);
  }

  /** `ramp(cycles)`: a fresh latch around the ramp body. */
  method Ramp(cycles: real) returns (l: Latch<real>)
    requires cycles != 0.0
    ensures fresh(l) && l.start == None
    ensures forall tau :: l.f(tau) == RampAt(cycles, tau)
  {
    l := new Latch((tau: real) => RampAt(cycles, tau));
  }

  /** `iramp(cycles)`: a fresh latch around the inverse ramp body. */
  method Iramp(cycles: real) returns (l: Latch<real>)
    requires cycles != 0.0
    ensures fresh(l) && l.start == None
    ensures forall tau :: l.f(tau) == IrampAt(cycles, tau)
  {
    l := new Latch((tau: real) => IrampAt(cycles, tau));
  }

  /** `partrun(ratio)`: a fresh latch around the partial ramp body. */
  method Partrun(ratio: real) returns (l: Latch<real>)
    requires ratio != 0.0
    ensures fresh(l) && l.start == None
    ensures forall tau :: l.f(tau) == PartrunAt(ratio, tau)
  {
    l := new Latch((tau: real) => PartrunAt(ratio, tau));
  }

  /** `ipartrun(ratio)`: a fresh latch around the inverse partial ramp body. */
  method Ipartrun(ratio: real) returns (l: Latch<real>)
    requires ratio != 0.0
    ensures fresh(l) && l.start == None
    ensures forall tau :: l.f(tau) == IpartrunAt(ratio, tau)
  {
    l := new Latch((tau: real) => IpartrunAt(ratio, tau));
  }

  /**
   * Two `ramp(cycles)` signals keep separate origins: A is first evaluated at
   * `ta`, then B at `tb`, then A again at `ta2`; B's trigger does not move A's.
   */
  method IndependentRamps(cycles: real, ta: real, tb: real, ta2: real)
      returns (a1: real, b1: real, a2: real)
    requires cycles != 0.0
    ensures a1 == 0.0 && b1 == 0.0
    ensures a2 == RampAt(cycles, ta2 - ta)
  {
    var a := Ramp(cycles);
    var b := Ramp(cycles);
    a1 := a.Eval(ta);
    b1 := b.Eval(tb);
    a2 := a.Eval(ta2);
  }

  /**
   * A `ramp(cycles)` first evaluated at `t0` and then at `t`. At or after the
   * trigger the value stays within [0, 1]; a query before the trigger is
   * not clamped from below and gives the negative `(t - t0) / cycles`.
   */
  method RampQueriedTwice(cycles: real, t0: real, t: real) returns (v0: real, v: real)
    requires cycles > 0.0
    ensures v0 == 0.0
    ensures t >= t0 ==> 0.0 <= v <= 1.0
    ensures t >= t0 + cycles ==> v == 1.0
    ensures t < t0 ==> v == (t - t0) / cycles < 0.0
  {
    var l := Ramp(cycles);
    v0 := l.Eval(t0);
    v := l.Eval(t);
    if t >= t0 {
      RampShape(cycles, t - t0);
    } else {
      RampBeforeTrigger(cycles, t - t0);
    }
  }

  /** Before the trigger the elapsed time is negative, and so is `ramp`. */
  lemma RampBeforeTrigger(cycles: real, tau: real)
    requires cycles > 0.0 && tau < 0.0
    ensures RampAt(cycles, tau) == tau / cycles < 0.0
  {
    var q := tau / cycles;
    assert q * cycles == tau;
    ProductSign(q, cycles);
  }
}
