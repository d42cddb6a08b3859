/**
 * The time quantiser and the process-wide salt: `time2seed(t)` cuts cycle time
 * into ticks of 1/10000 cycle with `Math.trunc` and adds the current salt;
 * `rngseed` overwrites the salt. Time is a `real`; the rounding of JavaScript
 * doubles is not modelled.
 */
module TimeQuantizer {

  import opened StringHash

  /** Ticks per cycle: `t * 10000`. */
  const TICKS_PER_CYCLE: real := 10000.0

  /** The text whose hash is the salt before any `rngseed` call. */
  const DEFAULT_SALT_TEXT: string := "strudel is cool and so are you :)"

  /** `Math.trunc`: the integer part, rounding toward zero on both sides of 0. */
  function Trunc(x: real): (n: int)
    ensures x >= 0.0 ==> n as real <= x < n as real + 1.0
    ensures x <= 0.0 ==> n as real - 1.0 < x <= n as real
  {
    if x >= 0.0 then x.Floor else -((-x).Floor)
  }

  /**
   * JavaScript's `%` on numbers: `x - m * trunc(x / m)`. The result has the
   * sign of `x`, is smaller in size than `m`, and differs from `x` by a whole
   * multiple of `m`; together these fix it uniquely.
   */
  function RealRem(x: real, m: real): (r: real)
    requires m != 0.0
    ensures m > 0.0 && x >= 0.0 ==> 0.0 <= r < m
    ensures m > 0.0 && x <= 0.0 ==> -m < r <= 0.0
    ensures ((x - r) / m).Floor as real == (x - r) / m
  {
    var y := x / m;
    var q := Trunc(y);
    RemainderBounds(x, m, y, q as real);
    WholeQuotient(m * q as real, m, q);
    x - m * q as real
  }

  /** A difference `m * q` with whole `q` divides by `m` to a whole number. */
  lemma WholeQuotient(d: real, m: real, q: int)
    requires m != 0.0 && d == m * q as real
    ensures (d / m).Floor as real == d / m
  {
    assert d / m == q as real;
  }

  /**
   * With `x == y * m` and `q` the truncation of `y`, the remainder `x - m * q`
   * lies in [0, m) for non-negative `x` and in (-m, 0] for non-positive `x`.
   */
  lemma RemainderBounds(x: real, m: real, y: real, q: real)
    requires m != 0.0 && y == x / m
    requires y >= 0.0 ==> q <= y < q + 1.0
    requires y <= 0.0 ==> q - 1.0 < y <= q
    ensures m > 0.0 && x >= 0.0 ==> 0.0 <= x - m * q < m
    ensures m > 0.0 && x <= 0.0 ==> -m < x - m * q <= 0.0
  {
    if m > 0.0 {
      QuotientSign(x, m, y);
      assert x == y * m;
      if x >= 0.0 {
        FractionOfPositive(x - m * q, y - q, m);
      }
      if x <= 0.0 {
        FractionOfPositive(m * q - x, q - y, m);
      }
    }
  }

  /** `r`, a fraction `d` in [0, 1) of a positive `m`, lies in [0, m). */
  lemma FractionOfPositive(r: real, d: real, m: real)
    requires 0.0 <= d < 1.0 && m > 0.0 && r == d * m
    ensures 0.0 <= r < m
  {
    assert m - r == (1.0 - d) * m;
    ProductSign(d, m);
    ProductSign(1.0 - d, m);
  }

  /** Dividing by a positive number keeps the sign. */
  lemma QuotientSign(x: real, m: real, y: real)
    requires m > 0.0 && y == x / m
    ensures x >= 0.0 ==> y >= 0.0
    ensures x <= 0.0 ==> y <= 0.0
  {
    assert y * m == x;
    assert (-y) * m == -x;
    ProductSign(y, m);
    ProductSign(-y, m);
  }

  /** A product with a positive factor keeps the other factor's sign. */
  lemma ProductSign(a: real, m: real)
    requires m > 0.0
    ensures a >= 0.0 ==> a * m >= 0.0
    ensures a > 0.0 ==> a * m > 0.0
  {
  }

  /** `time2seed(t)` at salt `salt`: the tick count `trunc(t * 10000)` plus the salt. */
  function TimeToSeed(salt: int, t: real): (s: int)
    ensures t >= 0.0 ==> (s - salt) as real <= t * TICKS_PER_CYCLE < (s - salt + 1) as real
    ensures t <= 0.0 ==> (s - salt - 1) as real < t * TICKS_PER_CYCLE <= (s - salt) as real
  {
    Trunc(t * TICKS_PER_CYCLE) + salt
  }

  /**
   * A time seed is constant on each tick: every `t` in [k/10000, (k+1)/10000)
   * with `k >= 0` gives `k + salt`.
   */
  lemma TimeToSeedOnTick(salt: int, k: nat, t: real)
    requires k as real / TICKS_PER_CYCLE <= t < (k + 1) as real / TICKS_PER_CYCLE
    ensures TimeToSeed(salt, t) == k + salt
  {
    assert k as real <= t * TICKS_PER_CYCLE < (k + 1) as real;
  }

  /**
   * Before time 0 the ticks are closed on the right: every `t` in
   * (-(k+1)/10000, -k/10000] gives `salt - k`. With `k == 0` this joins the
   * first non-negative tick, so the tick around 0, (-1/10000, 1/10000), is
   * twice as wide as the others.
   */
  lemma TimeToSeedOnNegativeTick(salt: int, k: nat, t: real)
    requires -((k + 1) as real) / TICKS_PER_CYCLE < t <= -(k as real) / TICKS_PER_CYCLE
    ensures TimeToSeed(salt, t) == salt - k
  {
    assert -((k + 1) as real) < t * TICKS_PER_CYCLE <= -(k as real);
  }

  /** The tick around 0 spans (-1/10000, 1/10000): all of it gives the salt itself. */
  lemma TimeToSeedZeroTick(salt: int, t: real)
    requires -1.0 / TICKS_PER_CYCLE < t < 1.0 / TICKS_PER_CYCLE
    ensures TimeToSeed(salt, t) == salt
  {
    if t >= 0.0 {
      TimeToSeedOnTick(salt, 0, t);
    } else {
      TimeToSeedOnNegativeTick(salt, 0, t);
    }
  }

  /** Later times never give smaller time seeds. */
  lemma TimeToSeedMonotone(salt: int, t1: real, t2: real)
    requires t1 <= t2
    ensures TimeToSeed(salt, t1) <= TimeToSeed(salt, t2)
  {
    assert t1 * TICKS_PER_CYCLE <= t2 * TICKS_PER_CYCLE;
  }

  /** The argument of `rngseed`: a string is hashed, anything else is stored as it is. */
  datatype SeedArg = Text(text: string) | Number(n: int)

  /** The module-level `salt` variable of the source. */
  class SaltCell {

    var salt: int

    /** `let salt = _str2seed("strudel is cool and so are you :)")`. */
    constructor ()
      ensures salt == Hash(DEFAULT_SALT_TEXT)
    {
      var h := Str2Seed(DEFAULT_SALT_TEXT);
      salt := h;
    }

    /**
     * `rngseed(seed)`: the salt becomes the hash of a string argument or the
     * number itself, and the assignment's value is returned. Every later
     * evaluation of `time2seed` sees the new salt.
     */
    method RngSeed(seed: SeedArg) returns (newSalt: int)
      modifies this
      ensures newSalt == salt
      ensures seed.Text? ==> salt == Hash(seed.text)
      ensures seed.Number? ==> salt == seed.n
    {
      if seed.Text? {
        salt := Str2Seed(seed.text);
      } else {
        salt := seed.n;
      }
      newSalt := salt;
    }
  }
}
