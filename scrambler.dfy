/**
 * The three shift-and-xor steps of `_random`, on 32-bit two's-complement
 * patterns, as JavaScript's `<<`, `>>` and `^` see their operands.
 */
module Xorshift {

  /** `x >> k` on a 32-bit pattern: the shift that copies the sign bit into the vacated bits. */
  function Sar(x: bv32, k: bv32): bv32
    requires k < 32
  {
    if x & 0x8000_0000 == 0 then x >> k else !((!x) >> k)
  }

  /** The first step, `(seed << 13) ^ seed`, wrapping at 32 bits. */
  function Step13(x: bv32): bv32 {
    (x << 13) ^ x
  }

  /** The second step, `(a >> 17) ^ a`, with the arithmetic shift. */
  function Step17(x: bv32): bv32 {
    Sar(x, 17) ^ x
  }

  /** The third step, `(b << 5) ^ b`, wrapping at 32 bits. */
  function Step5(x: bv32): bv32 {
    (x << 5) ^ x
  }

  /** `y ^ (y << 13) ^ (y << 26)` undoes the first step. */
  function UnStep13(y: bv32): bv32 {
    y ^ (y << 13) ^ (y << 26)
  }

  /** The first step loses no information: it has an inverse. */
  lemma Step13Invertible(x: bv32)
    ensures UnStep13(Step13(x)) == x
  {
  }

  /**
   * The middle step always clears the sign bit: the value `b` of the source is
   * never negative, so the scrambler has at most 2^31 distinct results.
   */
  lemma Step17ClearsSign(x: bv32)
    ensures Step17(x) & 0x8000_0000 == 0
  {
  }
}

/**
 * `_random`: the xorshift-style bit mixer behind every random signal. The
 * input is first cut down with JavaScript's truncating `%` by 2^29, then put
 * through three shift-and-xor steps on its 32-bit two's-complement pattern:
 * a left shift by 13, an arithmetic right shift by 17 and a left shift by 5.
 */
module Scrambler {

  import opened Int32
  import opened Xorshift

  /** 536870912 = 2^29, the divisor of the first step. */
  const REDUCE_MOD: int := 0x2000_0000

  /**
   * `seed % 536870912` with JavaScript's truncating remainder: the result has
   * the sign of `seed`, is congruent to it modulo 2^29, and is zero exactly
   * when `seed` is a multiple of 2^29.
   */
  function Reduce(seed: int): (r: int)
    ensures -REDUCE_MOD < r < REDUCE_MOD
    ensures seed >= 0 ==> 0 <= r
    ensures seed <= 0 ==> r <= 0
    ensures (seed - r) % REDUCE_MOD == 0
    ensures r == 0 <==> seed % REDUCE_MOD == 0
  {
    if seed >= 0 then seed % REDUCE_MOD else -((-seed) % REDUCE_MOD)
  }

  /** The three steps in the order the source applies them. */
  function Mix(x: bv32): bv32 {
    Step5(Step17(Step13(x)))
  }

  /** `_random(seed)` as the composition of its steps. */
  function Scramble(seed: int): int32
  {
    FromBits(Mix(ToBits(Reduce(seed))))
  }

  /**
   * `_random(seed)` statement by statement: the reassignment of `seed`, then
   * `a`, `b` and the returned value.
   */
  method Random(seed: int) returns (r: int32)
    ensures r == Scramble(seed)
    ensures seed % REDUCE_MOD == 0 ==> r == 0
  {
    var reduced := Reduce(seed);
    var bits := ToBits(reduced);
    var a := Step13(bits);
    var b := Step17(a);
    r := FromBits(Step5(b));
    if seed % REDUCE_MOD == 0 {
      ScrambleOfMultiple(seed);
    }
  }

  /** Reducing twice is reducing once. */
  lemma ReduceIdempotent(seed: int)
    ensures Reduce(Reduce(seed)) == Reduce(seed)
  {
  }

  /** The scrambler sees only the reduced seed. */
  lemma ScrambleOfReduced(seed: int)
    ensures Scramble(Reduce(seed)) == Scramble(seed)
  {
    ReduceIdempotent(seed);
  }

  /**
   * Seeds of the same sign that differ by 2^29 collide: for non-negative
   * seeds the scrambler has period 2^29, and likewise for non-positive ones.
   */
  lemma ScramblePeriodic(seed: int)
    ensures seed >= 0 ==> Scramble(seed + REDUCE_MOD) == Scramble(seed)
    ensures seed <= 0 ==> Scramble(seed - REDUCE_MOD) == Scramble(seed)
  {
    ReducePeriodic(seed);
  }

  /** The truncating remainder has period 2^29 on each side of zero. */
  lemma ReducePeriodic(seed: int)
    ensures seed >= 0 ==> Reduce(seed + REDUCE_MOD) == Reduce(seed)
    ensures seed <= 0 ==> Reduce(seed - REDUCE_MOD) == Reduce(seed)
  {
    if seed >= 0 {
      assert (seed + REDUCE_MOD) % REDUCE_MOD == seed % REDUCE_MOD;
    }
    if seed <= 0 {
      assert (-seed + REDUCE_MOD) % REDUCE_MOD == (-seed) % REDUCE_MOD;
    }
  }

  /** Every multiple of 2^29, zero included, scrambles to 0. */
  lemma ScrambleOfMultiple(seed: int)
    requires seed % REDUCE_MOD == 0
    ensures Scramble(seed) == 0
  {
    assert Reduce(seed) == 0;
    assert ToBits(0) == 0;
  }

  /** Reference value for seed 1, computed step by step through the 32-bit steps. */
  lemma ScrambleOfOne()
    ensures Scramble(1) == 270369
  {
    assert ToBits(Reduce(1)) == 1;
    assert Step13(1) == 8193;
    assert Step17(8193) == 8193;
    assert Step5(8193) == 270369;
    assert FromBits(270369) == 270369;
  }

  /**
   * Reference value on the 32-bit patterns that exercises both the wrap of
   * `<<` (bit 18 moves to bit 31) and the sign fill of `>>`.
   */
  lemma MixOfSignBit()
    ensures Mix(0x4_0000) == 0x8083_C042
  {
    assert Step13(0x4_0000) == 0x8004_0000;
    assert Sar(0x8004_0000, 17) == 0xFFFF_C002;
  }

  /** A negative seed that is not a multiple of 2^29 reduces to a negative number. */
  lemma ReduceNegative(seed: int)
    requires seed < 0 && seed % REDUCE_MOD != 0
    ensures -REDUCE_MOD < Reduce(seed) < 0
  {
  }
}
