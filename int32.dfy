/**
 * The integer conversions of JavaScript that the engine relies on: the
 * wrap-around of `x | 0` (ToInt32) and `x >>> 0` (ToUint32), and the 32-bit
 * patterns that the shift and xor operators work on.
 * Numbers are modelled as unbounded `int`; every wrap is written out.
 */
module Int32 {

  const TWO_31: int := 0x8000_0000
  const TWO_32: int := 0x1_0000_0000

  /** The values a JavaScript bitwise operator can produce. */
  type int32 = x: int | -0x8000_0000 <= x < 0x8000_0000

  /** `x >>> 0` for an integral `x`: the residue of `x` modulo 2^32. */
  function ToUint32(x: int): (r: nat)
    ensures r < TWO_32
    ensures (x - r) % TWO_32 == 0
    ensures 0 <= x < TWO_32 ==> r == x
  {
    x % TWO_32
  }

  /** `x | 0` for an integral `x`: the value in [-2^31, 2^31) congruent to `x` modulo 2^32. */
  function ToInt32(x: int): (r: int32)
    ensures (x - r) % TWO_32 == 0
    ensures -TWO_31 <= x < TWO_31 ==> r == x
  {
    var u := x % TWO_32;
    if u < TWO_31 then u else u - TWO_32
  }

  /** Adding a multiple of 2^32 does not change the residue. */
  lemma {:induction false} ModShift(y: int, k: int)
    ensures (y + k * TWO_32) % TWO_32 == y % TWO_32
  {
    var q := y / TWO_32;
    var r := y % TWO_32;
    assert y + k * TWO_32 == (q + k) * TWO_32 + r;
  }

  /** Reading a wrapped signed value back as unsigned (`(x | 0) >>> 0`) equals `x >>> 0`. */
  lemma {:induction false} UnsignedOfSigned(x: int)
    ensures ToUint32(ToInt32(x)) == ToUint32(x)
  {
    var u := x % TWO_32;
    if u >= TWO_31 {
      ModShift(u, -1);
    }
  }

  /** The 32-bit pattern a JavaScript bitwise operator reads from an integral operand (ToInt32). */
  function ToBits(x: int): bv32 {
    (x % TWO_32) as bv32
  }

  /** The signed number a JavaScript bitwise operator returns for a 32-bit pattern. */
  function FromBits(b: bv32): int32 {
    ToInt32(b as int)
  }
}
