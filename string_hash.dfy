/**
 * `_str2seed`: the polynomial string hash that turns a seed name into a
 * 32-bit number. It folds the UTF-8 bytes of the string with `h * 31 + b`,
 * wraps to a signed 32-bit value after every step (`| 0`) and finally reads
 * the result as unsigned (`>>> 0`).
 */
module StringHash {

  import opened Int32
  import opened Utf8

  /** 31^n. */
  function Pow31(n: nat): (p: nat)
    ensures p >= 1
  {
    if n == 0 then 1 else 31 * Pow31(n - 1)
  }

  /** The unwrapped polynomial: the sum of bs[i] * 31^(|bs|-1-i). */
  function WeightedSum(bs: seq<byte>): nat
  {
    if bs == [] then 0 else bs[0] * Pow31(|bs| - 1) + WeightedSum(bs[1..])
  }

  /**
   * The hash of a byte sequence: the weighted sum taken modulo 2^32, which is
   * what the loop of `_str2seed` computes one byte at a time.
   */
  function HashBytes(bs: seq<byte>): (h: nat)
    ensures h < TWO_32
    ensures bs == [] ==> h == 0
  {
    ToUint32(WeightedSum(bs))
  }

  /** The hash of a string: that of its UTF-8 encoding. */
  function Hash(s: string): (h: nat)
    ensures h < TWO_32
    ensures s == "" ==> h == 0
  {
    HashBytes(Encode(s))
  }

  /** Appending one byte multiplies the unwrapped polynomial by 31 and adds the byte. */
  lemma {:induction false} WeightedSumSnoc(bs: seq<byte>, b: byte)
    ensures WeightedSum(bs + [b]) == WeightedSum(bs) * 31 + b
  {
    if bs != [] {
      var n := |bs|;
      assert (bs + [b])[1..] == bs[1..] + [b];
      WeightedSumSnoc(bs[1..], b);
      var p := Pow31(n - 1);
      var w := WeightedSum(bs[1..]);
      var x := bs[0];
      assert Pow31(n) == 31 * p;
      assert x * (31 * p) == (x * p) * 31;
      calc {
        WeightedSum(bs + [b]);
        x * Pow31(n) + WeightedSum(bs[1..] + [b]);
        x * (31 * p) + w * 31 + b;
        (x * p + w) * 31 + b;
      }
    }
  }

  /** Appending one byte updates the hash by the loop's step `h * 31 + b`, modulo 2^32. */
  lemma HashBytesSnoc(bs: seq<byte>, b: byte)
    ensures HashBytes(bs + [b]) == (HashBytes(bs) * 31 + b) % TWO_32
  {
    var w := WeightedSum(bs);
    WeightedSumSnoc(bs, b);
    var k := w / TWO_32;
    assert w * 31 + b == (HashBytes(bs) * 31 + b) + (k * 31) * TWO_32;
    ModShift(HashBytes(bs) * 31 + b, k * 31);
  }

  /** Hashing `s + t` continues the hash of `s` over the bytes of `t`. */
  lemma HashAppend(s: string, t: string)
    ensures Hash(s + t) == HashBytesFrom(Hash(s), Encode(t))
  {
    EncodeAppend(s, t);
    HashBytesFromPrefix(Encode(s), Encode(t));
  }

  /** Continues a hash `h` over more bytes, as the loop does. */
  function HashBytesFrom(h: nat, bs: seq<byte>): nat
    decreases |bs|
  {
    if bs == [] then h % TWO_32 else HashBytesFrom((h * 31 + bs[0]) % TWO_32, bs[1..])
  }

  /** Hashing a prefix and then continuing over the rest gives the hash of the whole. */
  lemma {:induction false} HashBytesFromPrefix(prefix: seq<byte>, rest: seq<byte>)
    ensures HashBytes(prefix + rest) == HashBytesFrom(HashBytes(prefix), rest)
    decreases |rest|
  {
    if rest == [] {
      assert prefix + rest == prefix;
    } else {
      HashBytesSnoc(prefix, rest[0]);
      assert prefix + rest == (prefix + [rest[0]]) + rest[1..];
      HashBytesFromPrefix(prefix + [rest[0]], rest[1..]);
    }
  }

  /**
   * `_str2seed(seed)`: the loop of the source, wrapping to a signed 32-bit
   * value after each step, returns the weighted sum of the UTF-8 bytes modulo
   * 2^32 -- the per-step wrap loses nothing.
   */
  method Str2Seed(s: string) returns (h: nat)
    ensures h == Hash(s)
    ensures h < TWO_32
    ensures s == "" ==> h == 0
  {
    var bytes := Encode(s);
    var hash: int32 := 0;
    for i := 0 to |bytes|
      invariant ToUint32(hash) == HashBytes(bytes[..i])
    {
      assert bytes[..i + 1] == bytes[..i] + [bytes[i]];
      HashBytesSnoc(bytes[..i], bytes[i]);
      ghost var before := hash;
      hash := ToInt32(hash * 31 + bytes[i]);
      StepWrap(before, bytes[i]);
    }
    assert bytes[..|bytes|] == bytes;
    h := ToUint32(hash);
  }

  /** One step of the loop on the signed value agrees, read unsigned, with the step on the unsigned value. */
  lemma StepWrap(hash: int32, b: byte)
    ensures ToUint32(ToInt32(hash * 31 + b)) == (ToUint32(hash) * 31 + b) % TWO_32
  {
    UnsignedOfSigned(hash * 31 + b);
    var u := ToUint32(hash);
    var k := (hash - u) / TWO_32;
    assert hash * 31 + b == (u * 31 + b) + (k * 31) * TWO_32;
    ModShift(u * 31 + b, k * 31);
  }
}
