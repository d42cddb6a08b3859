/**
 * UTF-8, the byte encoding that `new TextEncoder().encode(s)` produces and that
 * the string hash folds over. A Dafny `char` is a Unicode scalar value, so every
 * character has an encoding of one to four bytes.
 */
module Utf8 {

  type byte = x: int | 0 <= x < 256

  /** A continuation byte, 10xxxxxx. */
  predicate IsContinuation(b: byte) {
    0x80 <= b < 0xC0
  }

  /**
   * The encoding of one scalar value. The leading byte alone tells how many
   * bytes follow, and every later byte is a continuation byte.
   */
  function EncodeChar(c: char): (bs: seq<byte>)
    ensures 1 <= |bs| <= 4
    ensures |bs| == 1 <==> c as int < 0x80
    ensures |bs| == 2 <==> 0x80 <= c as int < 0x800
    ensures |bs| == 3 <==> 0x800 <= c as int < 0x1_0000
    ensures |bs| == 1 <==> bs[0] < 0x80
    ensures |bs| == 2 <==> 0xC2 <= bs[0] < 0xE0
    ensures |bs| == 3 <==> 0xE0 <= bs[0] < 0xF0
    ensures |bs| == 4 <==> 0xF0 <= bs[0] < 0xF5
    ensures forall i :: 1 <= i < |bs| ==> IsContinuation(bs[i])
  {
    var cp := c as int;
    if cp < 0x80 then [cp]
    else if cp < 0x800 then [0xC0 + cp / 0x40, 0x80 + cp % 0x40]
    else if cp < 0x1_0000 then [0xE0 + cp / 0x1000, 0x80 + (cp / 0x40) % 0x40, 0x80 + cp % 0x40]
    else [0xF0 + cp / 0x4_0000, 0x80 + (cp / 0x1000) % 0x40, 0x80 + (cp / 0x40) % 0x40, 0x80 + cp % 0x40]
  }

  /** The scalar value that a well-formed one-to-four byte sequence stands for. */
  function DecodeChar(bs: seq<byte>): int
    requires 1 <= |bs| <= 4
  {
    var payload := seq(|bs| - 1, i requires 0 <= i < |bs| - 1 => bs[i + 1] as int - 0x80);
    if |bs| == 1 then bs[0]
    else if |bs| == 2 then (bs[0] as int - 0xC0) * 0x40 + payload[0]
    else if |bs| == 3 then (bs[0] as int - 0xE0) * 0x1000 + payload[0] * 0x40 + payload[1]
    else (bs[0] as int - 0xF0) * 0x4_0000 + payload[0] * 0x1000 + payload[1] * 0x40 + payload[2]
  }

  /** Decoding a character's bytes gives the character back. */
  lemma EncodeCharRoundTrip(c: char)
    ensures DecodeChar(EncodeChar(c)) == c as int
  {
    var cp := c as int;
    var bs := EncodeChar(c);
    if 0x80 <= cp < 0x800 {
      assert cp == (cp / 0x40) * 0x40 + cp % 0x40;
    } else if 0x800 <= cp < 0x1_0000 {
      assert cp / 0x40 == (cp / 0x1000) * 0x40 + (cp / 0x40) % 0x40;
      assert cp == (cp / 0x40) * 0x40 + cp % 0x40;
    } else if 0x1_0000 <= cp {
      assert cp / 0x1000 == (cp / 0x4_0000) * 0x40 + (cp / 0x1000) % 0x40;
      assert cp / 0x40 == (cp / 0x1000) * 0x40 + (cp / 0x40) % 0x40;
      assert cp == (cp / 0x40) * 0x40 + cp % 0x40;
    }
  }

  /** `TextEncoder.encode`: the concatenated encodings of the characters, in order. */
  function Encode(s: string): (bs: seq<byte>)
    ensures |s| <= |bs| <= 4 * |s|
  {
    if s == [] then [] else EncodeChar(s[0]) + Encode(s[1..])
  }

  /** Encoding distributes over concatenation. */
  lemma {:induction false} EncodeAppend(s: string, t: string)
    ensures Encode(s + t) == Encode(s) + Encode(t)
  {
    if s == [] {
      assert s + t == t;
    } else {
      assert (s + t)[1..] == s[1..] + t;
      EncodeAppend(s[1..], t);
    }
  }

  /** An ASCII string encodes to its own character codes, one byte each. */
  lemma {:induction false} EncodeAscii(s: string)
    requires forall i :: 0 <= i < |s| ==> s[i] as int < 0x80
    ensures |Encode(s)| == |s|
    ensures forall i :: 0 <= i < |s| ==> Encode(s)[i] == s[i] as int
  {
    if s != [] {
      EncodeAscii(s[1..]);
    }
  }
}
