/**
 * Fixed-width integers and their little-endian byte encodings, as a
 * little-endian java.nio.ByteBuffer writes them with putInt/putLong and
 * reads them back with getInt/getLong.
 *
 * A byte is modelled by its unsigned value 0..255 (the bit pattern that Java's
 * signed `byte` stands for); signed Java `int` and `long` are two's complement,
 * written out explicitly below.
 */
module Bytes {

  type byte = b: int | 0 <= b < 256

  const TWO_31: int := 0x8000_0000
  const TWO_32: int := 0x1_0000_0000
  const TWO_63: int := 0x8000_0000_0000_0000
  const TWO_64: int := 0x1_0000_0000_0000_0000

  /** Java `int`. */
  type int32 = x: int | -TWO_31 <= x < TWO_31
  /** Java `long`. */
  type int64 = x: int | -TWO_63 <= x < TWO_63
  /** C++ `uint32_t`. */
  type uint32 = x: int | 0 <= x < TWO_32
  /** C++ `uint64_t`. */
  type uint64 = x: int | 0 <= x < TWO_64

  /** The largest Java array length, and so the largest key, value or name. */
  const INT32_MAX: int := TWO_31 - 1

  function Pow256(n: nat): (p: int)
    ensures p > 0
  {
    if n == 0 then 1 else 256 * Pow256(n - 1)
  }

  lemma Pow256Widths()
    ensures Pow256(4) == TWO_32 && Pow256(8) == TWO_64
  {
    assert Pow256(2) == 0x1_0000;
    assert Pow256(4) == 256 * (256 * Pow256(2));
    assert Pow256(6) == 256 * (256 * Pow256(4));
    assert Pow256(8) == 256 * (256 * Pow256(6));
  }

  function Zeros(n: nat): (z: seq<byte>)
    ensures |z| == n && forall i :: 0 <= i < n ==> z[i] == 0
  {
    seq(n, _ => 0)
  }

  /** The `width` low-order bytes of `n`, least significant first. */
  function LittleEndian(n: nat, width: nat): (s: seq<byte>)
    ensures |s| == width
  {
    if width == 0 then [] else [n % 256] + LittleEndian(n / 256, width - 1)
  }

  /** The unsigned number whose little-endian bytes are `s`. */
  function FromLittleEndian(s: seq<byte>): (n: nat)
    ensures n < Pow256(|s|)
  {
    if s == [] then 0 else s[0] + 256 * FromLittleEndian(s[1..])
  }

  /** Reading back what was written recovers every number that fits the width. */
  lemma {:induction false} FromLittleEndianInverse(n: nat, width: nat)
    requires n < Pow256(width)
    ensures FromLittleEndian(LittleEndian(n, width)) == n
  {
    if width > 0 {
      var s := LittleEndian(n, width);
      assert s[1..] == LittleEndian(n / 256, width - 1);
      FromLittleEndianInverse(n / 256, width - 1);
    }
  }

  /** Writing back what was read reproduces every byte sequence. */
  lemma {:induction false} LittleEndianInverse(s: seq<byte>)
    ensures LittleEndian(FromLittleEndian(s), |s|) == s
  {
    if s != [] {
      var n := FromLittleEndian(s);
      var m := FromLittleEndian(s[1..]);
      assert n % 256 == s[0] && n / 256 == m;
      LittleEndianInverse(s[1..]);
    }
  }

  lemma MulAtLeast(d: int, k: int)
    requires d > 0 && k >= 1
    ensures d * k >= d
  {
    assert d * k == d * (k - 1) + d;
  }

  lemma DivUnique(n: int, d: int, q: int, r: int)
    requires d > 0 && n == d * q + r && 0 <= r < d
    ensures n / d == q
  {
    var q', r' := n / d, n % d;
    assert n == d * q' + r';
    assert q <= q' by {
      if q > q' {
        MulAtLeast(d, q - q');
      }
    }
    assert q' <= q by {
      if q < q' {
        MulAtLeast(d, q' - q);
      }
    }
  }

  lemma DivDiv(n: nat, a: int, b: int)
    requires a > 0 && b > 0
    ensures n / a / b == n / (a * b)
  {
    var q, r := n / a, n % a;
    var q2, r2 := q / b, q % b;
    var ab := a * b;
    assert n == a * q + r;
    assert q == b * q2 + r2;
    assert a * q == ab * q2 + a * r2 by {
      assert a * (b * q2 + r2) == a * (b * q2) + a * r2;
      assert a * (b * q2) == ab * q2;
    }
    assert a * r2 + r < ab by {
      assert a * r2 <= a * (b - 1) by {
        if r2 < b - 1 {
          MulAtLeast(a, b - 1 - r2);
          assert a * (b - 1) == a * r2 + a * (b - 1 - r2);
        }
      }
      assert a * (b - 1) == ab - a;
    }
    assert 0 <= a * r2;
    DivUnique(n, ab, q2, a * r2 + r);
  }

  /** Byte `i` of the encoding is bits 8i..8i+7 of `n`: `(n >>> 8i) & 0xff`. */
  lemma {:induction false} LittleEndianByte(n: nat, width: nat, i: nat)
    requires i < width
    ensures LittleEndian(n, width)[i] == (n / Pow256(i)) % 256
  {
    if i > 0 {
      LittleEndianByte(n / 256, width - 1, i - 1);
      DivDiv(n, 256, Pow256(i - 1));
    }
  }

  lemma {:induction false} LittleEndianZero(width: nat)
    ensures LittleEndian(0, width) == Zeros(width)
  {
    if width > 0 {
      LittleEndianZero(width - 1);
    }
  }

  // Two's complement.

  function Unsigned32(v: int32): (u: uint32)
    ensures u % TWO_32 == v % TWO_32
  {
    if v < 0 then v + TWO_32 else v
  }

  function Signed32(u: uint32): (v: int32)
    ensures v % TWO_32 == u % TWO_32
  {
    if u < TWO_31 then u else u - TWO_32
  }

  function Unsigned64(v: int64): (u: uint64)
    ensures u % TWO_64 == v % TWO_64
  {
    if v < 0 then v + TWO_64 else v
  }

  function Signed64(u: uint64): (v: int64)
    ensures v % TWO_64 == u % TWO_64
  {
    if u < TWO_63 then u else u - TWO_64
  }

  /** ByteBuffer.putInt in little-endian order. */
  function EncodeInt32(v: int32): (s: seq<byte>)
    ensures |s| == 4
  {
    LittleEndian(Unsigned32(v), 4)
  }

  /** ByteBuffer.putLong in little-endian order. */
  function EncodeInt64(v: int64): (s: seq<byte>)
    ensures |s| == 8
  {
    LittleEndian(Unsigned64(v), 8)
  }

  /** ByteBuffer.getInt in little-endian order. */
  function DecodeInt32(s: seq<byte>): int32
    requires |s| == 4
  {
    Pow256Widths();
    Signed32(FromLittleEndian(s))
  }

  /** ByteBuffer.getLong in little-endian order. */
  function DecodeInt64(s: seq<byte>): int64
    requires |s| == 8
  {
    Pow256Widths();
    Signed64(FromLittleEndian(s))
  }

  lemma DecodeEncodeInt32(v: int32)
    ensures DecodeInt32(EncodeInt32(v)) == v
  {
    Pow256Widths();
    FromLittleEndianInverse(Unsigned32(v), 4);
  }

  lemma DecodeEncodeInt64(v: int64)
    ensures DecodeInt64(EncodeInt64(v)) == v
  {
    Pow256Widths();
    FromLittleEndianInverse(Unsigned64(v), 8);
  }

  lemma EncodeDecodeInt32(s: seq<byte>)
    requires |s| == 4
    ensures EncodeInt32(DecodeInt32(s)) == s
  {
    Pow256Widths();
    LittleEndianInverse(s);
  }

  lemma EncodeDecodeInt64(s: seq<byte>)
    requires |s| == 8
    ensures EncodeInt64(DecodeInt64(s)) == s
  {
    Pow256Widths();
    LittleEndianInverse(s);
  }

  /** Byte i of putLong(v) is `(byte) (v >>> (i * 8))`: `>>>` shifts the unsigned bit pattern. */
  lemma EncodeInt64Byte(v: int64, i: nat)
    requires i < 8
    ensures EncodeInt64(v)[i] == (Unsigned64(v) / Pow256(i)) % 256
  {
    LittleEndianByte(Unsigned64(v), 8, i);
  }

  /** Zero is the only long whose encoding is eight zero bytes. */
  lemma EncodeInt64ZeroIff(v: int64)
    ensures EncodeInt64(v) == Zeros(8) <==> v == 0
  {
    LittleEndianZero(8);
    if EncodeInt64(v) == Zeros(8) {
      DecodeEncodeInt64(v);
      DecodeEncodeInt64(0);
    }
  }
}
