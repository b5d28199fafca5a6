/**
 * Fixed-width integers of the 32-bit build the plugin targets: bytes,
 * int32_t/uint32_t conversions and the little-endian layout of a 32-bit value
 * in memory. Dafny integers are unbounded, so every wrap-around the C++ code
 * relies on is written out here.
 */
module Cstdint {
  const TWO_8: int := 0x100
  const TWO_31: int := 0x8000_0000
  const TWO_32: int := 0x1_0000_0000

  newtype byte = b: int | 0 <= b < 0x100

  /** Conversion to uint32_t (or to a 32-bit pointer): keeps the low 32 bits. */
  function U32(x: int): (r: nat)
    ensures r < TWO_32
    ensures (x - r) % TWO_32 == 0
  {
    x % TWO_32
  }

  /** Conversion to int32_t: the two's complement reading of the low 32 bits. */
  function S32(x: int): (r: int)
    ensures -TWO_31 <= r < TWO_31
    ensures U32(r) == U32(x)
  {
    var u := U32(x);
    if u < TWO_31 then u else u - TWO_32
  }

  /** A value already in the 32-bit range is its own U32 image. */
  lemma U32OfSmall(x: int)
    requires 0 <= x < TWO_32
    ensures U32(x) == x
  {
  }

  /** Truncating twice is truncating once. */
  lemma U32Idempotent(x: int)
    ensures U32(U32(x)) == U32(x)
  {
    U32OfSmall(U32(x));
  }

  /** Two integers with the same low 32 bits have the same U32 image. */
  lemma U32Congruent(x: int, y: int)
    requires (x - y) % TWO_32 == 0
    ensures U32(x) == U32(y)
  {
    var k := (x - y) / TWO_32;
    assert x == y + k * TWO_32;
    assert x % TWO_32 == (y + k * TWO_32) % TWO_32;
  }

  /** Adding 32-bit values wraps: only the low 32 bits of the operands matter. */
  lemma {:induction false} U32OfSum(a: int, b: int, a': int, b': int)
    requires U32(a) == U32(a') && U32(b) == U32(b')
    ensures U32(a + b) == U32(a' + b')
  {
    assert (a - a') % TWO_32 == 0 by {
      U32Diff(a, a');
    }
    assert (b - b') % TWO_32 == 0 by {
      U32Diff(b, b');
    }
    var ka := (a - a') / TWO_32;
    var kb := (b - b') / TWO_32;
    assert (a + b) - (a' + b') == (ka + kb) * TWO_32;
    U32Congruent(a + b, a' + b');
  }

  /** Equal U32 images differ by a multiple of 2^32. */
  lemma U32Diff(x: int, y: int)
    requires U32(x) == U32(y)
    ensures (x - y) % TWO_32 == 0
  {
    var qx, qy := x / TWO_32, y / TWO_32;
    assert x == qx * TWO_32 + U32(x);
    assert y == qy * TWO_32 + U32(y);
    assert x - y == (qx - qy) * TWO_32;
  }

  /** Subtracting 32-bit values wraps too. */
  lemma U32OfDiff(a: int, b: int, a': int, b': int)
    requires U32(a) == U32(a') && U32(b) == U32(b')
    ensures U32(a - b) == U32(a' - b')
  {
    U32Diff(a, a');
    U32Diff(b, b');
    var ka, kb := (a - a') / TWO_32, (b - b') / TWO_32;
    assert a - a' == ka * TWO_32;
    assert b - b' == kb * TWO_32;
    assert (a - b) - (a' - b') == (ka - kb) * TWO_32;
    U32Congruent(a - b, a' - b');
  }

  /** The four bytes memcpy copies out of a 32-bit value, lowest byte first. */
  function LE32(v: int): (bs: seq<byte>)
    requires 0 <= v < TWO_32
    ensures |bs| == 4
  {
    [(v % 0x100) as byte, ((v / 0x100) % 0x100) as byte,
     ((v / 0x1_0000) % 0x100) as byte, (v / 0x100_0000) as byte]
  }

  /** The unsigned value of four bytes read little-endian. */
  function FromLE32(bs: seq<byte>): (v: nat)
    requires |bs| == 4
    ensures v < TWO_32
  {
    bs[0] as int + 0x100 * bs[1] as int + 0x1_0000 * bs[2] as int + 0x100_0000 * bs[3] as int
  }

  /** Reading back the bytes of a 32-bit value gives the value. */
  lemma {:induction false} FromLE32OfLE32(v: int)
    requires 0 <= v < TWO_32
    ensures FromLE32(LE32(v)) == v
  {
    var b0, q0 := v % 0x100, v / 0x100;
    var b1, q1 := q0 % 0x100, q0 / 0x100;
    var b2, b3 := q1 % 0x100, q1 / 0x100;
    assert v == b0 + 0x100 * q0;
    assert q0 == b1 + 0x100 * q1;
    assert q1 == b2 + 0x100 * b3;
    assert v / 0x1_0000 == q1 by {
      assert v == b0 + 0x100 * b1 + 0x1_0000 * q1;
    }
    assert v / 0x100_0000 == b3 by {
      assert v == b0 + 0x100 * b1 + 0x1_0000 * b2 + 0x100_0000 * b3;
    }
    assert LE32(v) == [b0 as byte, b1 as byte, b2 as byte, b3 as byte];
  }

  /** Writing the value of four bytes gives back the same four bytes. */
  lemma {:induction false} LE32OfFromLE32(bs: seq<byte>)
    requires |bs| == 4
    ensures LE32(FromLE32(bs)) == bs
  {
    var v := FromLE32(bs);
    var b0, b1, b2, b3 := bs[0] as int, bs[1] as int, bs[2] as int, bs[3] as int;
    var q1 := b2 + 0x100 * b3;
    var q0 := b1 + 0x100 * q1;
    assert v == b0 + 0x100 * q0;
    assert v % 0x100 == b0 && v / 0x100 == q0;
    assert q0 % 0x100 == b1 && q0 / 0x100 == q1;
    assert v / 0x1_0000 == q1 by {
      assert v == b0 + 0x100 * b1 + 0x1_0000 * q1;
    }
    assert q1 % 0x100 == b2;
    assert v / 0x100_0000 == b3 by {
      assert v == (b0 + 0x100 * b1 + 0x1_0000 * b2) + 0x100_0000 * b3;
    }
  }
}
