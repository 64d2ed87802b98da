/**
 * The C# integer semantics the random algorithms depend on, written out: `int` and
 * `long`/`ulong` are two's-complement bit patterns of 32 and 64 bits, arithmetic is
 * unchecked (it wraps), a shift count is masked to its low five (int) or six (long)
 * bits, `>>` on `int` and `long` copies the sign bit while on `ulong` it fills with
 * zeros, `(long)x` and `(ulong)x` on an int sign-extend and `(int)x` keeps the low
 * 32 bits.
 */
module CSharpInt {

  /** A C# `int` (System.Int32), as its bit pattern. */
  type Int32 = bv32

  /** A C# `long` or `ulong`: both are 64-bit patterns; only `>>` and the casts differ. */
  type Int64 = bv64

  /** `int.MaxValue`, also `Int32.MaxValue`. */
  const MaxValue: Int32 := 0x7FFF_FFFF

  const SignBit: Int32 := 0x8000_0000
  const SignBit64: Int64 := 0x8000_0000_0000_0000

  predicate IsNegative(x: Int32) { x & SignBit != 0 }

  predicate IsNegative64(x: Int64) { x & SignBit64 != 0 }

  /** All ones when `x` is negative, all zeros otherwise. */
  function Fill(x: Int32): Int32 { 0 - (x >> 31) }

  function Fill64(x: Int64): Int64 { 0 - (x >> 63) }

  /** `x << count` on an int: only the low five bits of the count are used. */
  function Shl(x: Int32, count: Int32): Int32 { x << (count & 31) }

  /** `x >> count` on an int: the vacated high bits are copies of the sign bit. */
  function Sar(x: Int32, count: Int32): Int32 { SarBits(x, count & 31) }

  /** The logical shift by the count, with the sign copied into the vacated high bits. */
  function SarBits(x: Int32, count: Int32): Int32 { (x >> (count & 31)) | SignCopies(x, count) }

  /** The bits `x >> count` copies the sign into: the top `count & 31` bits, when x is negative. */
  function SignCopies(x: Int32, count: Int32): Int32 { Fill(x) << (32 - (count & 31)) }

  /** `x << count` on a long or ulong: only the low six bits of the count are used. */
  function Shl64(x: Int64, count: Int32): Int64 { x << ((count & 63) as bv64) }

  /** `x >> count` on a long (sign-filling). */
  function Sar64(x: Int64, count: Int32): Int64 { SarBits64(x, count & 63) }

  /** The 64-bit counterpart of SarBits. */
  function SarBits64(x: Int64, count: Int32): Int64 { (x >> ((count & 63) as bv64)) | SignCopies64(x, count) }

  /** The bits `x >> count` on a long copies the sign into. */
  function SignCopies64(x: Int64, count: Int32): Int64 { Fill64(x) << (64 - ((count & 63) as bv64)) }

  /** `x >> count` on a ulong (zero-filling). */
  function Shr64(x: Int64, count: Int32): Int64 { x >> ((count & 63) as bv64) }

  /** `(long)x` or `(ulong)x` for an int `x`, and the implicit int-to-long promotion. */
  function ToLong(x: Int32): Int64 { (x as bv64) | ((Fill(x) as bv64) << 32) }

  /** `(int)x` for a long or ulong `x` in an unchecked context. */
  function ToInt(x: Int64): Int32 { (x & 0xFFFF_FFFF) as bv32 }

  /** The literal `0xff000000`: a `uint`, which widens to a long without sign extension. */
  function UIntToLong(x: Int32): Int64 { x as bv64 }

  // Reference characterisations of the shifts and casts above.

  lemma SarNonNegative(x: Int32, count: Int32)
    requires !IsNegative(x)
    ensures Sar(x, count) == x >> (count & 31)
  {
  }

  lemma SarNegative(x: Int32, count: Int32)
    requires IsNegative(x)
    ensures Sar(x, count) == (x >> (count & 31)) | !(0xFFFF_FFFF >> (count & 31))
  {
    MaskedTwice(count);
    SignCopiesNegative(x, count & 31);
    OrEqual(x >> (count & 31), SignCopies(x, count & 31), !(0xFFFF_FFFF >> (count & 31)));
  }

  /** On a negative int the sign copies are exactly the bits a logical shift by the count clears. */
  lemma SignCopiesNegative(x: Int32, count: Int32)
    requires IsNegative(x)
    ensures SignCopies(x, count) == !(0xFFFF_FFFF >> (count & 31))
  {
    assert Fill(x) == 0xFFFF_FFFF;
  }

  /** A count already masked is unchanged by masking it again. */
  lemma MaskedTwice(count: Int32)
    ensures (count & 31) & 31 == count & 31 && (count & 63) & 63 == count & 63
  {
  }

  /** Or-ing equal masks into the same bits gives equal results (a congruence step the solver will not take unaided). */
  lemma OrEqual(a: Int32, m: Int32, m': Int32)
    requires m == m'
    ensures a | m == a | m'
  {
  }

  /** The 64-bit counterpart of OrEqual. */
  lemma OrEqual64(a: Int64, m: Int64, m': Int64)
    requires m == m'
    ensures a | m == a | m'
  {
  }

  lemma Sar64NonNegative(x: Int64, count: Int32)
    requires !IsNegative64(x)
    ensures Sar64(x, count) == x >> ((count & 63) as bv64)
  {
  }

  lemma Sar64Negative(x: Int64, count: Int32)
    requires IsNegative64(x)
    ensures Sar64(x, count) == (x >> ((count & 63) as bv64)) | !(0xFFFF_FFFF_FFFF_FFFF >> ((count & 63) as bv64))
  {
    MaskedTwice(count);
    SignCopies64Negative(x, count & 63);
    OrEqual64(x >> ((count & 63) as bv64), SignCopies64(x, count & 63), !(0xFFFF_FFFF_FFFF_FFFF >> ((count & 63) as bv64)));
  }

  /** The 64-bit counterpart of SignCopiesNegative. */
  lemma SignCopies64Negative(x: Int64, count: Int32)
    requires IsNegative64(x)
    ensures SignCopies64(x, count) == !(0xFFFF_FFFF_FFFF_FFFF >> ((count & 63) as bv64))
  {
    assert Fill64(x) == 0xFFFF_FFFF_FFFF_FFFF;
  }
}
