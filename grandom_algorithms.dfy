/**
 * The catalogue of 32-bit mixing functions of the noise sampler: fourteen named
 * algorithms, each a total function from an int seed to an int, and the switch
 * that picks one by its enum value. Every function is written over the C# integer
 * semantics of module CSharpInt, so wrap-around, masked shift counts and
 * sign-filling right shifts are exactly those of the C# code.
 */
module GRandomAlgorithms {
  import opened CSharpInt

  /**
   * The algorithm enum, in declaration order; a member's value is its position. Each
   * member carries the suffix Choice, so that it is not confused with the function it names.
   */
  datatype AlgorithmChoices =
    | AdaptedLehmer32Choice
    | Lehmer64Choice
    | XorShift32Choice
    | XorSeededShift32Choice
    | XorShift64Choice
    | XorSeededShift64Choice
    | XorShift128Choice
    | WyhashChoice
    | Reverse17Choice
    | Reverse23Choice
    | Xorshift7Choice
    | XorShift256Choice
    | XnTohlChoice
    | Xorshift64starChoice

  /** The enum's names, in declaration order. */
  const AllChoices: seq<AlgorithmChoices> := [
    AdaptedLehmer32Choice, Lehmer64Choice,
    XorShift32Choice, XorSeededShift32Choice,
    XorShift64Choice, XorSeededShift64Choice,
    XorShift128Choice, WyhashChoice,
    Reverse17Choice, Reverse23Choice,
    Xorshift7Choice, XorShift256Choice,
    XnTohlChoice, Xorshift64starChoice]

  /** The underlying integer value of an enum member. */
  function Value(c: AlgorithmChoices): int
  {
    match c
    case AdaptedLehmer32Choice => 0
    case Lehmer64Choice => 1
    case XorShift32Choice => 2
    case XorSeededShift32Choice => 3
    case XorShift64Choice => 4
    case XorSeededShift64Choice => 5
    case XorShift128Choice => 6
    case WyhashChoice => 7
    case Reverse17Choice => 8
    case Reverse23Choice => 9
    case Xorshift7Choice => 10
    case XorShift256Choice => 11
    case XnTohlChoice => 12
    case Xorshift64starChoice => 13
  }

  /** The names are listed once each, at the position of their value. */
  lemma ValueIsPosition(c: AlgorithmChoices)
    ensures 0 <= Value(c) < |AllChoices| && AllChoices[Value(c)] == c
  {
  }

  /** The number of names the enum declares. */
  function GetAlgorithmCount(): (n: nat)
    ensures n == 14
    ensures forall c: AlgorithmChoices :: Value(c) < n
  {
    |AllChoices|
  }

  /** The algorithm an enum member names. */
  function Mix(c: AlgorithmChoices, seed: Int32): Int32
  {
    match c
    case AdaptedLehmer32Choice => AdaptedLehmer32(seed)
    case Lehmer64Choice => Lehmer64(seed)
    case XorShift32Choice => Xorshift32(seed)
    case XorSeededShift32Choice => XorSeededShift32(seed)
    case XorShift64Choice => Xorshift64(seed)
    case XorSeededShift64Choice => XorSeededShift64(seed)
    case XorShift128Choice => Xorshift128(seed)
    case WyhashChoice => Wyhash(seed)
    case Reverse17Choice => Reverse17(seed)
    case Reverse23Choice => Reverse23(seed)
    case Xorshift7Choice => Xorshift7(seed)
    case XorShift256Choice => Xorshift256(seed)
    case XnTohlChoice => XnTohl(seed)
    case Xorshift64starChoice => Xorshift64star(seed)
  }

  /**
   * The switch of SelectAlgorithm over an enum value `algo` (a C# enum variable may
   * hold any int): each named value selects its own algorithm, and every other value
   * falls to the default branch, which selects AdaptedLehmer32.
   */
  function SelectAlgorithm(algo: int): (f: Int32 -> Int32)
    ensures 0 <= algo < GetAlgorithmCount() ==>
      forall seed: Int32 :: f(seed) == Mix(AllChoices[algo], seed)
    ensures !(0 <= algo < GetAlgorithmCount()) ==>
      forall seed: Int32 :: f(seed) == AdaptedLehmer32(seed)
  {
    if algo == 0 then seed => AdaptedLehmer32(seed)
    else if algo == 1 then seed => Lehmer64(seed)
    else if algo == 2 then seed => Xorshift32(seed)
    else if algo == 3 then seed => XorSeededShift32(seed)
    else if algo == 4 then seed => Xorshift64(seed)
    else if algo == 5 then seed => XorSeededShift64(seed)
    else if algo == 6 then seed => Xorshift128(seed)
    else if algo == 7 then seed => Wyhash(seed)
    else if algo == 8 then seed => Reverse17(seed)
    else if algo == 9 then seed => Reverse23(seed)
    else if algo == 10 then seed => Xorshift7(seed)
    else if algo == 11 then seed => Xorshift256(seed)
    else if algo == 12 then seed => XnTohl(seed)
    else if algo == 13 then seed => Xorshift64star(seed)
    else seed => AdaptedLehmer32(seed)
  }

  /** Selecting by a member's value gives that member's algorithm. */
  lemma SelectByName(c: AlgorithmChoices, seed: Int32)
    ensures SelectAlgorithm(Value(c))(seed) == Mix(c, seed)
  {
    ValueIsPosition(c);
  }

  // ---------------------------------------------------------------------------
  // The algorithms

  /** Two rounds of `v << 1 ^ v << 7 ^ v >> 4`; the first round does not fold the seed in. */
  function Xorshift7(seed: Int32): Int32
  {
    var r := Shl(seed, 1) ^ Shl(seed, 7) ^ Sar(seed, 4);
    r ^ (Shl(r, 1) ^ Shl(r, 7) ^ Sar(r, 4))
  }

  /**
   * xorshift256: randC, randD and t, and the updates to randA..randD, are computed
   * but never reach the result.
   */
  function Xorshift256(seed: Int32): Int32
  {
    var randA := seed;
    var randB := Xorshift32(randA);
    var randC := Xorshift64(randB);
    var randD := Xorshift128(randC);
    var rand := Rol64(randB * 5, 7) * 9;
    var t := Shl(randB, 17);
    var randC' := randC ^ randA;
    var randD' := randD ^ randB;
    var randB' := randB ^ randC';
    var randA' := randA ^ randD';
    var randC'' := randC' ^ t;
    var randD'' := Rol64(randD', 45);
    rand ^ XnTohl(rand)
  }

  /** Only xorshift32 of the seed, scaled, rotated and byte-swapped, decides Xorshift256. */
  lemma Xorshift256Result(seed: Int32)
    ensures var rand := Rol64(Xorshift32(seed) * 5, 7) * 9;
            Xorshift256(seed) == rand ^ XnTohl(rand)
  {
  }

  /**
   * `(x << k) | (x >> (64 - k))` on an int: both counts are masked to five bits, and the
   * right shift fills with the sign bit.
   */
  function Rol64(x: Int32, k: Int32): Int32
  {
    Shl(x, k) | Sar(x, 64 - k)
  }

  /** For a non-negative x, Rol64(x, 7) is the 32-bit rotation left by 7. */
  lemma Rol64RotatesNonNegative(x: Int32)
    requires !IsNegative(x)
    ensures Rol64(x, 7) == (x << 7) | (x >> 25)
  {
  }

  /** For a negative x it is not: the sign copies of `>> 25` overwrite the rotated bits. */
  lemma Rol64NotRotation()
    ensures Rol64(0x8000_0000, 7) == 0xFFFF_FFC0
    ensures (0x8000_0000 as Int32 << 7) | (0x8000_0000 as Int32 >> 25) == 0x40
  {
  }

  /** The byte at position i (0 is the least significant). */
  function Byte(x: Int32, i: Int32): Int32
    requires i < 4
  {
    (x >> (8 * i)) & 0xff
  }

  /**
   * XnTohl: the last term `rand & 0xff000000` is a long (the literal is a uint), so
   * its right shift brings in no sign copies, and the result is the byte-reversed seed.
   */
  function XnTohl(rand: Int32): (r: Int32)
    ensures forall i: Int32 :: i < 4 ==> Byte(r, i) == Byte(rand, 3 - i)
  {
    ToInt(ToLong(Shl(rand & 0xff, 24) | Shl(rand & 0xff00, 8) | Sar(rand & 0xff_0000, 8))
          | Sar64(ToLong(rand) & UIntToLong(0xff00_0000), 24))
  }

  /** Reversing the bytes twice gives the seed back. */
  lemma XnTohlInvolution(x: Int32)
    ensures XnTohl(XnTohl(x)) == x
  {
  }

  /** xorshift64star: the 13/7/17 rounds of Xorshift64, then a long multiply truncated to int. */
  function Xorshift64star(seed: Int32): Int32
  {
    var rand := seed;
    var rand1 := rand ^ Shl(rand, 13);
    var rand2 := rand1 ^ Sar(rand1, 7);
    var rand3 := rand2 ^ Shl(rand2, 17);
    StarScale(rand3)
  }

  /** `(int)(rand * 0x2545F4914F6CDD1D)`: the multiplier is a long, so the product is one and is truncated. */
  function StarScale(rand: Int32): Int32
  {
    ToInt(ToLong(rand) * 0x2545_F491_4F6C_DD1D)
  }

  /** xorshift64star is the closing multiply applied to xorshift64 of the seed. */
  lemma Xorshift64starScalesXorshift64(seed: Int32)
    ensures Xorshift64star(seed) == StarScale(Xorshift64(seed))
  {
  }

  /** xorshift32: three rounds, each folding a shift of the running value into it. */
  function Xorshift32(seed: Int32): Int32
  {
    var rand := seed;
    var rand1 := rand ^ Shl(rand, 13);
    var rand2 := rand1 ^ Sar(rand1, 17);
    rand2 ^ Shl(rand2, 5)
  }

  /** xorseededshift32: the same shifts, each applied to the original seed. */
  function XorSeededShift32(seed: Int32): Int32
  {
    var rand := seed;
    var value := rand;
    var rand1 := rand ^ Shl(value, 13);
    var rand2 := rand1 ^ Sar(value, 17);
    rand2 ^ Shl(value, 5)
  }

  /** xorshift64: three rounds with the counts 13, 7, 17, on an int. */
  function Xorshift64(seed: Int32): Int32
  {
    var rand := seed;
    var rand1 := rand ^ Shl(rand, 13);
    var rand2 := rand1 ^ Sar(rand1, 7);
    rand2 ^ Shl(rand2, 17)
  }

  /** xorseededshift64: the counts of Xorshift64, each applied to the original seed. */
  function XorSeededShift64(seed: Int32): Int32
  {
    var rand := seed;
    var value := rand;
    var rand1 := rand ^ Shl(value, 13);
    var rand2 := rand1 ^ Sar(value, 7);
    rand2 ^ Shl(value, 17)
  }

  /**
   * Applying each shift to the original seed, rather than to the running value,
   * changes the result: on seed 1 the chained variants pick up bits of their own
   * intermediate values that the seeded variants never see.
   */
  lemma SeededShiftsDiffer()
    ensures Xorshift32(1) == 0x42021 && XorSeededShift32(1) == 0x2021
    ensures Xorshift64(1) == 0x4082_2041 && XorSeededShift64(1) == 0x2_2001
  {
  }

  /** reverse17: the shift counts 34 and 51 act as 2 and 19; the result is non-negative. */
  function Reverse17(rand: Int32): (r: Int32)
    ensures !IsNegative(r)
  {
    (rand ^ Sar(rand, 17) ^ Sar(rand, 34) ^ Sar(rand, 51)) & MaxValue
  }

  /** reverse23: the shift count 46 acts as 14; the result is non-negative. */
  function Reverse23(rand: Int32): (r: Int32)
    ensures !IsNegative(r)
  {
    (rand ^ Shl(rand, 23) ^ Shl(rand, 46)) & MaxValue
  }

  /** The counts beyond 31 in Reverse17 and Reverse23 are taken modulo 32. */
  lemma ReverseShiftCounts(x: Int32)
    ensures Sar(x, 34) == Sar(x, 2) && Sar(x, 51) == Sar(x, 19)
    ensures Shl(x, 46) == Shl(x, 14)
  {
  }

  /** xorshift128: two shift rounds of the seed, then Reverse23(Reverse17(seed)) folded in. */
  function Xorshift128(seed: Int32): Int32
  {
    var value := seed;
    var val2 := Reverse23(Reverse17(value));
    var rand := value;
    var rand1 := rand ^ Shl(rand, 23);
    var rand2 := rand1 ^ Shl(rand1, 17);
    var rand3 := rand2 ^ val2;
    rand3 ^ Sar(val2, 7)
  }

  /** Lehmer64: `(int)(((ulong)value * 0xda942042e4dd58b5) >> 64)`. */
  function Lehmer64(seed: Int32): Int32
  {
    var value := seed;
    ToInt(Shr64(ToLong(value) * 0xda94_2042_e4dd_58b5, 64))
  }

  /** A ulong shift by 64 shifts by 0, so Lehmer64 keeps the low half of the product. */
  lemma Lehmer64KeepsLowProduct(seed: Int32)
    ensures Lehmer64(seed) == ToInt(ToLong(seed) * 0xda94_2042_e4dd_58b5)
  {
  }

  /** AdaptedLehmer32: offset by int.MaxValue (wrapping), then two multiply-and-fold rounds. */
  function AdaptedLehmer32(seed: Int32): Int32
  {
    var value := seed + MaxValue;
    var tmp := ToLong(value) * 0x4a39_b70d;
    var m1 := ToInt(Sar64(tmp, 32) ^ tmp);
    var tmp' := ToLong(m1) * 0x12fa_d5c9;
    ToInt(Sar64(tmp', 32) ^ tmp')
  }

  /** wyhash: all arithmetic is on longs; only the low 32 bits of the last fold are kept. */
  function Wyhash(seed: Int32): Int32
  {
    var value := seed;
    var v := ToLong(value) + 0x60be_e2be_e120_fc15;
    var tmp := v * 0x60be_e2be_e120_fc15;
    var m1 := Shl64(tmp, 16) ^ tmp;
    var tmp' := m1 * 0x1b03_7387_12fa_d5c9;
    var m2 := Sar64(tmp', 16) ^ tmp';
    ToInt(m2)
  }

  // ---------------------------------------------------------------------------
  // Degenerate seeds

  // Every algorithm but AdaptedLehmer32 and Wyhash maps the seed 0 to 0.

  lemma ShiftMixersFixZero()
    ensures Xorshift32(0) == 0 && Xorshift64(0) == 0
  {
  }

  lemma SeededMixersFixZero()
    ensures XorSeededShift32(0) == 0 && XorSeededShift64(0) == 0
  {
  }

  lemma Xorshift7FixesZero()
    ensures Xorshift7(0) == 0
  {
  }

  lemma ReverseMixersFixZero()
    ensures Reverse17(0) == 0 && Reverse23(0) == 0 && Xorshift128(0) == 0
  {
  }

  lemma ByteSwapFixesZero()
    ensures XnTohl(0) == 0 && Xorshift256(0) == 0
  {
  }

  lemma ProductMixersFixZero()
    ensures Lehmer64(0) == 0 && Xorshift64star(0) == 0
  {
  }

  /** The two exceptions: their additive constants move the seed 0 away from 0. */
  lemma OffsetMixersMoveZero()
    ensures AdaptedLehmer32(0) == 0x53AF_FE38
    ensures Wyhash(0) == 0xD86D_2F16
  {
  }

  /** AdaptedLehmer32 maps -int.MaxValue to 0: the offset wraps it to 0 first. */
  lemma AdaptedLehmer32Zero()
    ensures AdaptedLehmer32(0x8000_0001) == 0
  {
  }

  /**
   * The shift-only mixers are not one-to-one: a nonzero seed gives the same result as
   * the seed 0.
   */
  lemma NonzeroSeedsGiveZero()
    ensures Xorshift32(0xFC00_1FFF) == 0 && Xorshift64(0xFC00_1FFF) == 0
    ensures XorSeededShift32(0xAC26_B873) == 0
    ensures Reverse17(0xFFFF_FFFF) == 0 && Reverse23(0x8000_0000) == 0
    ensures Xorshift128(0xB75D_4ABD) == 0
  {
  }
}
