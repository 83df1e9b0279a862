/**
 * The bit layer of SAND.c: the rotation ROTL, the byte-lane permutation P,
 * the nibble-local nonlinear layers G0 and G1 and the key-schedule mixer A16x3.
 * Every function here is total on u64 words; each carries an inverse or an
 * independent reference definition and a lemma connecting the two.
 */
module Bits {
  import opened SandH

  // ---------------------------------------------------------------- ROTL

  /** ROTL: rotate x left by shift bit positions. Shifts of 0 or 64 are undefined in the source. */
  function Rotl(x: u64, shift: bv64): (r: u64)
    requires 0 < shift < 64
  {
    (x << shift) | (x >> (64 - shift))
  }

  /**
   * For the four amounts the cipher uses, ROTL agrees with the built-in rotation
   * and rotating by s and then by 64 - s gives back the word.
   */
  lemma RotlUsedAmounts(x: u64)
    ensures Rotl(x, 4) == x.RotateLeft(4) && Rotl(Rotl(x, 4), 60) == x
    ensures Rotl(x, 24) == x.RotateLeft(24) && Rotl(Rotl(x, 24), 40) == x
    ensures Rotl(x, 56) == x.RotateLeft(56) && Rotl(Rotl(x, 56), 8) == x
    ensures Rotl(x, 60) == x.RotateLeft(60) && Rotl(Rotl(x, 60), 4) == x
  {
  }

  // ---------------------------------------------------------------- P

  /** The even byte lanes 0, 2, 4, 6. */
  const EVEN_BYTES: u64 := 0x00FF_00FF_00FF_00FF
  /** The odd byte lanes 1, 3, 5, 7. */
  const ODD_BYTES: u64 := 0xFF00_FF00_FF00_FF00

  /** P: the byte-lane permutation applied once per round. */
  function P(x: u64): u64
  {
    Rotl(x & EVEN_BYTES, 56) | Rotl(x & ODD_BYTES, 24)
  }

  /** The even bytes, rotated by 56, land on the odd lanes. */
  lemma PEvenToOdd(x: u64)
    ensures P(x) & ODD_BYTES == Rotl(x & EVEN_BYTES, 56)
  {
  }

  /** The odd bytes, rotated by 24, land on the even lanes. */
  lemma POddToEven(x: u64)
    ensures P(x) & EVEN_BYTES == Rotl(x & ODD_BYTES, 24)
  {
  }

  /** The two rotated halves share no bit, so the OR that joins them is their XOR. */
  lemma PHalvesDisjoint(x: u64)
    ensures Rotl(x & EVEN_BYTES, 56) & Rotl(x & ODD_BYTES, 24) == 0
    ensures P(x) == Rotl(x & EVEN_BYTES, 56) ^ Rotl(x & ODD_BYTES, 24)
  {
  }

  /** The inverse byte permutation: odd lanes back by 8, even lanes back by 40. */
  function PInv(y: u64): (r: u64)
  {
    Rotl(y & ODD_BYTES, 8) | Rotl(y & EVEN_BYTES, 40)
  }

  /** PInv undoes P, so P is injective. */
  lemma PInvP(x: u64)
    ensures PInv(P(x)) == x
  {
  }

  /** P undoes PInv, so P is onto: together, P is a bijection on words. */
  lemma PPInv(y: u64)
    ensures P(PInv(y)) == y
  {
  }

  /** Byte k (0 = least significant) of x. */
  function Byte(x: u64, k: bv64): (b: u64)
    requires k < 8
    ensures b < 0x100
  {
    (x >> (8 * k)) & 0xFF
  }

  /** The eight bytes of x, least significant first. */
  function Bytes(x: u64): (s: seq<u64>)
    ensures |s| == 8
  {
    [Byte(x, 0), Byte(x, 1), Byte(x, 2), Byte(x, 3), Byte(x, 4), Byte(x, 5), Byte(x, 6), Byte(x, 7)]
  }

  /** For each output byte of P, the input byte it is taken from. */
  const P_SOURCE: seq<bv64> := [5, 2, 7, 4, 1, 6, 3, 0]

  /** Output byte k of P is input byte P_SOURCE[k]: P moves whole bytes. */
  lemma PMovesBytes(x: u64, k: bv64)
    requires k < 8
    ensures P_SOURCE[k] < 8 && Byte(P(x), k) == Byte(x, P_SOURCE[k])
  {
  }

  /** Number of set bits of a byte value b < 0x100. */
  function ByteWeight(b: u64): nat
  {
    (if b & 0x01 != 0 then 1 else 0) + (if b & 0x02 != 0 then 1 else 0) +
    (if b & 0x04 != 0 then 1 else 0) + (if b & 0x08 != 0 then 1 else 0) +
    (if b & 0x10 != 0 then 1 else 0) + (if b & 0x20 != 0 then 1 else 0) +
    (if b & 0x40 != 0 then 1 else 0) + (if b & 0x80 != 0 then 1 else 0)
  }

  /** Number of set bits of x, counted byte by byte. */
  function Weight(x: u64): nat
  {
    ByteWeight(Byte(x, 0)) + ByteWeight(Byte(x, 1)) + ByteWeight(Byte(x, 2)) + ByteWeight(Byte(x, 3)) +
    ByteWeight(Byte(x, 4)) + ByteWeight(Byte(x, 5)) + ByteWeight(Byte(x, 6)) + ByteWeight(Byte(x, 7))
  }

  /** P preserves the number of set bits. */
  lemma PPreservesWeight(x: u64)
    ensures Weight(P(x)) == Weight(x)
  {
    PMovesBytes(x, 0); PMovesBytes(x, 1); PMovesBytes(x, 2); PMovesBytes(x, 3);
    PMovesBytes(x, 4); PMovesBytes(x, 5); PMovesBytes(x, 6); PMovesBytes(x, 7);
  }

  // ---------------------------------------------------------------- G0, G1

  /** Bit 0, 1, 2 and 3 of each of the sixteen 4-bit lanes. */
  const LANE_BIT0: u64 := 0x1111_1111_1111_1111
  const LANE_BIT1: u64 := 0x2222_2222_2222_2222
  const LANE_BIT2: u64 := 0x4444_4444_4444_4444
  const LANE_BIT3: u64 := 0x8888_8888_8888_8888

  /** Lane j (bits 4j .. 4j+3) of x. */
  function Lane(x: u64, j: bv64): (n: u64)
    requires j < 16
  {
    (x >> (4 * j)) & 0xF
  }

  /** First step of G0: in every lane, bit 0 ^= bit 3 & bit 2. */
  function G0Step0(x: u64): u64
  {
    x ^ ((x >> 3) & (x >> 2) & LANE_BIT0)
  }

  /** Second step of G0: in every lane, bit 3 ^= bit 0 & bit 1. */
  function G0Step3(x: u64): u64
  {
    x ^ ((x << 3) & (x << 2) & LANE_BIT3)
  }

  /** G0: the two steps in source order. */
  function G0(x: u64): u64
  {
    G0Step3(G0Step0(x))
  }

  /** First step of G1: in every lane, bit 2 ^= bit 3 & bit 1. */
  function G1Step2(x: u64): u64
  {
    x ^ ((x >> 1) & (x << 1) & LANE_BIT2)
  }

  /** Second step of G1: in every lane, bit 1 ^= bit 0 & bit 2. */
  function G1Step1(x: u64): u64
  {
    x ^ ((x << 1) & (x >> 1) & LANE_BIT1)
  }

  /** G1: the two steps in source order. */
  function G1(x: u64): u64
  {
    G1Step1(G1Step2(x))
  }

  /** G0 changes only bits 0 and 3 of each lane. */
  lemma G0Touches(x: u64)
    ensures (G0(x) ^ x) & (LANE_BIT1 | LANE_BIT2) == 0
  {
  }

  /** G1 changes only bits 1 and 2 of each lane. */
  lemma G1Touches(x: u64)
    ensures (G1(x) ^ x) & (LANE_BIT0 | LANE_BIT3) == 0
  {
  }

  /** First step of G0 undone by itself: it reads bits 2 and 3 and writes only bit 0. */
  lemma G0Step0Involution(x: u64)
    ensures G0Step0(G0Step0(x)) == x
  {
  }

  /** Second step of G0 undone by itself: it reads bits 0 and 1 and writes only bit 3. */
  lemma G0Step3Involution(x: u64)
    ensures G0Step3(G0Step3(x)) == x
  {
  }

  /** First step of G1 undone by itself: it reads bits 1 and 3 and writes only bit 2. */
  lemma G1Step2Involution(x: u64)
    ensures G1Step2(G1Step2(x)) == x
  {
  }

  /** Second step of G1 undone by itself: it reads bits 0 and 2 and writes only bit 1. */
  lemma G1Step1Involution(x: u64)
    ensures G1Step1(G1Step1(x)) == x
  {
  }

  /** The inverse of G0: its two steps in reverse order. */
  function G0Inv(y: u64): u64
  {
    G0Step0(G0Step3(y))
  }

  /** The inverse of G1: its two steps in reverse order. */
  function G1Inv(y: u64): u64
  {
    G1Step2(G1Step1(y))
  }

  /** G0 is a bijection on words: G0Inv undoes it and it undoes G0Inv. */
  lemma G0Inverse(x: u64, y: u64)
    ensures G0Inv(G0(x)) == x
    ensures G0(G0Inv(y)) == y
  {
    G0Step0Involution(x);
    G0Step3Involution(G0Step0(x));
    G0Step3Involution(y);
    G0Step0Involution(G0Step3(y));
  }

  /** G1 is a bijection on words: G1Inv undoes it and it undoes G1Inv. */
  lemma G1Inverse(x: u64, y: u64)
    ensures G1Inv(G1(x)) == x
    ensures G1(G1Inv(y)) == y
  {
    G1Step2Involution(x);
    G1Step1Involution(G1Step2(x));
    G1Step1Involution(y);
    G1Step2Involution(G1Step1(y));
  }

  /** G0 works lane by lane: each output lane is G0 of the same input lane alone. */
  lemma G0LaneLocal(x: u64, j: bv64)
    requires j < 16
    ensures Lane(G0(x), j) == G0(Lane(x, j))
  {
  }

  /** G1 works lane by lane: each output lane is G1 of the same input lane alone. */
  lemma G1LaneLocal(x: u64, j: bv64)
    requires j < 16
    ensures Lane(G1(x), j) == G1(Lane(x, j))
  {
  }

  /** The 4-bit S-box that G0 applies to every lane. */
  const G0_SBOX: seq<u64> := [0, 1, 2, 11, 4, 5, 6, 15, 8, 9, 10, 3, 13, 12, 7, 14]
  /** The 4-bit S-box that G1 applies to every lane. */
  const G1_SBOX: seq<u64> := [0, 1, 2, 3, 4, 7, 6, 5, 8, 9, 14, 13, 12, 15, 10, 11]

  /** On a single lane value, G0 is the table G0_SBOX. */
  lemma G0IsSbox(n: u64)
    requires n < 16
    ensures G0(n) == G0_SBOX[n]
  {
  }

  /** On a single lane value, G1 is the table G1_SBOX. */
  lemma G1IsSbox(n: u64)
    requires n < 16
    ensures G1(n) == G1_SBOX[n]
  {
  }

  /** G0 applies G0_SBOX to each of the sixteen lanes independently. */
  lemma G0Lane(x: u64, j: bv64)
    requires j < 16
    ensures Lane(G0(x), j) == G0_SBOX[Lane(x, j)]
  {
    G0LaneLocal(x, j);
    G0IsSbox(Lane(x, j));
  }

  /** G1 applies G1_SBOX to each of the sixteen lanes independently. */
  lemma G1Lane(x: u64, j: bv64)
    requires j < 16
    ensures Lane(G1(x), j) == G1_SBOX[Lane(x, j)]
  {
    G1LaneLocal(x, j);
    G1IsSbox(Lane(x, j));
  }

  // ---------------------------------------------------------------- A16x3

  /** Bits 0 .. 55: everything below the top byte. */
  const BELOW_TOP_BYTE: u64 := 0x00FF_FFFF_FFFF_FFFF
  /** Bits 0 .. 47: the bits A16x3 leaves as a plain rotation. */
  const LOW_48: u64 := 0x0000_FFFF_FFFF_FFFF

  /** t: the nibble at bits 56 .. 59. */
  function Top(x: u64): u64
  {
    (x >> 56) & 0xF
  }

  /**
   * The value XORed into the top byte for nibble t: t rotated left by one
   * within its 4 bits goes to bits 60 .. 63, and bit 0 of t goes to bit 59.
   */
  function FoldMask(t: u64): u64
  {
    (((t << 1) | (t >> 3)) << 60) ^ (((t << 3) & 0xF) << 56)
  }

  /** One iteration of A16x3: rotate by 60, then fold the nibble at bits 56 .. 59 into the top byte. */
  function A16Step(x: u64): u64
  {
    Rotl(x, 60) ^ FoldMask(Top(Rotl(x, 60)))
  }

  /** n iterations of A16Step; A16x3 is three of them. */
  function A16Iterate(x: u64, n: nat): u64
  {
    if n == 0 then x else A16Step(A16Iterate(x, n - 1))
  }

  /** An iteration changes only the top byte of the rotated word. */
  lemma A16StepTopByte(x: u64)
    ensures A16Step(x) & BELOW_TOP_BYTE == Rotl(x, 60) & BELOW_TOP_BYTE
  {
  }

  /** Three iterations, written out, leave bits 0 .. 47 equal to ROTL(x, 52). */
  lemma A16StepThriceLow48(x: u64)
    ensures A16Step(A16Step(A16Step(x))) & LOW_48 == Rotl(x, 52) & LOW_48
  {
  }

  /** A16Iterate(x, 3) is A16Step applied three times. */
  lemma A16IterateThree(x: u64)
    ensures A16Iterate(x, 3) == A16Step(A16Step(A16Step(x)))
  {
    assert A16Iterate(x, 1) == A16Step(x);
    assert A16Iterate(x, 2) == A16Step(A16Step(x));
  }

  /** Three iterations leave bits 0 .. 47 equal to ROTL(x, 52). */
  lemma A16x3Low48(x: u64)
    ensures A16Iterate(x, 3) & LOW_48 == Rotl(x, 52) & LOW_48
  {
    A16IterateThree(x);
    A16StepThriceLow48(x);
  }

  /** The nibble t that the iteration read, recovered from the nibble it left at bits 56 .. 59. */
  function TopBefore(y: u64): u64
  {
    Top(y) ^ ((Top(y) << 3) & 0xF)
  }

  /** Undoes A16Step: clear the fold, then rotate back by 4. */
  function A16StepInv(y: u64): u64
  {
    Rotl(y ^ FoldMask(TopBefore(y)), 4)
  }

  /** A16StepInv undoes A16Step. */
  lemma A16StepInverse(x: u64)
    ensures A16StepInv(A16Step(x)) == x
  {
  }

  /** Undoes n iterations of A16Step, last iteration first. */
  function A16IterateInv(y: u64, n: nat): u64
    decreases n
  {
    if n == 0 then y else A16IterateInv(A16StepInv(y), n - 1)
  }

  /** A16IterateInv undoes A16Iterate, so A16x3 is injective. */
  lemma {:induction false} A16IterateInverse(x: u64, n: nat)
    ensures A16IterateInv(A16Iterate(x, n), n) == x
  {
    if n > 0 {
      A16StepInverse(A16Iterate(x, n - 1));
      A16IterateInverse(x, n - 1);
    }
  }

  /** A16x3: three iterations of rotate-and-fold, as the source's loop computes them. */
  method A16x3(x: u64) returns (r: u64)
    ensures r == A16Iterate(x, 3)
  {
    r := x;
    for i := 0 to 3
      invariant r == A16Iterate(x, i)
    {
      r := Rotl(r, 60);
      var t := Top(r);
      r := r ^ FoldMask(t);
    }
  }
}
