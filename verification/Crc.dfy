/**
 * The CRC of section 5.3 of [MS-PST] (`ms::ComputeCRC` in `include/utils.h`).
 *
 * Reference: a reflected CRC that shifts one message bit at a time through a register, with polynomial 0xEDB88320.
 */
module Crc {
  const POLYNOMIAL: bv32 := 0xEDB88320

  function Xor(a: bv32, b: bv32): bv32 {
    a ^ b
  }

  // ----- the register

  /** One step of the register: shift out the low bit and subtract the polynomial when it was set. */
  function Bit(x: bv32): bv32 {
    if x & 1 == 1 then (x >> 1) ^ POLYNOMIAL else x >> 1
  }

  /** `n` steps of the register. */
  function Bits(n: nat, x: bv32): bv32 {
    if n == 0 then x else Bits(n - 1, Bit(x))
  }

  /** `n` right shifts by one. */
  function Shifted(n: nat, w: bv32): bv32 {
    if n == 0 then w else Shifted(n - 1, w >> 1)
  }

  // ----- reference: one message bit at a time, least significant bit of each byte first

  function AsWord(b: bool): bv32 {
    if b then 1 else 0
  }

  function SerialCrc(crc: bv32, message: seq<bool>): bv32
    decreases |message|
  {
    if |message| == 0 then crc else SerialCrc(Bit(Xor(crc, AsWord(message[0]))), message[1..])
  }

  /** The `n` low bits of a byte, least significant first. */
  function LowBits(n: nat, b: bv8): (m: seq<bool>)
    ensures |m| == n
  {
    if n == 0 then [] else [b & 1 == 1] + LowBits(n - 1, b >> 1)
  }

  function ByteBits(b: bv8): (m: seq<bool>)
    ensures |m| == 8
  {
    LowBits(8, b)
  }

  function MessageBits(s: seq<bv8>): (m: seq<bool>)
    ensures |m| == 8 * |s|
  {
    if s == [] then [] else MessageBits(s[..|s| - 1]) + ByteBits(s[|s| - 1])
  }

  // ----- one byte at a time

  function ByteStep(crc: bv32, b: bv8): bv32 {
    Bits(8, Xor(crc, b as bv32))
  }

  function BytewiseCrc(crc: bv32, s: seq<bv8>): bv32 {
    if s == [] then crc else ByteStep(BytewiseCrc(crc, s[..|s| - 1]), s[|s| - 1])
  }

  // ----- linearity of the register over exclusive or

  lemma XorAssociative(a: bv32, b: bv32, c: bv32)
    ensures Xor(Xor(a, b), c) == Xor(a, Xor(b, c))
  {
  }

  lemma XorBasics(a: bv32, b: bv32)
    ensures Xor(a, a) == 0 && Xor(a, 0) == a && Xor(0, a) == a
    ensures Xor(a, b) == Xor(b, a)
    ensures Xor(a, b) == 0 <==> a == b
  {
  }

  lemma XorAlgebra(a: bv32, b: bv32, c: bv32, d: bv32)
    ensures Xor(Xor(a, b), Xor(c, d)) == Xor(Xor(a, c), Xor(b, d))
    ensures Xor(Xor(a, b), c) == Xor(a, Xor(b, c)) == Xor(Xor(a, c), b)
  {
    XorAssociative(a, b, c);
    XorAssociative(a, c, b);
    XorBasics(b, c);
    XorAssociative(a, b, Xor(c, d));
    XorAssociative(b, c, d);
    XorAssociative(c, b, d);
    XorAssociative(a, c, Xor(b, d));
  }

  lemma BitXor(x: bv32, y: bv32)
    ensures Bit(Xor(x, y)) == Xor(Bit(x), Bit(y))
  {
    assert Xor(x, y) >> 1 == Xor(x >> 1, y >> 1);
    BitIsXor(x);
    BitIsXor(y);
    BitIsXor(Xor(x, y));
    LowBitXor(x, y);
    var p, q := if x & 1 == 1 then POLYNOMIAL else 0, if y & 1 == 1 then POLYNOMIAL else 0;
    assert Xor(p, q) == if Xor(x, y) & 1 == 1 then POLYNOMIAL else 0;
    XorAlgebra(x >> 1, y >> 1, p, q);
  }

  lemma BitIsXor(x: bv32)
    ensures Bit(x) == Xor(x >> 1, if x & 1 == 1 then POLYNOMIAL else 0)
  {
    XorBasics(x >> 1, 0);
  }

  lemma LowBitXor(x: bv32, y: bv32)
    ensures Xor(x, y) & 1 == 1 <==> (x & 1 == 1) != (y & 1 == 1)
  {
  }

  lemma {:induction false} BitsXor(n: nat, x: bv32, y: bv32)
    ensures Bits(n, Xor(x, y)) == Xor(Bits(n, x), Bits(n, y))
  {
    if n == 0 {
    } else {
      BitXor(x, y);
      BitsXor(n - 1, Bit(x), Bit(y));
    }
  }

  lemma {:induction false} BitsAdd(m: nat, n: nat, x: bv32)
    ensures Bits(m + n, x) == Bits(n, Bits(m, x))
  {
    if m == 0 {
    } else {
      BitsAdd(m - 1, n, Bit(x));
    }
  }

  /** The register holds zero exactly when it held zero before: a difference never vanishes by shifting alone. */
  lemma {:induction false} BitsZero(n: nat, x: bv32)
    ensures Bits(n, x) == 0 <==> x == 0
  {
    if n == 0 {
    } else {
      BitZero(x);
      BitsZero(n - 1, Bit(x));
    }
  }

  lemma BitZero(x: bv32)
    ensures Bit(x) == 0 <==> x == 0
  {
    if x & 1 == 1 {
      TopBitSet(x);
    } else {
      XorBasics(x >> 1, 0);
      EvenZero(x);
    }
  }

  lemma TopBitSet(x: bv32)
    ensures Xor(x >> 1, POLYNOMIAL) != 0
  {
  }

  lemma EvenZero(x: bv32)
    requires x & 1 != 1
    ensures x >> 1 == 0 <==> x == 0
  {
  }

  // ----- feeding a word: message bits already in a register can be added all at once

  /** `n` steps that feed the low bits of `w` one after the other. */
  function FeedWord(n: nat, crc: bv32, w: bv32): bv32 {
    if n == 0 then crc else FeedWord(n - 1, Bit(Xor(crc, w & 1)), w >> 1)
  }

  lemma FeedBit(crc: bv32, w: bv32)
    ensures Xor(Bit(Xor(crc, w & 1)), w >> 1) == Bit(Xor(crc, w))
  {
    var high := w & 0xFFFF_FFFE;
    HighPart(w);
    XorBasics(w >> 1, 0);
    XorAlgebra(crc, w & 1, high, 0);
    BitXor(Xor(crc, w & 1), high);
  }

  lemma HighPart(w: bv32)
    ensures (w & 0xFFFF_FFFE) >> 1 == w >> 1 && (w & 0xFFFF_FFFE) & 1 == 0
    ensures w == Xor(w & 1, w & 0xFFFF_FFFE)
  {
  }

  lemma {:induction false} FeedWordIsBits(n: nat, crc: bv32, w: bv32)
    ensures Xor(FeedWord(n, crc, w), Shifted(n, w)) == Bits(n, Xor(crc, w))
  {
    if n == 0 {
    } else {
      FeedBit(crc, w);
      FeedWordIsBits(n - 1, Bit(Xor(crc, w & 1)), w >> 1);
    }
  }

  lemma {:induction false} ShiftedAdd(m: nat, n: nat, w: bv32)
    ensures Shifted(m + n, w) == Shifted(n, Shifted(m, w))
  {
    if m == 0 {
    } else {
      ShiftedAdd(m - 1, n, w >> 1);
    }
  }

  lemma Shifted8(w: bv32)
    ensures Shifted(8, w) == w >> 8
  {
    ShiftChain(w);
    assert Shifted(8, w) == Shifted(7, w >> 1) == Shifted(6, w >> 2);
    assert Shifted(6, w >> 2) == Shifted(5, w >> 3) == Shifted(4, w >> 4);
    assert Shifted(4, w >> 4) == Shifted(3, w >> 5) == Shifted(2, w >> 6);
    assert Shifted(2, w >> 6) == Shifted(1, w >> 7) == Shifted(0, w >> 8);
  }

  lemma ShiftChain(w: bv32)
    ensures (w >> 1) >> 1 == w >> 2 && (w >> 2) >> 1 == w >> 3 && (w >> 3) >> 1 == w >> 4 && (w >> 4) >> 1 == w >> 5
    ensures (w >> 5) >> 1 == w >> 6 && (w >> 6) >> 1 == w >> 7 && (w >> 7) >> 1 == w >> 8
  {
  }

  lemma LowByte(w: bv32)
    ensures w == Xor(w & 0xFF, (w >> 8) << 8)
    ensures ((w >> 8) << 8) & 0xFF == 0 && ((w >> 8) << 8) >> 8 == w >> 8
  {
  }

  /** Steps over a register whose low bits are zero only move the rest down. */
  lemma MoveDown2(w: bv32)
    requires w & 0x3 == 0
    ensures Bits(2, w) == w >> 2
  {
    var w1 := w >> 1;
    TwoBits(w);
    EvenBit(w);
    EvenBit(w1);
    assert Bits(2, w) == Bits(1, w1) == Bits(0, w1 >> 1);
  }

  lemma TwoBits(w: bv32)
    requires w & 0x3 == 0
    ensures w & 1 == 0 && (w >> 1) & 1 == 0 && (w >> 1) >> 1 == w >> 2
  {
  }

  lemma MoveDown4(w: bv32)
    requires w & 0xF == 0
    ensures Bits(4, w) == w >> 4
  {
    FourBits(w);
    MoveDown2(w);
    MoveDown2(w >> 2);
    TwicePairs(w, w >> 2, w >> 4);
  }

  lemma TwicePairs(w: bv32, w2: bv32, w4: bv32)
    requires Bits(2, w) == w2 && Bits(2, w2) == w4
    ensures Bits(4, w) == w4
  {
    BitsAdd(2, 2, w);
  }

  lemma FourBits(w: bv32)
    requires w & 0xF == 0
    ensures w & 0x3 == 0 && (w >> 2) & 0x3 == 0 && (w >> 2) >> 2 == w >> 4
  {
  }

  lemma MoveDown(w: bv32)
    requires w & 0xFF == 0
    ensures Bits(8, w) == w >> 8
  {
    EightBits(w);
    MoveDown4(w);
    MoveDown4(w >> 4);
    BitsAdd(4, 4, w);
  }

  lemma EightBits(w: bv32)
    requires w & 0xFF == 0
    ensures w & 0xF == 0 && (w >> 4) & 0xF == 0 && (w >> 4) >> 4 == w >> 8
  {
  }

  lemma EvenBit(w: bv32)
    requires w & 1 == 0
    ensures Bit(w) == w >> 1
  {
    XorBasics(w >> 1, 0);
  }

  /** Feeding the low byte of `w` leaves the other three bytes still to be added. */
  lemma FeedByte(crc: bv32, w: bv32)
    ensures Xor(Bits(8, Xor(crc, w & 0xFF)), w >> 8) == Bits(8, Xor(crc, w))
  {
    LowByte(w);
    MoveDown((w >> 8) << 8);
    FeedParts(8, crc, w, w & 0xFF, (w >> 8) << 8, w >> 8);
  }

  lemma FeedParts(n: nat, crc: bv32, w: bv32, low: bv32, high: bv32, moved: bv32)
    requires w == Xor(low, high) && Bits(n, high) == moved
    ensures Xor(Bits(n, Xor(crc, low)), moved) == Bits(n, Xor(crc, w))
  {
    XorAssociative(crc, low, high);
    BitsXor(n, Xor(crc, low), high);
  }
}
