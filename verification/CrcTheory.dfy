/** Properties of the CRC over all messages: the bit-serial reading, concatenation, linearity and burst detection. */
module CrcTheory {
  import opened Crc
  import opened CrcLiterals
  import opened CrcSlicing

  // ----- the byte-wise CRC is the bit-serial CRC

  lemma {:induction false} SerialConcat(crc: bv32, a: seq<bool>, b: seq<bool>)
    ensures SerialCrc(crc, a + b) == SerialCrc(SerialCrc(crc, a), b)
    decreases |a|
  {
    if |a| == 0 {
      assert a + b == b;
    } else {
      SerialConcat(Bit(Xor(crc, AsWord(a[0]))), a[1..], b);
      assert (a + b)[1..] == a[1..] + b;
    }
  }

  /** `message` is the low bits of `w`, in order. */
  ghost predicate BitsOfWord(message: seq<bool>, w: bv32) {
    forall j :: 0 <= j < |message| ==> message[j] == (Shifted(j, w) & 1 == 1)
  }

  lemma BitOfTail(message: seq<bool>, w: bv32, j: nat)
    requires j + 1 < |message| && BitsOfWord(message, w)
    ensures message[j + 1] == (Shifted(j, w >> 1) & 1 == 1)
  {
    assert Shifted(j + 1, w) == Shifted(j, w >> 1);
  }

  lemma TailOfWord(message: seq<bool>, w: bv32)
    requires |message| != 0 && BitsOfWord(message, w)
    ensures AsWord(message[0]) == w & 1 && BitsOfWord(message[1..], w >> 1)
  {
    assert message[0] == (Shifted(0, w) & 1 == 1);
    LowBit(w);
    forall j | 0 <= j < |message| - 1
      ensures message[1..][j] == (Shifted(j, w >> 1) & 1 == 1)
    {
      BitOfTail(message, w, j);
    }
  }

  lemma LowBit(w: bv32)
    ensures AsWord(w & 1 == 1) == w & 1
  {
  }

  lemma {:induction false} SerialIsFeedWord(crc: bv32, message: seq<bool>, w: bv32)
    requires BitsOfWord(message, w)
    ensures SerialCrc(crc, message) == FeedWord(|message|, crc, w)
    decreases |message|
  {
    if |message| == 0 {
    } else {
      TailOfWord(message, w);
      SerialIsFeedWord(Bit(Xor(crc, AsWord(message[0]))), message[1..], w >> 1);
    }
  }

  lemma {:induction false} SerialLowBits(n: nat, crc: bv32, b: bv8)
    ensures SerialCrc(crc, LowBits(n, b)) == FeedWord(n, crc, b as bv32)
  {
    if n == 0 {
    } else {
      var bits := LowBits(n, b);
      assert bits[1..] == LowBits(n - 1, b >> 1);
      WidenShift(b);
      SerialLowBits(n - 1, Bit(Xor(crc, AsWord(bits[0]))), b >> 1);
    }
  }

  lemma WidenShift(b: bv8)
    ensures (b >> 1) as bv32 == (b as bv32) >> 1 && AsWord(b & 1 == 1) == (b as bv32) & 1
    ensures (b as bv32) >> 8 == 0
  {
  }

  lemma SerialByte(crc: bv32, b: bv8)
    ensures SerialCrc(crc, ByteBits(b)) == ByteStep(crc, b)
  {
    SerialLowBits(8, crc, b);
    FeedWordIsBits(8, crc, b as bv32);
    Shifted8(b as bv32);
    WidenShift(b);
    XorBasics(FeedWord(8, crc, b as bv32), 0);
  }

  /** Whole bytes through the table-driven register are the same bits one by one through the shift register. */
  lemma {:induction false} BytewiseIsSerial(crc: bv32, s: seq<bv8>)
    ensures BytewiseCrc(crc, s) == SerialCrc(crc, MessageBits(s))
  {
    if s == [] {
    } else {
      var init, last := s[..|s| - 1], s[|s| - 1];
      BytewiseIsSerial(crc, init);
      SerialConcat(crc, MessageBits(init), ByteBits(last));
      SerialByte(BytewiseCrc(crc, init), last);
    }
  }

  // ----- concatenation and linearity

  /** A CRC may be continued: the CRC of a buffer is the CRC of its tail seeded with the CRC of its head. */
  lemma {:induction false} CrcConcat(crc: bv32, a: seq<bv8>, b: seq<bv8>)
    ensures BytewiseCrc(crc, a + b) == BytewiseCrc(BytewiseCrc(crc, a), b)
  {
    if b == [] {
      assert a + b == a;
    } else {
      CrcConcat(crc, a, b[..|b| - 1]);
      assert (a + b)[..|a + b| - 1] == a + b[..|b| - 1];
    }
  }

  function XorBytes(a: seq<bv8>, b: seq<bv8>): (r: seq<bv8>)
    requires |a| == |b|
    ensures |r| == |a|
  {
    seq(|a|, i requires 0 <= i < |a| => a[i] ^ b[i])
  }

  /** The CRC is linear in seed and message together. */
  lemma {:induction false} CrcXor(c: bv32, d: bv32, a: seq<bv8>, b: seq<bv8>)
    requires |a| == |b|
    ensures BytewiseCrc(Xor(c, d), XorBytes(a, b)) == Xor(BytewiseCrc(c, a), BytewiseCrc(d, b))
  {
    if a == [] {
    } else {
      var n := |a| - 1;
      CrcXor(c, d, a[..n], b[..n]);
      assert XorBytes(a, b)[..n] == XorBytes(a[..n], b[..n]);
      ByteStepXor(BytewiseCrc(c, a[..n]), BytewiseCrc(d, b[..n]), a[n], b[n]);
    }
  }

  lemma ByteStepXor(c: bv32, d: bv32, x: bv8, y: bv8)
    ensures ByteStep(Xor(c, d), x ^ y) == Xor(ByteStep(c, x), ByteStep(d, y))
  {
    WidenXor(x, y);
    XorAlgebra(c, d, x as bv32, y as bv32);
    BitsXor(8, Xor(c, x as bv32), Xor(d, y as bv32));
  }

  lemma WidenXor(x: bv8, y: bv8)
    ensures (x ^ y) as bv32 == Xor(x as bv32, y as bv32)
  {
  }

  // ----- burst detection

  function XorBits(a: seq<bool>, b: seq<bool>): (d: seq<bool>)
    requires |a| == |b|
    ensures |d| == |a|
    ensures forall i :: 0 <= i < |d| ==> d[i] == (a[i] != b[i])
  {
    seq(|a|, i requires 0 <= i < |a| => a[i] != b[i])
  }

  lemma {:induction false} SerialXor(c: bv32, d: bv32, a: seq<bool>, b: seq<bool>)
    requires |a| == |b|
    ensures SerialCrc(Xor(c, d), XorBits(a, b)) == Xor(SerialCrc(c, a), SerialCrc(d, b))
    decreases |a|
  {
    if |a| == 0 {
    } else {
      var x, y := AsWord(a[0]), AsWord(b[0]);
      assert AsWord(a[0] != b[0]) == Xor(x, y) by {
        XorBasics(x, y);
        XorBasics(y, x);
      }
      XorAlgebra(c, d, x, y);
      BitXor(Xor(c, x), Xor(d, y));
      SerialXor(Bit(Xor(c, x)), Bit(Xor(d, y)), a[1..], b[1..]);
      assert XorBits(a, b)[1..] == XorBits(a[1..], b[1..]);
    }
  }

  /** Clear message bits only shift the register. */
  lemma {:induction false} SerialZeros(crc: bv32, z: seq<bool>)
    requires forall i :: 0 <= i < |z| ==> !z[i]
    ensures SerialCrc(crc, z) == Bits(|z|, crc)
    decreases |z|
  {
    if |z| == 0 {
    } else {
      XorBasics(crc, 0);
      SerialZeros(Bit(crc), z[1..]);
    }
  }

  lemma {:induction false} ShiftedZero(n: nat)
    ensures Shifted(n, 0) == 0
  {
    if n == 0 {
    } else {
      ShiftedZero(n - 1);
    }
  }

  lemma TopClear(w: bv32, n: nat)
    requires n <= 31 && Shifted(n, w) == 0
    ensures (w << 1) >> 1 == w
  {
    ShiftedAdd(n, 31 - n, w);
    ShiftedZero(31 - n);
    if w & 0x8000_0000 == 0x8000_0000 {
      TopMask();
      TopSet(31, w, 0x8000_0000);
      assert false;
    }
    NoTop(w);
  }

  lemma TopMask()
    ensures Shifted(31, 0x8000_0000) == 1
  {
    Shifted8(0x8000_0000);
    Shifted8(0x0080_0000);
    Shifted8(0x0000_8000);
    ShiftedAdd(8, 23, 0x8000_0000);
    ShiftedAdd(8, 15, 0x0080_0000);
    ShiftedAdd(8, 7, 0x0000_8000);
    assert Shifted(7, 0x80) == Shifted(6, 0x40) == Shifted(5, 0x20) == Shifted(4, 0x10);
    assert Shifted(4, 0x10) == Shifted(3, 0x08) == Shifted(2, 0x04) == Shifted(1, 0x02) == Shifted(0, 0x01);
  }

  lemma NoTop(w: bv32)
    requires w & 0x8000_0000 != 0x8000_0000
    ensures (w << 1) >> 1 == w
  {
  }

  /** A bit at position `n` or above survives `n` shifts. */
  lemma {:induction false} TopSet(n: nat, w: bv32, mask: bv32)
    requires w & mask == mask && Shifted(n, mask) != 0
    ensures Shifted(n, w) != 0
  {
    if n == 0 {
      KeepMask(w, mask);
    } else {
      KeepMask(w, mask);
      TopSet(n - 1, w >> 1, mask >> 1);
    }
  }

  lemma KeepMask(w: bv32, mask: bv32)
    requires w & mask == mask
    ensures (w >> 1) & (mask >> 1) == mask >> 1 && (mask != 0 ==> w != 0)
  {
  }

  /** At most 32 message bits fit a register, lowest first. */
  lemma {:induction false} Pack(message: seq<bool>) returns (w: bv32)
    requires |message| <= 32
    ensures BitsOfWord(message, w) && Shifted(|message|, w) == 0
    decreases |message|
  {
    if |message| == 0 {
      w := 0;
    } else {
      var rest := Pack(message[1..]);
      w := PackOne(message, rest);
    }
  }

  lemma PackOne(message: seq<bool>, rest: bv32) returns (w: bv32)
    requires 0 < |message| <= 32 && BitsOfWord(message[1..], rest) && Shifted(|message| - 1, rest) == 0
    ensures BitsOfWord(message, w) && Shifted(|message|, w) == 0
  {
    TopClear(rest, |message| - 1);
    w := Xor(AsWord(message[0]), rest << 1);
    PushBit(message[0], rest, w);
    HeadOfWord(message, w, rest);
  }

  lemma HeadOfWord(message: seq<bool>, w: bv32, rest: bv32)
    requires |message| != 0 && w >> 1 == rest && (w & 1 == 1 <==> message[0])
    requires BitsOfWord(message[1..], rest)
    ensures BitsOfWord(message, w) && Shifted(|message|, w) == Shifted(|message| - 1, rest)
  {
    forall j | 0 <= j < |message|
      ensures message[j] == (Shifted(j, w) & 1 == 1)
    {
      if j != 0 {
        assert Shifted(j, w) == Shifted(j - 1, rest);
        assert message[j] == message[1..][j - 1];
      }
    }
  }

  lemma PushBit(b: bool, rest: bv32, w: bv32)
    requires w == Xor(AsWord(b), rest << 1) && (rest << 1) >> 1 == rest
    ensures w >> 1 == rest && (w & 1 == 1 <==> b)
  {
  }

  /** A nonzero burst of at most 32 bits leaves a mark on an empty register. */
  lemma ShortBurst(message: seq<bool>)
    requires |message| <= 32 && exists i :: 0 <= i < |message| && message[i]
    ensures SerialCrc(0, message) != 0
  {
    var w := Pack(message);
    SerialIsFeedWord(0, message, w);
    FeedWordIsBits(|message|, 0, w);
    XorBasics(w, 0);
    XorBasics(FeedWord(|message|, 0, w), 0);
    BitsZero(|message|, w);
    if w == 0 {
      var i :| 0 <= i < |message| && message[i];
      ShiftedZero(i);
      assert false;
    }
  }

  lemma Burst(d: seq<bool>, start: nat, i: nat)
    requires i < |d| && d[i]
    requires forall i :: 0 <= i < |d| && d[i] ==> start <= i < start + 32
    ensures SerialCrc(0, d) != 0
  {
    var end := if start + 32 < |d| then start + 32 else |d|;
    var before, burst, after := d[..start], d[start..end], d[end..];
    assert burst[i - start];
    ShortBurst(burst);
    SerialZeros(0, before);
    BitsZero(|before|, 0);
    SerialZeros(SerialCrc(0, burst), after);
    BitsZero(|after|, SerialCrc(0, burst));
    ThreeParts(d, start, end);
  }

  lemma ThreeParts(d: seq<bool>, start: nat, end: nat)
    requires start <= end <= |d|
    ensures SerialCrc(0, d) == SerialCrc(SerialCrc(SerialCrc(0, d[..start]), d[start..end]), d[end..])
  {
    assert d[..end] == d[..start] + d[start..end] && d == d[..end] + d[end..];
    SerialConcat(0, d[..end], d[end..]);
    SerialConcat(0, d[..start], d[start..end]);
  }

  lemma {:induction false} MessageBitsInjective(a: seq<bv8>, b: seq<bv8>)
    requires |a| == |b| && MessageBits(a) == MessageBits(b)
    ensures a == b
  {
    if a == [] {
    } else {
      var n := |a| - 1;
      assert MessageBits(a)[..8 * n] == MessageBits(a[..n]) && MessageBits(b)[..8 * n] == MessageBits(b[..n]);
      assert MessageBits(a)[8 * n..] == ByteBits(a[n]) && MessageBits(b)[8 * n..] == ByteBits(b[n]);
      MessageBitsInjective(a[..n], b[..n]);
      ByteBitsInjective(a[n], b[n]);
      assert a == a[..n] + [a[n]] && b == b[..n] + [b[n]];
    }
  }

  lemma ByteBitsInjective(x: bv8, y: bv8)
    requires ByteBits(x) == ByteBits(y)
    ensures x == y
  {
    ByteFits(x);
    ByteFits(y);
    LowBitsInjective(8, x, y);
  }

  lemma ByteFits(x: bv8)
    ensures Fits(8, x)
  {
    var x2 := (x >> 1) >> 1;
    var x4 := (x2 >> 1) >> 1;
    var x6 := (x4 >> 1) >> 1;
    assert Fits(8, x) == Fits(7, x >> 1) == Fits(6, x2) == Fits(5, x2 >> 1) == Fits(4, x4);
    assert Fits(4, x4) == Fits(3, x4 >> 1) == Fits(2, x6) == Fits(1, x6 >> 1) == Fits(0, (x6 >> 1) >> 1);
  }

  predicate Fits(n: nat, b: bv8) {
    if n == 0 then b == 0 else Fits(n - 1, b >> 1)
  }

  lemma {:induction false} LowBitsInjective(n: nat, x: bv8, y: bv8)
    requires LowBits(n, x) == LowBits(n, y) && Fits(n, x) && Fits(n, y)
    ensures x == y
  {
    if n == 0 {
    } else {
      assert LowBits(n, x)[0] == LowBits(n, y)[0];
      assert LowBits(n, x)[1..] == LowBits(n - 1, x >> 1) && LowBits(n, y)[1..] == LowBits(n - 1, y >> 1);
      LowBitsInjective(n - 1, x >> 1, y >> 1);
      SameHalves(x, y);
    }
  }

  lemma SameHalves(x: bv8, y: bv8)
    requires x >> 1 == y >> 1 && (x & 1 == 1 <==> y & 1 == 1)
    ensures x == y
  {
  }

  /**
   * Error detection: two different buffers of equal length whose bits differ only within some 32 consecutive bits,
   * wherever these start, never have the same CRC from the same seed.
   */
  lemma BurstDetected(crc: bv32, a: seq<bv8>, b: seq<bv8>, start: nat)
    requires |a| == |b| && a != b
    requires forall j :: 0 <= j < 8 * |a| && !(start <= j < start + 32) ==> MessageBits(a)[j] == MessageBits(b)[j]
    ensures BytewiseCrc(crc, a) != BytewiseCrc(crc, b)
  {
    var p, q := MessageBits(a), MessageBits(b);
    var d := XorBits(p, q);
    if forall i :: 0 <= i < |p| ==> p[i] == q[i] {
      assert p == q;
      MessageBitsInjective(a, b);
      assert false;
    }
    var i :| 0 <= i < |p| && p[i] != q[i];
    assert d[i];
    Burst(d, start, i);
    SerialXor(crc, crc, p, q);
    XorBasics(crc, crc);
    XorBasics(SerialCrc(crc, p), SerialCrc(crc, q));
    BytewiseIsSerial(crc, a);
    BytewiseIsSerial(crc, b);
  }

  /** The bits of a byte sit at eight consecutive positions of the message. */
  lemma {:induction false} MessageBitsAt(s: seq<bv8>, i: nat, k: nat)
    requires i < |s| && k < 8
    ensures MessageBits(s)[8 * i + k] == ByteBits(s[i])[k]
  {
    var n := |s| - 1;
    if i == n {
    } else {
      MessageBitsAt(s[..n], i, k);
    }
  }

  /** Error detection for whole bytes: a change confined to four consecutive bytes is always seen. */
  lemma FourByteBurstDetected(crc: bv32, a: seq<bv8>, b: seq<bv8>, at: nat)
    requires |a| == |b| && a != b
    requires forall i :: 0 <= i < |a| && !(at <= i < at + 4) ==> a[i] == b[i]
    ensures BytewiseCrc(crc, a) != BytewiseCrc(crc, b)
  {
    forall j | 0 <= j < 8 * |a| && !(8 * at <= j < 8 * at + 32)
      ensures MessageBits(a)[j] == MessageBits(b)[j]
    {
      MessageBitsAt(a, j / 8, j % 8);
      MessageBitsAt(b, j / 8, j % 8);
    }
    BurstDetected(crc, a, b, 8 * at);
  }

  /** The generator polynomial with its leading bit: 33 message bits, lowest first. */
  const GENERATOR: seq<bv8> := [0x41, 0x06, 0x71, 0xDB, 0x01]

  lemma GeneratorVanishes()
    ensures BytewiseCrc(0, GENERATOR) == 0
  {
    var c1, c2, c3, c4: bv32 := 0x01DB_7106, 0x0001_DB71, 0x0000_01DB, 0x0000_0001;
    GeneratorSteps(c1, c2, c3, c4);
    var g := GENERATOR;
    assert g[..5] == g && g[..0] == [];
    OneByte(0, g, 0);
    OneByte(0, g, 1);
    OneByte(0, g, 2);
    OneByte(0, g, 3);
    OneByte(0, g, 4);
  }

  lemma GeneratorSteps(c1: bv32, c2: bv32, c3: bv32, c4: bv32)
    requires c1 == 0x01DB_7106 && c2 == 0x0001_DB71 && c3 == 0x0000_01DB && c4 == 0x0000_0001
    ensures ByteStep(0, 0x41) == c1 && ByteStep(c1, 0x06) == c2 && ByteStep(c2, 0x71) == c3
    ensures ByteStep(c3, 0xDB) == c4 && ByteStep(c4, 0x01) == 0
  {
    ByteOfBitsIsEntry(0x41);
    BitsZero(8, 0);
    TableStepIsByteStep(0, 0x41);
    TableStepIsByteStep(c1, 0x06);
    TableStepIsByteStep(c2, 0x71);
    TableStepIsByteStep(c3, 0xDB);
    TableStepIsByteStep(c4, 0x01);
  }

  /** The bound is tight: adding the 33 bits of the generator itself to five bytes goes unseen. */
  lemma GeneratorUndetected(crc: bv32, a: seq<bv8>)
    requires |a| == 5
    ensures XorBytes(a, GENERATOR) != a
    ensures BytewiseCrc(crc, XorBytes(a, GENERATOR)) == BytewiseCrc(crc, a)
  {
    GeneratorVanishes();
    CrcXor(crc, 0, a, GENERATOR);
    XorBasics(crc, 0);
    XorBasics(BytewiseCrc(crc, a), 0);
    assert XorBytes(a, GENERATOR)[0] == a[0] ^ 0x41;
  }
}
