/** The eight tables and the slicing-by-8 loops of `ms::ComputeCRC` (`include/utils.h`). */
module CrcSlicing {
  import opened Crc

  // ----- the tables

  /** The first table: eight register steps of the index. The module CrcLiterals compares it with the literals. */
  function CrcTableOffset32(i: bv32): bv32 {
    Bits(8, i)
  }

  /** Each further table applies one more table step to the entry of the table before it. */
  function NextEntry(t: bv32): bv32 {
    Xor(t >> 8, CrcTableOffset32(t & 0x0000_00FF))
  }

  function CrcTableOffset40(i: bv32): bv32 {
    NextEntry(CrcTableOffset32(i))
  }

  function CrcTableOffset48(i: bv32): bv32 {
    NextEntry(CrcTableOffset40(i))
  }

  function CrcTableOffset56(i: bv32): bv32 {
    NextEntry(CrcTableOffset48(i))
  }

  function CrcTableOffset64(i: bv32): bv32 {
    NextEntry(CrcTableOffset56(i))
  }

  function CrcTableOffset72(i: bv32): bv32 {
    NextEntry(CrcTableOffset64(i))
  }

  function CrcTableOffset80(i: bv32): bv32 {
    NextEntry(CrcTableOffset72(i))
  }

  function CrcTableOffset88(i: bv32): bv32 {
    NextEntry(CrcTableOffset80(i))
  }

  /** The step of the head and tail loops of the source. */
  function TableStep(crc: bv32, b: bv8): bv32 {
    Xor(CrcTableOffset32(Xor(crc, b as bv32) & 0x0000_00FF), crc >> 8)
  }

  // ----- what the tables hold

  /** Eight steps of any register: look its low byte up and move the rest down. */
  lemma ByteShift(x: bv32)
    ensures Bits(8, x) == Xor(CrcTableOffset32(x & 0xFF), x >> 8)
  {
    FeedByte(0, x);
    XorBasics(x, 0);
    XorBasics(x & 0xFF, 0);
  }

  /** The recurrence from one table to the next adds eight steps. */
  lemma NextTable(n: nat, i: bv32, t: bv32)
    requires t == Bits(n, i)
    ensures NextEntry(t) == Bits(n + 8, i)
  {
    ByteShift(t);
    XorBasics(t >> 8, CrcTableOffset32(t & 0xFF));
    BitsAdd(n, 8, i);
  }

  lemma Table40(i: bv32, n: nat)
    requires n == 16
    ensures CrcTableOffset40(i) == Bits(n, i)
  {
    NextTable(n - 8, i, CrcTableOffset32(i));
  }

  lemma Table48(i: bv32, n: nat)
    requires n == 24
    ensures CrcTableOffset48(i) == Bits(n, i)
  {
    Table40(i, n - 8);
    NextTable(n - 8, i, CrcTableOffset40(i));
  }

  lemma Table56(i: bv32, n: nat)
    requires n == 32
    ensures CrcTableOffset56(i) == Bits(n, i)
  {
    Table48(i, n - 8);
    NextTable(n - 8, i, CrcTableOffset48(i));
  }

  lemma Table64(i: bv32, n: nat)
    requires n == 40
    ensures CrcTableOffset64(i) == Bits(n, i)
  {
    Table56(i, n - 8);
    NextTable(n - 8, i, CrcTableOffset56(i));
  }

  lemma Table72(i: bv32, n: nat)
    requires n == 48
    ensures CrcTableOffset72(i) == Bits(n, i)
  {
    Table64(i, n - 8);
    NextTable(n - 8, i, CrcTableOffset64(i));
  }

  lemma Table80(i: bv32, n: nat)
    requires n == 56
    ensures CrcTableOffset80(i) == Bits(n, i)
  {
    Table72(i, n - 8);
    NextTable(n - 8, i, CrcTableOffset72(i));
  }

  lemma Table88(i: bv32, n: nat)
    requires n == 64
    ensures CrcTableOffset88(i) == Bits(n, i)
  {
    Table80(i, n - 8);
    NextTable(n - 8, i, CrcTableOffset80(i));
  }

  lemma TableStepIsByteStep(crc: bv32, b: bv8)
    ensures TableStep(crc, b) == ByteStep(crc, b)
  {
    var x := Xor(crc, b as bv32);
    ByteShift(x);
    HighBytesKept(crc, b);
  }

  lemma HighBytesKept(crc: bv32, b: bv8)
    ensures Xor(crc, b as bv32) >> 8 == crc >> 8
  {
  }

  // ----- four bytes at a time

  /** The 32-bit little-endian load `*(DWORD*)p`. */
  function Load32(s: seq<bv8>, p: nat): bv32
    requires p + 4 <= |s|
  {
    s[p] as bv32 | ((s[p + 1] as bv32) << 8) | ((s[p + 2] as bv32) << 16) | ((s[p + 3] as bv32) << 24)
  }

  lemma LoadBytes(s: seq<bv8>, p: nat)
    requires p + 4 <= |s|
    ensures var w := Load32(s, p);
      && w & 0xFF == s[p] as bv32
      && (w >> 8) & 0xFF == s[p + 1] as bv32
      && (w >> 16) & 0xFF == s[p + 2] as bv32
      && (w >> 24) & 0xFF == s[p + 3] as bv32
  {
    WordBytes(s[p], s[p + 1], s[p + 2], s[p + 3]);
  }

  lemma WordBytes(b0: bv8, b1: bv8, b2: bv8, b3: bv8)
    ensures var w := b0 as bv32 | ((b1 as bv32) << 8) | ((b2 as bv32) << 16) | ((b3 as bv32) << 24);
      && w & 0xFF == b0 as bv32
      && (w >> 8) & 0xFF == b1 as bv32
      && (w >> 16) & 0xFF == b2 as bv32
      && (w >> 24) & 0xFF == b3 as bv32
  {
  }

  lemma ShiftParts(w: bv32, w1: bv32, w2: bv32, w3: bv32)
    requires w1 == w >> 8 && w2 == w1 >> 8 && w3 == w2 >> 8
    ensures w2 == w >> 16 && w3 == w >> 24 && w3 >> 8 == 0 && w3 & 0xFF == w3
  {
  }

  /** Part way through a word: what has been fed, and what is still to be added, make up the whole. */
  lemma FeedPart(n: nat, crc: bv32, rest: bv32, whole: bv32)
    requires Xor(crc, rest) == Bits(n, whole)
    ensures Xor(Bits(8, Xor(crc, rest & 0xFF)), rest >> 8) == Bits(n + 8, whole)
  {
    FeedByte(crc, rest);
    BitsAdd(n, 8, whole);
  }

  lemma FeedFour(crc: bv32, w: bv32, w1: bv32, w2: bv32, w3: bv32, n: nat)
    requires w1 == w >> 8 && w2 == w1 >> 8 && w3 == w2 >> 8 && w3 >> 8 == 0 && n == 0
    ensures var c1 := Bits(8, Xor(crc, w & 0xFF));
      var c2 := Bits(8, Xor(c1, w1 & 0xFF));
      var c3 := Bits(8, Xor(c2, w2 & 0xFF));
      Bits(8, Xor(c3, w3 & 0xFF)) == Bits(n + 8 + 8 + 8 + 8, Xor(crc, w))
  {
    var whole := Xor(crc, w);
    FeedPart(n, crc, w, whole);
    var c1 := Bits(8, Xor(crc, w & 0xFF));
    FeedPart(n + 8, c1, w1, whole);
    var c2 := Bits(8, Xor(c1, w1 & 0xFF));
    FeedPart(n + 8 + 8, c2, w2, whole);
    var c3 := Bits(8, Xor(c2, w2 & 0xFF));
    FeedPart(n + 8 + 8 + 8, c3, w3, whole);
    XorBasics(Bits(8, Xor(c3, w3 & 0xFF)), 0);
  }

  /** Four byte steps feed a whole word at once. */
  lemma WordStep(crc: bv32, s: seq<bv8>, p: nat, n: nat)
    requires p + 4 <= |s| && n == 32
    ensures ByteStep(ByteStep(ByteStep(ByteStep(crc, s[p]), s[p + 1]), s[p + 2]), s[p + 3])
            == Bits(n, Xor(crc, Load32(s, p)))
  {
    var w := Load32(s, p);
    var w1 := w >> 8;
    var w2 := w1 >> 8;
    var w3 := w2 >> 8;
    LoadBytes(s, p);
    ShiftParts(w, w1, w2, w3);
    FeedFour(crc, w, w1, w2, w3, n - 32);
  }

  lemma SplitByte(n: nat, w: bv32)
    ensures Bits(n + 8, w) == Xor(Bits(n + 8, w & 0xFF), Bits(n, w >> 8))
  {
    LowByte(w);
    var high := (w >> 8) << 8;
    BitsXor(n + 8, w & 0xFF, high);
    MoveDown(high);
    BitsAdd(8, n, high);
  }

  lemma SplitFour(n: nat, w: bv32, w1: bv32, w2: bv32, w3: bv32)
    requires w1 == w >> 8 && w2 == w1 >> 8 && w3 == w2 >> 8
    ensures Bits(n + 8 + 8 + 8, w)
            == Xor(Xor(Xor(Bits(n + 8 + 8 + 8, w & 0xFF), Bits(n + 8 + 8, w1 & 0xFF)), Bits(n + 8, w2 & 0xFF)),
                   Bits(n, w3))
  {
    SplitByte(n + 8 + 8, w);
    SplitByte(n + 8, w1);
    SplitByte(n, w2);
    var a, b, c := Bits(n + 8 + 8 + 8, w & 0xFF), Bits(n + 8 + 8, w1 & 0xFF), Bits(n + 8, w2 & 0xFF);
    XorAssociative(a, b, Xor(c, Bits(n, w3)));
    XorAssociative(Xor(a, b), c, Bits(n, w3));
  }

  /** A register is the exclusive or of its four bytes, each with the steps that its position saves. */
  lemma SplitWord(n: nat, w: bv32)
    requires n >= 32
    ensures Bits(n, w)
            == Xor(Xor(Xor(Bits(n, w & 0xFF), Bits(n - 8, (w >> 8) & 0xFF)), Bits(n - 16, (w >> 16) & 0xFF)),
                   Bits(n - 24, (w >> 24) & 0xFF))
  {
    var w1 := w >> 8;
    var w2 := w1 >> 8;
    var w3 := w2 >> 8;
    ShiftParts(w, w1, w2, w3);
    SplitFour(n - 24, w, w1, w2, w3);
  }

  // ----- one turn of the main loop

  /** The first half of a turn: four table lookups that take 64 steps at once. */
  function Lookup64(x: bv32): bv32 {
    Xor(Xor(Xor(CrcTableOffset88(x & 0x0000_00FF), CrcTableOffset80((x >> 8) & 0x0000_00FF)),
            CrcTableOffset72((x >> 16) & 0x0000_00FF)),
        CrcTableOffset64((x >> 24) & 0x0000_00FF))
  }

  /** The second half: four lookups, each added to the register. */
  function Lookup32(crc: bv32, y: bv32): bv32 {
    Xor(Xor(Xor(Xor(crc, CrcTableOffset56(y & 0x0000_00FF)), CrcTableOffset48((y >> 8) & 0x0000_00FF)),
            CrcTableOffset40((y >> 16) & 0x0000_00FF)),
        CrcTableOffset32((y >> 24) & 0x0000_00FF))
  }

  lemma Lookup64IsBits(x: bv32, n: nat)
    requires n == 64
    ensures Lookup64(x) == Bits(n, x)
  {
    Table88(x & 0xFF, n);
    Table80((x >> 8) & 0xFF, n - 8);
    Table72((x >> 16) & 0xFF, n - 16);
    Table64((x >> 24) & 0xFF, n - 24);
    SplitWord(n, x);
  }

  lemma Lookup32IsBits(crc: bv32, y: bv32, n: nat)
    requires n == 32
    ensures Lookup32(crc, y) == Xor(crc, Bits(n, y))
  {
    Table56(y & 0xFF, n);
    Table48((y >> 8) & 0xFF, n - 8);
    Table40((y >> 16) & 0xFF, n - 16);
    SplitWord(n, y);
    FiveTerms(crc, Bits(n, y & 0xFF), Bits(n - 8, (y >> 8) & 0xFF), Bits(n - 16, (y >> 16) & 0xFF),
              Bits(n - 24, (y >> 24) & 0xFF));
  }

  lemma FiveTerms(c: bv32, a0: bv32, a1: bv32, a2: bv32, a3: bv32)
    ensures Xor(Xor(Xor(Xor(c, a0), a1), a2), a3) == Xor(c, Xor(Xor(Xor(a0, a1), a2), a3))
  {
    XorAssociative(c, a0, a1);
    XorAssociative(c, Xor(a0, a1), a2);
    XorAssociative(c, Xor(Xor(a0, a1), a2), a3);
  }

  lemma FourBytes(crc: bv32, s: seq<bv8>, p: nat)
    requires p + 4 <= |s|
    ensures BytewiseCrc(crc, s[..p + 4])
            == ByteStep(ByteStep(ByteStep(ByteStep(BytewiseCrc(crc, s[..p]), s[p]), s[p + 1]), s[p + 2]), s[p + 3])
  {
    OneByte(crc, s, p);
    OneByte(crc, s, p + 1);
    OneByte(crc, s, p + 2);
    OneByte(crc, s, p + 3);
  }

  lemma OneByte(crc: bv32, s: seq<bv8>, p: nat)
    requires p < |s|
    ensures BytewiseCrc(crc, s[..p + 1]) == ByteStep(BytewiseCrc(crc, s[..p]), s[p])
  {
    assert s[..p + 1][..p] == s[..p];
  }

  /** One turn of the main loop advances the reference by eight bytes. */
  lemma EightBytes(crc: bv32, s: seq<bv8>, p: nat, m: nat, n: nat)
    requires p + 8 <= |s| && m == 64 && n == 32
    ensures BytewiseCrc(crc, s[..p + 8])
            == Lookup32(Lookup64(Xor(BytewiseCrc(crc, s[..p]), Load32(s, p))), Load32(s, p + 4))
  {
    var c := BytewiseCrc(crc, s[..p]);
    var x, y := Xor(c, Load32(s, p)), Load32(s, p + 4);
    FourBytes(crc, s, p);
    WordStep(c, s, p, n);
    FourBytes(crc, s, p + 4);
    WordStep(Bits(n, x), s, p + 4, n);
    BitsXor(n, Bits(n, x), y);
    BitsAdd(n, n, x);
    Lookup64IsBits(x, m);
    Lookup32IsBits(Bits(m, x), y, n);
  }

  /** The head and tail loops: `count` bytes, each through the first table. */
  method ByTable(seed: bv32, ghost before: bv32, pv: seq<bv8>, from: nat, count: nat) returns (crc: bv32)
    requires from + count <= |pv| && seed == BytewiseCrc(before, pv[..from])
    ensures crc == BytewiseCrc(before, pv[..from + count])
  {
    crc := seed;
    for i := 0 to count
      invariant crc == BytewiseCrc(before, pv[..from + i])
    {
      TableStepIsByteStep(crc, pv[from + i]);
      OneByte(before, pv, from + i);
      crc := TableStep(crc, pv[from + i]);
    }
  }

  /** One turn of the main loop: two words, eight table lookups. */
  method Turn(seed: bv32, ghost before: bv32, pv: seq<bv8>, pbBuffer: nat) returns (crc: bv32)
    requires pbBuffer + 8 <= |pv| && seed == BytewiseCrc(before, pv[..pbBuffer])
    ensures crc == BytewiseCrc(before, pv[..pbBuffer + 8])
  {
    EightBytes(before, pv, pbBuffer, 64, 32);
    crc := Xor(seed, Load32(pv, pbBuffer));
    crc := Lookup64(crc);
    var dw2nd32 := Load32(pv, pbBuffer + 4);
    crc := Lookup32(crc, dw2nd32);
  }

  lemma NothingFed(crc: bv32)
    ensures BytewiseCrc(crc, []) == crc
  {
  }

  /** The whole turns of the main loop fit the bytes after the head. */
  lemma Turns(n: int)
    ensures n / 8 * 8 / 8 == n / 8 && n / 8 * 8 <= n && (n >= 0 ==> n / 8 * 8 >= 0)
  {
  }

  /**
   * `ms::ComputeCRC`: a buffer of `cbLength` bytes at an address whose remainder modulo four decides how many bytes
   * the head loop takes; eight bytes a turn in the main loop; the rest in the tail loop.
   */
  method ComputeCRC(dwCRC: bv32, pv: seq<bv8>, address: nat) returns (crc: bv32)
    ensures crc == BytewiseCrc(dwCRC, pv)
  {
    hide BytewiseCrc;
    NothingFed(dwCRC);
    crc := dwCRC;
    var cbLength := |pv|;
    var cbAlignedOffset := if cbLength < 4 then 0 else address % 4;
    var cbInitialUnalignedBytes := if cbAlignedOffset == 0 then 0 else 4 - cbAlignedOffset;
    var cbRunningLength := if cbLength < 4 then 0 else (cbLength - cbInitialUnalignedBytes) / 8 * 8;
    var cbEndUnalignedBytes := cbLength - cbInitialUnalignedBytes - cbRunningLength;

    Turns(cbLength - cbInitialUnalignedBytes);
    var pbBuffer := 0;
    assert pv[..0] == [];
    crc := ByTable(crc, dwCRC, pv, pbBuffer, cbInitialUnalignedBytes);
    pbBuffer := cbInitialUnalignedBytes;
    for i := 0 to cbRunningLength / 8
      invariant pbBuffer == cbInitialUnalignedBytes + 8 * i && crc == BytewiseCrc(dwCRC, pv[..pbBuffer])
    {
      crc := Turn(crc, dwCRC, pv, pbBuffer);
      pbBuffer := pbBuffer + 8;
    }
    crc := ByTable(crc, dwCRC, pv, pbBuffer, cbEndUnalignedBytes);
    assert pv[..|pv|] == pv;
  }
}
