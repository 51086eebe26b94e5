/** The 256 literals of `CrcTableOffset32` (`include/utils.h`), against the register that they tabulate. */
module CrcLiterals {
  import opened Crc
  import opened CrcSlicing

  const ROW_0: seq<bv32> := [
    0x00000000, 0x77073096, 0xEE0E612C, 0x990951BA, 0x076DC419, 0x706AF48F, 0xE963A535, 0x9E6495A3,
    0x0EDB8832, 0x79DCB8A4, 0xE0D5E91E, 0x97D2D988, 0x09B64C2B, 0x7EB17CBD, 0xE7B82D07, 0x90BF1D91]

  const ROW_1: seq<bv32> := [
    0x1DB71064, 0x6AB020F2, 0xF3B97148, 0x84BE41DE, 0x1ADAD47D, 0x6DDDE4EB, 0xF4D4B551, 0x83D385C7,
    0x136C9856, 0x646BA8C0, 0xFD62F97A, 0x8A65C9EC, 0x14015C4F, 0x63066CD9, 0xFA0F3D63, 0x8D080DF5]

  const ROW_2: seq<bv32> := [
    0x3B6E20C8, 0x4C69105E, 0xD56041E4, 0xA2677172, 0x3C03E4D1, 0x4B04D447, 0xD20D85FD, 0xA50AB56B,
    0x35B5A8FA, 0x42B2986C, 0xDBBBC9D6, 0xACBCF940, 0x32D86CE3, 0x45DF5C75, 0xDCD60DCF, 0xABD13D59]

  const ROW_3: seq<bv32> := [
    0x26D930AC, 0x51DE003A, 0xC8D75180, 0xBFD06116, 0x21B4F4B5, 0x56B3C423, 0xCFBA9599, 0xB8BDA50F,
    0x2802B89E, 0x5F058808, 0xC60CD9B2, 0xB10BE924, 0x2F6F7C87, 0x58684C11, 0xC1611DAB, 0xB6662D3D]

  const ROW_4: seq<bv32> := [
    0x76DC4190, 0x01DB7106, 0x98D220BC, 0xEFD5102A, 0x71B18589, 0x06B6B51F, 0x9FBFE4A5, 0xE8B8D433,
    0x7807C9A2, 0x0F00F934, 0x9609A88E, 0xE10E9818, 0x7F6A0DBB, 0x086D3D2D, 0x91646C97, 0xE6635C01]

  const ROW_5: seq<bv32> := [
    0x6B6B51F4, 0x1C6C6162, 0x856530D8, 0xF262004E, 0x6C0695ED, 0x1B01A57B, 0x8208F4C1, 0xF50FC457,
    0x65B0D9C6, 0x12B7E950, 0x8BBEB8EA, 0xFCB9887C, 0x62DD1DDF, 0x15DA2D49, 0x8CD37CF3, 0xFBD44C65]

  const ROW_6: seq<bv32> := [
    0x4DB26158, 0x3AB551CE, 0xA3BC0074, 0xD4BB30E2, 0x4ADFA541, 0x3DD895D7, 0xA4D1C46D, 0xD3D6F4FB,
    0x4369E96A, 0x346ED9FC, 0xAD678846, 0xDA60B8D0, 0x44042D73, 0x33031DE5, 0xAA0A4C5F, 0xDD0D7CC9]

  const ROW_7: seq<bv32> := [
    0x5005713C, 0x270241AA, 0xBE0B1010, 0xC90C2086, 0x5768B525, 0x206F85B3, 0xB966D409, 0xCE61E49F,
    0x5EDEF90E, 0x29D9C998, 0xB0D09822, 0xC7D7A8B4, 0x59B33D17, 0x2EB40D81, 0xB7BD5C3B, 0xC0BA6CAD]

  const ROW_8: seq<bv32> := [
    0xEDB88320, 0x9ABFB3B6, 0x03B6E20C, 0x74B1D29A, 0xEAD54739, 0x9DD277AF, 0x04DB2615, 0x73DC1683,
    0xE3630B12, 0x94643B84, 0x0D6D6A3E, 0x7A6A5AA8, 0xE40ECF0B, 0x9309FF9D, 0x0A00AE27, 0x7D079EB1]

  const ROW_9: seq<bv32> := [
    0xF00F9344, 0x8708A3D2, 0x1E01F268, 0x6906C2FE, 0xF762575D, 0x806567CB, 0x196C3671, 0x6E6B06E7,
    0xFED41B76, 0x89D32BE0, 0x10DA7A5A, 0x67DD4ACC, 0xF9B9DF6F, 0x8EBEEFF9, 0x17B7BE43, 0x60B08ED5]

  const ROW_A: seq<bv32> := [
    0xD6D6A3E8, 0xA1D1937E, 0x38D8C2C4, 0x4FDFF252, 0xD1BB67F1, 0xA6BC5767, 0x3FB506DD, 0x48B2364B,
    0xD80D2BDA, 0xAF0A1B4C, 0x36034AF6, 0x41047A60, 0xDF60EFC3, 0xA867DF55, 0x316E8EEF, 0x4669BE79]

  const ROW_B: seq<bv32> := [
    0xCB61B38C, 0xBC66831A, 0x256FD2A0, 0x5268E236, 0xCC0C7795, 0xBB0B4703, 0x220216B9, 0x5505262F,
    0xC5BA3BBE, 0xB2BD0B28, 0x2BB45A92, 0x5CB36A04, 0xC2D7FFA7, 0xB5D0CF31, 0x2CD99E8B, 0x5BDEAE1D]

  const ROW_C: seq<bv32> := [
    0x9B64C2B0, 0xEC63F226, 0x756AA39C, 0x026D930A, 0x9C0906A9, 0xEB0E363F, 0x72076785, 0x05005713,
    0x95BF4A82, 0xE2B87A14, 0x7BB12BAE, 0x0CB61B38, 0x92D28E9B, 0xE5D5BE0D, 0x7CDCEFB7, 0x0BDBDF21]

  const ROW_D: seq<bv32> := [
    0x86D3D2D4, 0xF1D4E242, 0x68DDB3F8, 0x1FDA836E, 0x81BE16CD, 0xF6B9265B, 0x6FB077E1, 0x18B74777,
    0x88085AE6, 0xFF0F6A70, 0x66063BCA, 0x11010B5C, 0x8F659EFF, 0xF862AE69, 0x616BFFD3, 0x166CCF45]

  const ROW_E: seq<bv32> := [
    0xA00AE278, 0xD70DD2EE, 0x4E048354, 0x3903B3C2, 0xA7672661, 0xD06016F7, 0x4969474D, 0x3E6E77DB,
    0xAED16A4A, 0xD9D65ADC, 0x40DF0B66, 0x37D83BF0, 0xA9BCAE53, 0xDEBB9EC5, 0x47B2CF7F, 0x30B5FFE9]

  const ROW_F: seq<bv32> := [
    0xBDBDF21C, 0xCABAC28A, 0x53B39330, 0x24B4A3A6, 0xBAD03605, 0xCDD70693, 0x54DE5729, 0x23D967BF,
    0xB3667A2E, 0xC4614AB8, 0x5D681B02, 0x2A6F2B94, 0xB40BBE37, 0xC30C8EA1, 0x5A05DF1B, 0x2D02EF8D]

  /** The array of the source, row by row. */
  function Literal(n: nat): bv32
    requires n <= 0xFF
  {
    if n <= 0x0F then ROW_0[n]
    else if n <= 0x1F then ROW_1[n - 0x10]
    else if n <= 0x2F then ROW_2[n - 0x20]
    else if n <= 0x3F then ROW_3[n - 0x30]
    else if n <= 0x4F then ROW_4[n - 0x40]
    else if n <= 0x5F then ROW_5[n - 0x50]
    else if n <= 0x6F then ROW_6[n - 0x60]
    else if n <= 0x7F then ROW_7[n - 0x70]
    else if n <= 0x8F then ROW_8[n - 0x80]
    else if n <= 0x9F then ROW_9[n - 0x90]
    else if n <= 0xAF then ROW_A[n - 0xA0]
    else if n <= 0xBF then ROW_B[n - 0xB0]
    else if n <= 0xCF then ROW_C[n - 0xC0]
    else if n <= 0xDF then ROW_D[n - 0xD0]
    else if n <= 0xEF then ROW_E[n - 0xE0]
    else ROW_F[n - 0xF0]
  }

  /** Eight register steps, spelled out for the verifier to evaluate. */
  function ByteOfBits(x: bv32): bv32 {
    Bit(Bit(Bit(Bit(Bit(Bit(Bit(Bit(x))))))))
  }

  lemma ByteOfBitsIsEntry(i: bv32)
    ensures ByteOfBits(i) == CrcTableOffset32(i)
  {
    var x4 := Bit(Bit(Bit(Bit(i))));
    FourSteps(i);
    FourSteps(x4);
    BitsAdd(4, 4, i);
  }

  lemma FourSteps(x: bv32)
    ensures Bits(4, x) == Bit(Bit(Bit(Bit(x))))
  {
    var x1 := Bit(x);
    var x2 := Bit(x1);
    var x3 := Bit(x2);
    assert Bits(4, x) == Bits(3, x1) == Bits(2, x2) == Bits(1, x3) == Bits(0, Bit(x3));
  }

  /** Consecutive entries of the table, from index `i` on. */
  predicate Entries(i: bv32, e: seq<bv32>)
    requires |e| == 8
  {
    && CrcTableOffset32(i) == e[0] && CrcTableOffset32(i + 1) == e[1] && CrcTableOffset32(i + 2) == e[2]
    && CrcTableOffset32(i + 3) == e[3] && CrcTableOffset32(i + 4) == e[4] && CrcTableOffset32(i + 5) == e[5]
    && CrcTableOffset32(i + 6) == e[6] && CrcTableOffset32(i + 7) == e[7]
  }

  /** The same, for the verifier to evaluate. */
  predicate Evaluated(i: bv32, e0: bv32, e1: bv32, e2: bv32, e3: bv32, e4: bv32, e5: bv32, e6: bv32, e7: bv32) {
    && ByteOfBits(i) == e0 && ByteOfBits(i + 1) == e1 && ByteOfBits(i + 2) == e2 && ByteOfBits(i + 3) == e3
    && ByteOfBits(i + 4) == e4 && ByteOfBits(i + 5) == e5 && ByteOfBits(i + 6) == e6 && ByteOfBits(i + 7) == e7
  }

  lemma EvaluatedEntries(i: bv32, e: seq<bv32>)
    requires |e| == 8 && Evaluated(i, e[0], e[1], e[2], e[3], e[4], e[5], e[6], e[7])
    ensures Entries(i, e)
  {
    hide ByteOfBits, CrcTableOffset32;
    ByteOfBitsIsEntry(i);
    ByteOfBitsIsEntry(i + 1);
    ByteOfBitsIsEntry(i + 2);
    ByteOfBitsIsEntry(i + 3);
    ByteOfBitsIsEntry(i + 4);
    ByteOfBitsIsEntry(i + 5);
    ByteOfBitsIsEntry(i + 6);
    ByteOfBitsIsEntry(i + 7);
  }

  lemma Row0()
    ensures Entries(0x00, ROW_0[..8]) && Entries(0x08, ROW_0[8..])
  {
    hide CrcTableOffset32, Entries;
    EvaluatedEntries(0x00, ROW_0[..8]);
    EvaluatedEntries(0x08, ROW_0[8..]);
  }

  lemma Row1()
    ensures Entries(0x10, ROW_1[..8]) && Entries(0x18, ROW_1[8..])
  {
    hide CrcTableOffset32, Entries;
    EvaluatedEntries(0x10, ROW_1[..8]);
    EvaluatedEntries(0x18, ROW_1[8..]);
  }

  lemma Row2()
    ensures Entries(0x20, ROW_2[..8]) && Entries(0x28, ROW_2[8..])
  {
    hide CrcTableOffset32, Entries;
    EvaluatedEntries(0x20, ROW_2[..8]);
    EvaluatedEntries(0x28, ROW_2[8..]);
  }

  lemma Row3()
    ensures Entries(0x30, ROW_3[..8]) && Entries(0x38, ROW_3[8..])
  {
    hide CrcTableOffset32, Entries;
    EvaluatedEntries(0x30, ROW_3[..8]);
    EvaluatedEntries(0x38, ROW_3[8..]);
  }

  lemma Row4()
    ensures Entries(0x40, ROW_4[..8]) && Entries(0x48, ROW_4[8..])
  {
    hide CrcTableOffset32, Entries;
    EvaluatedEntries(0x40, ROW_4[..8]);
    EvaluatedEntries(0x48, ROW_4[8..]);
  }

  lemma Row5()
    ensures Entries(0x50, ROW_5[..8]) && Entries(0x58, ROW_5[8..])
  {
    hide CrcTableOffset32, Entries;
    EvaluatedEntries(0x50, ROW_5[..8]);
    EvaluatedEntries(0x58, ROW_5[8..]);
  }

  lemma Row6()
    ensures Entries(0x60, ROW_6[..8]) && Entries(0x68, ROW_6[8..])
  {
    hide CrcTableOffset32, Entries;
    EvaluatedEntries(0x60, ROW_6[..8]);
    EvaluatedEntries(0x68, ROW_6[8..]);
  }

  lemma Row7()
    ensures Entries(0x70, ROW_7[..8]) && Entries(0x78, ROW_7[8..])
  {
    hide CrcTableOffset32, Entries;
    EvaluatedEntries(0x70, ROW_7[..8]);
    EvaluatedEntries(0x78, ROW_7[8..]);
  }

  lemma Row8()
    ensures Entries(0x80, ROW_8[..8]) && Entries(0x88, ROW_8[8..])
  {
    hide CrcTableOffset32, Entries;
    EvaluatedEntries(0x80, ROW_8[..8]);
    EvaluatedEntries(0x88, ROW_8[8..]);
  }

  lemma Row9()
    ensures Entries(0x90, ROW_9[..8]) && Entries(0x98, ROW_9[8..])
  {
    hide CrcTableOffset32, Entries;
    EvaluatedEntries(0x90, ROW_9[..8]);
    EvaluatedEntries(0x98, ROW_9[8..]);
  }

  lemma RowA()
    ensures Entries(0xA0, ROW_A[..8]) && Entries(0xA8, ROW_A[8..])
  {
    hide CrcTableOffset32, Entries;
    EvaluatedEntries(0xA0, ROW_A[..8]);
    EvaluatedEntries(0xA8, ROW_A[8..]);
  }

  lemma RowB()
    ensures Entries(0xB0, ROW_B[..8]) && Entries(0xB8, ROW_B[8..])
  {
    hide CrcTableOffset32, Entries;
    EvaluatedEntries(0xB0, ROW_B[..8]);
    EvaluatedEntries(0xB8, ROW_B[8..]);
  }

  lemma RowC()
    ensures Entries(0xC0, ROW_C[..8]) && Entries(0xC8, ROW_C[8..])
  {
    hide CrcTableOffset32, Entries;
    EvaluatedEntries(0xC0, ROW_C[..8]);
    EvaluatedEntries(0xC8, ROW_C[8..]);
  }

  lemma RowD()
    ensures Entries(0xD0, ROW_D[..8]) && Entries(0xD8, ROW_D[8..])
  {
    hide CrcTableOffset32, Entries;
    EvaluatedEntries(0xD0, ROW_D[..8]);
    EvaluatedEntries(0xD8, ROW_D[8..]);
  }

  lemma RowE()
    ensures Entries(0xE0, ROW_E[..8]) && Entries(0xE8, ROW_E[8..])
  {
    hide CrcTableOffset32, Entries;
    EvaluatedEntries(0xE0, ROW_E[..8]);
    EvaluatedEntries(0xE8, ROW_E[8..]);
  }

  lemma RowF()
    ensures Entries(0xF0, ROW_F[..8]) && Entries(0xF8, ROW_F[8..])
  {
    hide CrcTableOffset32, Entries;
    EvaluatedEntries(0xF0, ROW_F[..8]);
    EvaluatedEntries(0xF8, ROW_F[8..]);
  }

  // ----- the whole array

  /** `b` is `k` places after `i`. */
  predicate Places(i: bv32, k: nat, b: bv32) {
    && k < 8
    && (k == 0 ==> b == i) && (k == 1 ==> b == i + 1) && (k == 2 ==> b == i + 2) && (k == 3 ==> b == i + 3)
    && (k == 4 ==> b == i + 4) && (k == 5 ==> b == i + 5) && (k == 6 ==> b == i + 6) && (k == 7 ==> b == i + 7)
  }

  lemma EntryAt(i: bv32, e: seq<bv32>, k: nat, b: bv32)
    requires |e| == 8 && Entries(i, e) && Places(i, k, b)
    ensures e[k] == CrcTableOffset32(b)
  {
    hide CrcTableOffset32;
  }

  lemma RowEntryAt(row: seq<bv32>, i: bv32, j: bv32, k: nat, b: bv32)
    requires |row| == 16 && Entries(i, row[..8]) && Entries(j, row[8..]) && k < 16
    requires if k < 8 then Places(i, k, b) else Places(j, k - 8, b)
    ensures row[k] == CrcTableOffset32(b)
  {
    hide CrcTableOffset32, Entries, Places;
    if k < 8 {
      EntryAt(i, row[..8], k, b);
    } else {
      EntryAt(j, row[8..], k - 8, b);
    }
  }

  lemma Literals0(b: bv32)
    requires 0x00 <= b <= 0x3F
    ensures b as int <= 0xFF && Literal(b as int) == CrcTableOffset32(b)
  {
    hide CrcTableOffset32, Entries;
    if b <= 0x0F {
      Row0();
      RowEntryAt(ROW_0, 0x00, 0x08, b as int - 0x00, b);
    } else if b <= 0x1F {
      Row1();
      RowEntryAt(ROW_1, 0x10, 0x18, b as int - 0x10, b);
    } else if b <= 0x2F {
      Row2();
      RowEntryAt(ROW_2, 0x20, 0x28, b as int - 0x20, b);
    } else {
      Row3();
      RowEntryAt(ROW_3, 0x30, 0x38, b as int - 0x30, b);
    }
  }

  lemma Literals1(b: bv32)
    requires 0x40 <= b <= 0x7F
    ensures b as int <= 0xFF && Literal(b as int) == CrcTableOffset32(b)
  {
    hide CrcTableOffset32, Entries;
    if b <= 0x4F {
      Row4();
      RowEntryAt(ROW_4, 0x40, 0x48, b as int - 0x40, b);
    } else if b <= 0x5F {
      Row5();
      RowEntryAt(ROW_5, 0x50, 0x58, b as int - 0x50, b);
    } else if b <= 0x6F {
      Row6();
      RowEntryAt(ROW_6, 0x60, 0x68, b as int - 0x60, b);
    } else {
      Row7();
      RowEntryAt(ROW_7, 0x70, 0x78, b as int - 0x70, b);
    }
  }

  lemma Literals2(b: bv32)
    requires 0x80 <= b <= 0xBF
    ensures b as int <= 0xFF && Literal(b as int) == CrcTableOffset32(b)
  {
    hide CrcTableOffset32, Entries;
    if b <= 0x8F {
      Row8();
      RowEntryAt(ROW_8, 0x80, 0x88, b as int - 0x80, b);
    } else if b <= 0x9F {
      Row9();
      RowEntryAt(ROW_9, 0x90, 0x98, b as int - 0x90, b);
    } else if b <= 0xAF {
      RowA();
      RowEntryAt(ROW_A, 0xA0, 0xA8, b as int - 0xA0, b);
    } else {
      RowB();
      RowEntryAt(ROW_B, 0xB0, 0xB8, b as int - 0xB0, b);
    }
  }

  lemma Literals3(b: bv32)
    requires 0xC0 <= b <= 0xFF
    ensures b as int <= 0xFF && Literal(b as int) == CrcTableOffset32(b)
  {
    hide CrcTableOffset32, Entries;
    if b <= 0xCF {
      RowC();
      RowEntryAt(ROW_C, 0xC0, 0xC8, b as int - 0xC0, b);
    } else if b <= 0xDF {
      RowD();
      RowEntryAt(ROW_D, 0xD0, 0xD8, b as int - 0xD0, b);
    } else if b <= 0xEF {
      RowE();
      RowEntryAt(ROW_E, 0xE0, 0xE8, b as int - 0xE0, b);
    } else {
      RowF();
      RowEntryAt(ROW_F, 0xF0, 0xF8, b as int - 0xF0, b);
    }
  }

  /** Every literal of the source is what the register tabulates at its index. */
  lemma LiteralsAreTable(b: bv32)
    requires b <= 0xFF
    ensures b as int <= 0xFF && Literal(b as int) == CrcTableOffset32(b)
  {
    hide Literal, CrcTableOffset32;
    if b <= 0x3F {
      Literals0(b);
    } else if b <= 0x7F {
      Literals1(b);
    } else if b <= 0xBF {
      Literals2(b);
    } else {
      Literals3(b);
    }
  }
}
