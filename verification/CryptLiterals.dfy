/** `mpbbCrypt` (`include/utils.h`) as the one array that it is in the source, against the three sub-tables. */
module CryptLiterals {
  import opened Bytes
  import opened CryptTables

  const ROW_00: seq<byte> := [65, 54, 19, 98, 168, 33, 110, 187, 244, 22, 204, 4, 127, 100, 232, 93]
  const ROW_01: seq<byte> := [30, 242, 203, 42, 116, 197, 94, 53, 210, 149, 71, 158, 150, 45, 154, 136]
  const ROW_02: seq<byte> := [76, 125, 132, 63, 219, 172, 49, 182, 72, 95, 246, 196, 216, 57, 139, 231]
  const ROW_03: seq<byte> := [35, 59, 56, 142, 200, 193, 223, 37, 177, 32, 165, 70, 96, 78, 156, 251]
  const ROW_04: seq<byte> := [170, 211, 86, 81, 69, 124, 85, 0, 7, 201, 43, 157, 133, 155, 9, 160]
  const ROW_05: seq<byte> := [143, 173, 179, 15, 99, 171, 137, 75, 215, 167, 21, 90, 113, 102, 66, 191]
  const ROW_06: seq<byte> := [38, 74, 107, 152, 250, 234, 119, 83, 178, 112, 5, 44, 253, 89, 58, 134]
  const ROW_07: seq<byte> := [126, 206, 6, 235, 130, 120, 87, 199, 141, 67, 175, 180, 28, 212, 91, 205]
  const ROW_08: seq<byte> := [226, 233, 39, 79, 195, 8, 114, 128, 207, 176, 239, 245, 40, 109, 190, 48]
  const ROW_09: seq<byte> := [77, 52, 146, 213, 14, 60, 34, 50, 229, 228, 249, 159, 194, 209, 10, 129]
  const ROW_0A: seq<byte> := [18, 225, 238, 145, 131, 118, 227, 151, 230, 97, 138, 23, 121, 164, 183, 220]
  const ROW_0B: seq<byte> := [144, 122, 92, 140, 2, 166, 202, 105, 222, 80, 26, 17, 147, 185, 82, 135]
  const ROW_0C: seq<byte> := [88, 252, 237, 29, 55, 73, 27, 106, 224, 41, 51, 153, 189, 108, 217, 148]
  const ROW_0D: seq<byte> := [243, 64, 84, 111, 240, 198, 115, 184, 214, 62, 101, 24, 68, 31, 221, 103]
  const ROW_0E: seq<byte> := [16, 241, 12, 25, 236, 174, 3, 161, 20, 123, 169, 11, 255, 248, 163, 192]
  const ROW_0F: seq<byte> := [162, 1, 247, 46, 188, 36, 104, 117, 13, 254, 186, 47, 181, 208, 218, 61]

  const ROW_10: seq<byte> := [20, 83, 15, 86, 179, 200, 122, 156, 235, 101, 72, 23, 22, 21, 159, 2]
  const ROW_11: seq<byte> := [204, 84, 124, 131, 0, 13, 12, 11, 162, 98, 168, 118, 219, 217, 237, 199]
  const ROW_12: seq<byte> := [197, 164, 220, 172, 133, 116, 214, 208, 167, 155, 174, 154, 150, 113, 102, 195]
  const ROW_13: seq<byte> := [99, 153, 184, 221, 115, 146, 142, 132, 125, 165, 94, 209, 93, 147, 177, 87]
  const ROW_14: seq<byte> := [81, 80, 128, 137, 82, 148, 79, 78, 10, 107, 188, 141, 127, 110, 71, 70]
  const ROW_15: seq<byte> := [65, 64, 68, 1, 17, 203, 3, 63, 247, 244, 225, 169, 143, 60, 58, 249]
  const ROW_16: seq<byte> := [251, 240, 25, 48, 130, 9, 46, 201, 157, 160, 134, 73, 238, 111, 77, 109]
  const ROW_17: seq<byte> := [196, 45, 129, 52, 37, 135, 27, 136, 170, 252, 6, 161, 18, 56, 253, 76]
  const ROW_18: seq<byte> := [66, 114, 100, 19, 55, 36, 106, 117, 119, 67, 255, 230, 180, 75, 54, 92]
  const ROW_19: seq<byte> := [228, 216, 53, 61, 69, 185, 44, 236, 183, 49, 43, 41, 7, 104, 163, 14]
  const ROW_1A: seq<byte> := [105, 123, 24, 158, 33, 57, 190, 40, 26, 91, 120, 245, 35, 202, 42, 176]
  const ROW_1B: seq<byte> := [175, 62, 254, 4, 140, 231, 229, 152, 50, 149, 211, 246, 74, 232, 166, 234]
  const ROW_1C: seq<byte> := [233, 243, 213, 47, 112, 32, 242, 31, 5, 103, 173, 85, 16, 206, 205, 227]
  const ROW_1D: seq<byte> := [39, 59, 218, 186, 215, 194, 38, 212, 145, 29, 210, 28, 34, 51, 248, 250]
  const ROW_1E: seq<byte> := [241, 90, 239, 207, 144, 182, 139, 181, 189, 192, 191, 8, 151, 30, 108, 226]
  const ROW_1F: seq<byte> := [97, 224, 198, 193, 89, 171, 187, 88, 222, 95, 223, 96, 121, 126, 178, 138]

  const ROW_20: seq<byte> := [71, 241, 180, 230, 11, 106, 114, 72, 133, 78, 158, 235, 226, 248, 148, 83]
  const ROW_21: seq<byte> := [224, 187, 160, 2, 232, 90, 9, 171, 219, 227, 186, 198, 124, 195, 16, 221]
  const ROW_22: seq<byte> := [57, 5, 150, 48, 245, 55, 96, 130, 140, 201, 19, 74, 107, 29, 243, 251]
  const ROW_23: seq<byte> := [143, 38, 151, 202, 145, 23, 1, 196, 50, 45, 110, 49, 149, 255, 217, 35]
  const ROW_24: seq<byte> := [209, 0, 94, 121, 220, 68, 59, 26, 40, 197, 97, 87, 32, 144, 61, 131]
  const ROW_25: seq<byte> := [185, 67, 190, 103, 210, 70, 66, 118, 192, 109, 91, 126, 178, 15, 22, 41]
  const ROW_26: seq<byte> := [60, 169, 3, 84, 13, 218, 93, 223, 246, 183, 199, 98, 205, 141, 6, 211]
  const ROW_27: seq<byte> := [105, 92, 134, 214, 20, 247, 165, 102, 117, 172, 177, 233, 69, 33, 112, 12]
  const ROW_28: seq<byte> := [135, 159, 116, 164, 34, 76, 111, 191, 31, 86, 170, 46, 179, 120, 51, 80]
  const ROW_29: seq<byte> := [176, 163, 146, 188, 207, 25, 28, 167, 99, 203, 30, 77, 62, 75, 27, 155]
  const ROW_2A: seq<byte> := [79, 231, 240, 238, 173, 58, 181, 89, 4, 234, 64, 85, 37, 81, 229, 122]
  const ROW_2B: seq<byte> := [137, 56, 104, 82, 123, 252, 39, 174, 215, 189, 250, 7, 244, 204, 142, 95]
  const ROW_2C: seq<byte> := [239, 53, 156, 132, 43, 21, 213, 119, 52, 73, 182, 18, 10, 127, 113, 136]
  const ROW_2D: seq<byte> := [253, 157, 24, 65, 125, 147, 216, 88, 44, 206, 254, 36, 175, 222, 184, 54]
  const ROW_2E: seq<byte> := [200, 161, 128, 166, 153, 152, 168, 47, 14, 129, 101, 115, 228, 194, 162, 138]
  const ROW_2F: seq<byte> := [212, 225, 17, 208, 8, 139, 42, 242, 237, 154, 100, 63, 193, 108, 249, 236]

  function Four(k: nat, r0: seq<byte>, r1: seq<byte>, r2: seq<byte>, r3: seq<byte>): byte
    requires k < 64 && |r0| == |r1| == |r2| == |r3| == 16
  {
    if k < 16 then r0[k] else if k < 32 then r1[k - 16] else if k < 48 then r2[k - 32] else r3[k - 48]
  }

  /** The array of the source, sixteen bytes a row. */
  function MpbbCrypt(n: nat): byte
    requires n < 768
  {
    if n < 64 then Four(n - 0, ROW_00, ROW_01, ROW_02, ROW_03)
    else if n < 128 then Four(n - 64, ROW_04, ROW_05, ROW_06, ROW_07)
    else if n < 192 then Four(n - 128, ROW_08, ROW_09, ROW_0A, ROW_0B)
    else if n < 256 then Four(n - 192, ROW_0C, ROW_0D, ROW_0E, ROW_0F)
    else if n < 320 then Four(n - 256, ROW_10, ROW_11, ROW_12, ROW_13)
    else if n < 384 then Four(n - 320, ROW_14, ROW_15, ROW_16, ROW_17)
    else if n < 448 then Four(n - 384, ROW_18, ROW_19, ROW_1A, ROW_1B)
    else if n < 512 then Four(n - 448, ROW_1C, ROW_1D, ROW_1E, ROW_1F)
    else if n < 576 then Four(n - 512, ROW_20, ROW_21, ROW_22, ROW_23)
    else if n < 640 then Four(n - 576, ROW_24, ROW_25, ROW_26, ROW_27)
    else if n < 704 then Four(n - 640, ROW_28, ROW_29, ROW_2A, ROW_2B)
    else Four(n - 704, ROW_2C, ROW_2D, ROW_2E, ROW_2F)
  }

  lemma LiteralsR0(b: byte)
    requires 0 <= b < 64
    ensures MpbbR(b) == MpbbCrypt(b)
  {
  }

  lemma LiteralsR1(b: byte)
    requires 64 <= b < 128
    ensures MpbbR(b) == MpbbCrypt(b)
  {
  }

  lemma LiteralsR2(b: byte)
    requires 128 <= b < 192
    ensures MpbbR(b) == MpbbCrypt(b)
  {
  }

  lemma LiteralsR3(b: byte)
    requires 192 <= b < 256
    ensures MpbbR(b) == MpbbCrypt(b)
  {
  }

  lemma LiteralsS0(b: byte)
    requires 0 <= b < 64
    ensures MpbbS(b) == MpbbCrypt(256 + b)
  {
  }

  lemma LiteralsS1(b: byte)
    requires 64 <= b < 128
    ensures MpbbS(b) == MpbbCrypt(256 + b)
  {
  }

  lemma LiteralsS2(b: byte)
    requires 128 <= b < 192
    ensures MpbbS(b) == MpbbCrypt(256 + b)
  {
  }

  lemma LiteralsS3(b: byte)
    requires 192 <= b < 256
    ensures MpbbS(b) == MpbbCrypt(256 + b)
  {
  }

  lemma LiteralsI0(b: byte)
    requires 0 <= b < 64
    ensures MpbbI(b) == MpbbCrypt(512 + b)
  {
  }

  lemma LiteralsI1(b: byte)
    requires 64 <= b < 128
    ensures MpbbI(b) == MpbbCrypt(512 + b)
  {
  }

  lemma LiteralsI2(b: byte)
    requires 128 <= b < 192
    ensures MpbbI(b) == MpbbCrypt(512 + b)
  {
  }

  lemma LiteralsI3(b: byte)
    requires 192 <= b < 256
    ensures MpbbI(b) == MpbbCrypt(512 + b)
  {
  }

  /** The three tables are the array from its beginning, from 256 on and from 512 on. */
  lemma TablesAreLiterals(b: byte)
    ensures MpbbR(b) == MpbbCrypt(b) && MpbbS(b) == MpbbCrypt(256 + b) && MpbbI(b) == MpbbCrypt(512 + b)
  {
    hide MpbbR, MpbbS, MpbbI, MpbbCrypt;
    if b < 64 {
      LiteralsR0(b);
      LiteralsS0(b);
      LiteralsI0(b);
    } else if b < 128 {
      LiteralsR1(b);
      LiteralsS1(b);
      LiteralsI1(b);
    } else if b < 192 {
      LiteralsR2(b);
      LiteralsS2(b);
      LiteralsI2(b);
    } else {
      LiteralsR3(b);
      LiteralsS3(b);
      LiteralsI3(b);
    }
  }
}
