/** The two ciphers of sections 5.1 and 5.2 of [MS-PST] and the signature of section 5.5 (`include/utils.h`). */
module Cipher {
  import opened Bytes
  import opened CryptTables

  // ----- NDB_CRYPT_PERMUTE

  /** The table that `CryptPermute` picks: `mpbbR` to encode, `mpbbI` to decode. */
  function PermuteByte(fEncrypt: bool, b: byte): byte {
    if fEncrypt then MpbbR(b) else MpbbI(b)
  }

  function Permuted(fEncrypt: bool, s: seq<byte>): (r: seq<byte>)
    ensures |r| == |s|
  {
    seq(|s|, i requires 0 <= i < |s| => PermuteByte(fEncrypt, s[i]))
  }

  /** Encoding and decoding undo each other, in both orders. */
  lemma PermuteInverse(fEncrypt: bool, s: seq<byte>)
    ensures Permuted(!fEncrypt, Permuted(fEncrypt, s)) == s
  {
    forall i | 0 <= i < |s|
      ensures Permuted(!fEncrypt, Permuted(fEncrypt, s))[i] == s[i]
    {
      PermuteByteInverse(fEncrypt, s[i]);
    }
  }

  lemma PermuteByteInverse(fEncrypt: bool, b: byte)
    ensures PermuteByte(!fEncrypt, PermuteByte(fEncrypt, b)) == b
  {
    if fEncrypt {
      InverseOfR(b);
    } else {
      InverseOfI(b);
    }
  }

  /** Decoding looks bytes up so that the first table leads back to them. */
  lemma DecodesFromR(s: seq<byte>, k: nat)
    requires k < |s|
    ensures MpbbR(Permuted(false, s)[k]) == s[k]
  {
    InverseOfI(s[k]);
  }

  /** Encoding goes through the first table: the third leads back. */
  lemma EncodesByR(s: seq<byte>, k: nat)
    requires k < |s|
    ensures MpbbI(Permuted(true, s)[k]) == s[k]
  {
    InverseOfR(s[k]);
  }

  /** No two buffers are encoded alike. */
  lemma PermuteInjective(fEncrypt: bool, s: seq<byte>, t: seq<byte>)
    requires Permuted(fEncrypt, s) == Permuted(fEncrypt, t)
    ensures s == t
  {
    PermuteInverse(fEncrypt, s);
    PermuteInverse(fEncrypt, t);
  }

  /** How far an in-place pass has come: a prefix is rewritten, the rest is untouched. */
  ghost predicate RewrittenTo(pbTable: byte -> byte, was: seq<byte>, now: seq<byte>, pb: nat) {
    && |now| == |was| && pb <= |was|
    && (forall k :: 0 <= k < pb ==> now[k] == pbTable(was[k]))
    && (forall k :: pb <= k < |was| ==> now[k] == was[k])
  }

  lemma RewrittenNothing(pbTable: byte -> byte, was: seq<byte>)
    ensures RewrittenTo(pbTable, was, was, 0)
  {
  }

  /**
   * `ms::CryptPermute` on a buffer of `cb` bytes at an address whose remainder modulo four decides how many bytes go
   * one at a time before the loop that loads 32-bit words.
   */
  method CryptPermute(pv: array<byte>, address: nat, fEncrypt: bool)
    modifies pv
    ensures pv[..] == Permuted(fEncrypt, old(pv[..]))
    ensures fEncrypt ==> forall k :: 0 <= k < pv.Length ==> MpbbI(pv[k]) == old(pv[k])
    ensures !fEncrypt ==> forall k :: 0 <= k < pv.Length ==> MpbbR(pv[k]) == old(pv[k])
  {
    hide MpbbR, MpbbI, MpbbS;
    ghost var was := pv[..];
    var pbTable: byte -> byte := if fEncrypt then MpbbR else MpbbI;
    PermuteInPlace(pv, address, pbTable);
    assert pv[..] == Permuted(fEncrypt, was);
    forall k | 0 <= k < pv.Length
      ensures fEncrypt ==> MpbbI(pv[k]) == was[k]
      ensures !fEncrypt ==> MpbbR(pv[k]) == was[k]
    {
      if fEncrypt {
        EncodesByR(was, k);
      } else {
        DecodesFromR(was, k);
      }
    }
  }

  /** The loops of `CryptPermute`, with the chosen table. */
  method PermuteInPlace(pv: array<byte>, address: nat, pbTable: byte -> byte)
    modifies pv
    ensures RewrittenTo(pbTable, old(pv[..]), pv[..], pv.Length)
  {
    ghost var was := pv[..];
    RewrittenNothing(pbTable, was);
    hide RewrittenTo;
    var pb, cb := 0, pv.Length;
    if cb >= 4 {
      while (address + pb) % 4 != 0
        invariant pb <= (4 - address % 4) % 4 && cb == pv.Length - pb
        invariant RewrittenTo(pbTable, was, pv[..], pb)
        decreases 4 - pb
      {
        PermuteOne(pv, pb, pbTable, was);
        pb := pb + 1;
        cb := cb - 1;
      }
      var pdw := pb;
      while cb >= 4
        invariant pdw == pb && cb == pv.Length - pb && cb >= 0
        invariant RewrittenTo(pbTable, was, pv[..], pb)
      {
        PermuteFour(pv, pdw, pbTable, was);
        pb := pb + 4;
        pdw := pdw + 4;
        cb := cb - 4;
      }
      pb := pdw;
    }
    while cb > 0
      invariant cb == pv.Length - pb && cb >= 0
      invariant RewrittenTo(pbTable, was, pv[..], pb)
    {
      cb := cb - 1;
      PermuteOne(pv, pb, pbTable, was);
      pb := pb + 1;
    }
  }

  /** One turn of a byte loop. */
  method PermuteOne(pv: array<byte>, pb: nat, pbTable: byte -> byte, ghost was: seq<byte>)
    requires pb < pv.Length && RewrittenTo(pbTable, was, pv[..], pb)
    modifies pv
    ensures RewrittenTo(pbTable, was, pv[..], pb + 1)
  {
    pv[pb] := pbTable(pv[pb]);
  }

  /** One turn of the word loop, against the whole pass. */
  method PermuteFour(pv: array<byte>, pdw: nat, pbTable: byte -> byte, ghost was: seq<byte>)
    requires pdw + 4 <= pv.Length && RewrittenTo(pbTable, was, pv[..], pdw)
    modifies pv
    ensures RewrittenTo(pbTable, was, pv[..], pdw + 4)
  {
    PermuteWord(pv, pdw, pbTable);
  }

  /** One turn of the word loop: load 32 bits once, then store their four bytes substituted. */
  method PermuteWord(pv: array<byte>, pdw: nat, pbTable: byte -> byte)
    requires pdw + 4 <= pv.Length
    modifies pv
    ensures forall k :: pdw <= k < pdw + 4 ==> pv[k] == pbTable(old(pv[k]))
    ensures forall k :: 0 <= k < pv.Length && !(pdw <= k < pdw + 4) ==> pv[k] == old(pv[k])
  {
    var word := pv[pdw..pdw + 4];
    var b0, b1, b2, b3 := WordBytes(word);
    assert word[0] == pv[pdw] && word[1] == pv[pdw + 1] && word[2] == pv[pdw + 2] && word[3] == pv[pdw + 3];
    pv[pdw] := pbTable(b0);
    pv[pdw + 1] := pbTable(b1);
    pv[pdw + 2] := pbTable(b2);
    pv[pdw + 3] := pbTable(b3);
  }

  /** The bytes that masking and shifting a loaded word produces, lowest first. */
  method WordBytes(word: seq<byte>) returns (b0: byte, b1: byte, b2: byte, b3: byte)
    requires |word| == 4
    ensures word == [b0, b1, b2, b3]
  {
    var dwCurr := FromLE(word);
    FromLEStep(word);
    b0 := dwCurr % 0x100;
    dwCurr := dwCurr / 0x100;
    FromLEStep(word[1..]);
    b1 := dwCurr % 0x100;
    dwCurr := dwCurr / 0x100;
    FromLEStep(word[1..][1..]);
    b2 := dwCurr % 0x100;
    dwCurr := dwCurr / 0x100;
    FromLEStep(word[1..][1..][1..]);
    b3 := dwCurr % 0x100;
  }

  // ----- NDB_CRYPT_CYCLIC

  function KeyWord(dwKey: bv32): uint16 {
    FoldedKey(dwKey) as uint16
  }

  /** `(WORD)(dwKey ^ (dwKey >> 16))` */
  function FoldedKey(dwKey: bv32): bv16 {
    ((dwKey ^ (dwKey >> 16)) & 0xFFFF) as bv16
  }

  /** The three sub-tables of `mpbbCrypt`. */
  datatype Tables = Tables(r: byte -> byte, s: byte -> byte, i: byte -> byte)

  const MPBB: Tables := Tables(MpbbR, MpbbS, MpbbI)

  /** What the cipher needs of its tables: `i` and `r` undo each other and `s` undoes itself. */
  ghost predicate Invertible(t: Tables) {
    && (forall b: byte :: t.i(t.r(b)) == b)
    && (forall b: byte :: t.r(t.i(b)) == b)
    && (forall b: byte :: t.s(t.s(b)) == b)
  }

  lemma MpbbInvertible()
    ensures Invertible(MPBB)
  {
    forall b: byte
      ensures MPBB.i(MPBB.r(b)) == b && MPBB.r(MPBB.i(b)) == b && MPBB.s(MPBB.s(b)) == b
    {
      InverseOfR(b);
      InverseOfI(b);
      InvolutionS(b);
    }
  }

  /** One byte under the two halves of the running key word; every step wraps at 256. */
  function CyclicByte(t: Tables, low: byte, high: byte, b: byte): byte {
    Minus(t.i(Minus(t.s(Plus(t.r(Plus(b, low)), high)), high)), low)
  }

  function Plus(b: byte, k: byte): byte {
    (b as int + k as int) % 0x100
  }

  function Minus(b: byte, k: byte): byte {
    (b as int - k as int) % 0x100
  }

  lemma CyclicByteInvolution(t: Tables, low: byte, high: byte, b: byte)
    requires Invertible(t)
    ensures CyclicByte(t, low, high, CyclicByte(t, low, high, b)) == b
  {
    var b1 := t.r(Plus(b, low));
    var b2 := t.s(Plus(b1, high));
    var b3 := t.i(Minus(b2, high));
    WrapBack(b3, low);
    WrapBack(b2, high);
    WrapForth(b1, high);
    WrapForth(b, low);
  }

  lemma WrapBack(b: byte, k: byte)
    ensures Plus(Minus(b, k), k) == b
  {
  }

  lemma WrapForth(b: byte, k: byte)
    ensures Minus(Plus(b, k), k) == b
  {
  }

  /** The running key word after `n` bytes: it wraps at 2^16. */
  function Advanced(w: uint16, n: nat): uint16 {
    (w as int + n) % 0x1_0000
  }

  lemma AdvancedNext(w: uint16, n: nat)
    ensures Advanced(w, n + 1) == (Advanced(w, n) as int + 1) % 0x1_0000
  {
  }

  /** A byte under the key word `w`. */
  function UnderWord(t: Tables, w: uint16, b: byte): byte {
    CyclicByte(t, w % 0x100, w / 0x100, b)
  }

  function Cyclic(t: Tables, w: uint16, s: seq<byte>): (r: seq<byte>)
    ensures |r| == |s|
  {
    seq(|s|, k requires 0 <= k < |s| => UnderWord(t, Advanced(w, k), s[k]))
  }

  /**
   * What a key does, without undoing it: input and output byte, each taken through the first two steps under the halves
   * of the running key word, differ by `mpbbS` alone.
   */
  lemma CyclicMeets(dwKey: bv32, s: seq<byte>, k: nat)
    requires k < |s|
    ensures var w := (KeyWord(dwKey) as int + k) % 0x1_0000;
      var low, high: byte := w % 0x100, w / 0x100;
      var b, c := s[k], Cyclic(MPBB, KeyWord(dwKey), s)[k];
      MpbbS(Plus(MpbbR(Plus(b, low)), high)) == Plus(MpbbR(Plus(c, low)), high)
  {
    hide MpbbR, MpbbS, MpbbI, KeyWord, Plus, Minus, CyclicByte;
    var w := Advanced(KeyWord(dwKey), k);
    ByteMeets(w % 0x100, w / 0x100, s[k]);
  }

  lemma ByteMeets(low: byte, high: byte, b: byte)
    ensures MpbbS(Plus(MpbbR(Plus(b, low)), high)) == Plus(MpbbR(Plus(CyclicByte(MPBB, low, high, b), low)), high)
  {
    hide MpbbR, MpbbS, MpbbI, Plus, Minus;
    var b2 := MpbbS(Plus(MpbbR(Plus(b, low)), high));
    var b3 := MpbbI(Minus(b2, high));
    WrapBack(b3, low);
    InverseOfI(Minus(b2, high));
    WrapBack(b2, high);
  }

  /** The key word is the exclusive or of the two halves of the key. */
  lemma KeyWordHalves(dwKey: bv32)
    ensures KeyWord(dwKey) as bv16 == ((dwKey & 0xFFFF) as bv16) ^ (((dwKey >> 16) & 0xFFFF) as bv16)
  {
    HalfAsWord(FoldedKey(dwKey));
    FoldKey(dwKey);
  }

  lemma FoldKey(dwKey: bv32)
    ensures FoldedKey(dwKey) == ((dwKey & 0xFFFF) as bv16) ^ (((dwKey >> 16) & 0xFFFF) as bv16)
  {
  }

  /** The cipher is its own inverse: applying it twice with the same key restores every buffer. */
  lemma CyclicInvolution(dwKey: bv32, s: seq<byte>)
    ensures Cyclic(MPBB, KeyWord(dwKey), Cyclic(MPBB, KeyWord(dwKey), s)) == s
  {
    MpbbInvertible();
    CyclicTwice(MPBB, KeyWord(dwKey), s);
  }

  lemma CyclicTwice(t: Tables, w: uint16, s: seq<byte>)
    requires Invertible(t)
    ensures Cyclic(t, w, Cyclic(t, w, s)) == s
  {
    forall k | 0 <= k < |s|
      ensures Cyclic(t, w, Cyclic(t, w, s))[k] == s[k]
    {
      var wk := Advanced(w, k);
      CyclicByteInvolution(t, wk % 0x100, wk / 0x100, s[k]);
    }
  }

  /** `ms::CryptCyclic`, in place. */
  method CryptCyclic(pv: array<byte>, dwKey: bv32)
    modifies pv
    ensures pv[..] == Cyclic(MPBB, KeyWord(dwKey), old(pv[..]))
  {
    ghost var was := pv[..];
    CyclicInPlace(pv, MPBB, KeyWord(dwKey));
    assert pv[..] == Cyclic(MPBB, KeyWord(dwKey), was);
  }

  /** The loop of `CryptCyclic`, with the tables and the folded key. */
  method CyclicInPlace(pv: array<byte>, t: Tables, key: uint16)
    modifies pv
    ensures pv[..] == Cyclic(t, key, old(pv[..]))
  {
    ghost var was := pv[..];
    ghost var now := Cyclic(t, key, was);
    var pb, cb, w: uint16 := 0, pv.Length, key;
    while cb > 0
      invariant 0 <= cb == pv.Length - pb && w == Advanced(key, pb)
      invariant forall k :: 0 <= k < pb ==> pv[k] == now[k]
      invariant forall k :: pb <= k < pv.Length ==> pv[k] == was[k]
    {
      cb := cb - 1;
      pv[pb] := CyclicSteps(t, w, pv[pb]);
      AdvancedNext(key, pb);
      pb := pb + 1;
      w := (w as int + 1) % 0x1_0000;
    }
  }

  /** The assignments to `b` in the body of the loop. */
  method CyclicSteps(t: Tables, w: uint16, pb: byte) returns (b: byte)
    ensures b == UnderWord(t, w, pb)
  {
    var low, high: byte := w % 0x100, w / 0x100;
    b := pb;
    b := Plus(b, low);
    b := t.r(b);
    b := Plus(b, high);
    b := t.s(b);
    b := Minus(b, high);
    b := t.i(b);
    b := Minus(b, low);
  }

  // ----- signatures

  /** `(WORD)x` */
  function Half(x: bv64): bv16 {
    (x & 0xFFFF) as bv16
  }

  /** `ms::ComputeSig`: the low two 16-bit halves of `ib ^ bid`, folded. */
  function ComputeSig(ib: uint64, bid: uint64): uint16 {
    Folded(ib as bv64, bid as bv64) as uint16
  }

  function Folded(ib: bv64, bid: bv64): bv16 {
    Half((ib ^ bid) >> 16) ^ Half(ib ^ bid)
  }

  /** A signature is the exclusive or of the two low 16-bit halves of `ib` and the two of `bid`. */
  lemma SignatureHalves(ib: uint64, bid: uint64, x: bv64, y: bv64)
    requires x == ib as bv64 && y == bid as bv64
    ensures ComputeSig(ib, bid) as bv16
            == ((x & 0xFFFF) as bv16) ^ (((x >> 16) & 0xFFFF) as bv16)
               ^ ((y & 0xFFFF) as bv16) ^ (((y >> 16) & 0xFFFF) as bv16)
  {
    FoldedHalves(x, y);
    hide Folded;
    HalfAsWord(Folded(x, y));
  }

  lemma FoldedHalves(x: bv64, y: bv64)
    ensures Folded(x, y)
            == ((x & 0xFFFF) as bv16) ^ (((x >> 16) & 0xFFFF) as bv16)
               ^ ((y & 0xFFFF) as bv16) ^ (((y >> 16) & 0xFFFF) as bv16)
  {
    hide Half;
    FoldHalves(x, y);
    HalfIs(x);
    HalfIs(x >> 16);
    HalfIs(y);
    HalfIs(y >> 16);
  }

  lemma HalfIs(x: bv64)
    ensures Half(x) == (x & 0xFFFF) as bv16
  {
  }

  lemma HalfAsWord(h: bv16)
    ensures (h as uint16) as bv16 == h
  {
  }

  lemma FoldHalves(x: bv64, y: bv64)
    ensures Half((x ^ y) >> 16) ^ Half(x ^ y) == Half(x) ^ Half(x >> 16) ^ Half(y) ^ Half(y >> 16)
  {
    ShiftXor(x, y);
    HalfXor(x, y);
    HalfXor(x >> 16, y >> 16);
    hide Half;
    Regroup(Half(x), Half(x >> 16), Half(y), Half(y >> 16));
  }

  lemma ShiftXor(x: bv64, y: bv64)
    ensures (x ^ y) >> 16 == (x >> 16) ^ (y >> 16)
  {
  }

  lemma HalfXor(x: bv64, y: bv64)
    ensures Half(x ^ y) == Half(x) ^ Half(y)
  {
  }

  lemma Regroup(a: bv16, b: bv16, c: bv16, d: bv16)
    ensures (b ^ d) ^ (a ^ c) == a ^ b ^ c ^ d
  {
  }
}
