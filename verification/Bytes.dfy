/** Bytes, fixed-width unsigned integers and little-endian decoding (`include/utils.h`). */
module Bytes {

  /** The outcome of an operation that may fail: an assertion, a read out of range or a missing value. */
  datatype Option<+T> = None | Some(value: T) {
    predicate IsFailure() {
      None?
    }

    function PropagateFailure<U>(): Option<U>
      requires None?
    {
      None
    }

    function Extract(): T
      requires Some?
    {
      value
    }
  }

  type byte = i: int | 0 <= i < 0x100
  type uint16 = i: int | 0 <= i < 0x1_0000
  type uint32 = i: int | 0 <= i < 0x1_0000_0000
  type uint64 = i: int | 0 <= i < 0x1_0000_0000_0000_0000

  /** Number of values that `width` bytes can hold. */
  function Pow256(width: nat): (p: nat)
    ensures p > 0
  {
    if width == 0 then 1 else 256 * Pow256(width - 1)
  }

  function Zeros(n: nat): (z: seq<byte>)
    ensures |z| == n
    ensures forall i :: 0 <= i < n ==> z[i] == 0
  {
    seq(n, i => 0)
  }

  // ----- base-256 numbers, least significant byte first

  function FromLE(s: seq<byte>): nat
  {
    if s == [] then 0 else s[0] + 256 * FromLE(s[1..])
  }

  function ToLE(n: nat, width: nat): (s: seq<byte>)
    ensures |s| == width
  {
    if width == 0 then [] else [n % 256] + ToLE(n / 256, width - 1)
  }

  lemma {:induction false} FromLEBound(s: seq<byte>)
    ensures FromLE(s) < Pow256(|s|)
  {
    if s == [] {
    } else {
      FromLEBound(s[1..]);
    }
  }

  /** Decoding undoes encoding on every number that fits. */
  lemma {:induction false} DecodeEncode(n: nat, width: nat)
    requires n < Pow256(width)
    ensures FromLE(ToLE(n, width)) == n
  {
    if width == 0 {
    } else {
      DecodeEncode(n / 256, width - 1);
      assert ToLE(n, width)[1..] == ToLE(n / 256, width - 1);
    }
  }

  /** Encoding undoes decoding on every byte string. */
  lemma {:induction false} EncodeDecode(s: seq<byte>)
    ensures ToLE(FromLE(s), |s|) == s
  {
    if s == [] {
    } else {
      EncodeDecode(s[1..]);
      assert FromLE(s) % 256 == s[0] && FromLE(s) / 256 == FromLE(s[1..]);
    }
  }

  lemma {:induction false} FromLEZeros(n: nat)
    ensures FromLE(Zeros(n)) == 0
  {
    if n == 0 {
    } else {
      FromLEZeros(n - 1);
      assert Zeros(n)[1..] == Zeros(n - 1);
    }
  }

  /** Zero padding on the most significant side keeps the number. */
  lemma {:induction false} FromLEPadded(s: seq<byte>, n: nat)
    ensures FromLE(s + Zeros(n)) == FromLE(s)
  {
    if s == [] {
      assert s + Zeros(n) == Zeros(n);
      FromLEZeros(n);
    } else {
      FromLEPadded(s[1..], n);
      assert (s + Zeros(n))[1..] == s[1..] + Zeros(n);
    }
  }

  lemma FromLEUnfold(s: seq<byte>)
    requires s != []
    ensures FromLE(s) == s[0] + 256 * FromLE(s[1..])
  {
  }

  /** Masking off the low byte and shifting it out. */
  lemma FromLEStep(s: seq<byte>)
    requires s != []
    ensures FromLE(s) % 0x100 == s[0] && FromLE(s) / 0x100 == FromLE(s[1..])
  {
  }

  lemma FromLE2(s: seq<byte>)
    requires |s| == 2
    ensures FromLE(s) == s[0] as int + 0x100 * (s[1] as int)
  {
    FromLEUnfold(s);
    FromLEUnfold(s[1..]);
  }

  lemma FromLE4(s: seq<byte>)
    requires |s| == 4
    ensures FromLE(s) == s[0] as int + 0x100 * (s[1] as int) + 0x1_0000 * (s[2] as int) + 0x100_0000 * (s[3] as int)
  {
    FromLEUnfold(s);
    FromLEUnfold(s[1..]);
    assert s[1..][1..] == s[2..];
    FromLE2(s[2..]);
  }

  lemma FromLE8(s: seq<byte>)
    requires |s| == 8
    ensures FromLE(s) == FromLE(s[..4]) + 0x1_0000_0000 * FromLE(s[4..])
  {
    FromLE4(s[..4]);
    FromLEUnfold(s);
    FromLEUnfold(s[1..]);
    assert s[1..][1..] == s[2..];
    FromLEUnfold(s[2..]);
    assert s[2..][1..] == s[3..];
    FromLEUnfold(s[3..]);
    assert s[3..][1..] == s[4..];
  }

  // ----- pad and toT_l

  /** `pad`: the loop that pushes zero bytes. */
  method Pad(bytes: seq<byte>, bytesToAdd: nat) returns (result: seq<byte>)
    ensures result == bytes + Zeros(bytesToAdd)
  {
    result := bytes;
    for i := 0 to bytesToAdd
      invariant result == bytes + Zeros(i)
    {
      result := result + [0];
    }
  }

  predicate IsWidth(width: nat)
  {
    width == 1 || width == 2 || width == 4 || width == 8
  }

  /** A byte moved up to the place value of its position: `b << k` is `b * 2^k`. */
  function Shifted(b: byte, place: nat): nat
  {
    (b as nat) * place
  }

  /**
   * `toT_l<T>` with `sizeof(T) == width`: the shifts and ors of the source, written as sums because the
   * shifted bytes occupy disjoint bits. More bytes than the width make the unsigned padding count wrap.
   */
  function ToT(width: nat, b: seq<byte>): (r: Option<nat>)
    requires IsWidth(width)
    ensures r.Some? <==> |b| <= width
  {
    if |b| > width then None
    else
      var bytes := b + Zeros(width - |b|);
      if width == 1 then Some(bytes[0])
      else if width == 2 then Some(Shifted(bytes[1], 0x100) + bytes[0])
      else if width == 4 then
        Some(Shifted(bytes[3], 0x100_0000) + Shifted(bytes[2], 0x1_0000) + Shifted(bytes[1], 0x100) + bytes[0])
      else
        Some(Shifted(bytes[7], 0x100_0000_0000_0000) + Shifted(bytes[6], 0x1_0000_0000_0000)
             + Shifted(bytes[5], 0x100_0000_0000) + Shifted(bytes[4], 0x1_0000_0000)
             + Shifted(bytes[3], 0x100_0000) + Shifted(bytes[2], 0x1_0000) + Shifted(bytes[1], 0x100) + bytes[0])
  }

  lemma Joined8(b: seq<byte>)
    requires |b| == 8
    ensures ToT(8, b) == Some(FromLE(b))
  {
    assert b + Zeros(0) == b;
    FromLE8(b);
    FromLE4(b[..4]);
    FromLE4(b[4..]);
  }

  lemma Joined(width: nat, b: seq<byte>)
    requires IsWidth(width) && |b| == width
    ensures ToT(width, b) == Some(FromLE(b))
  {
    assert b + Zeros(0) == b;
    if width == 1 {
      FromLEUnfold(b);
    } else if width == 2 {
      FromLE2(b);
    } else if width == 4 {
      FromLE4(b);
    } else {
      Joined8(b);
    }
  }

  lemma ToTPads(width: nat, b: seq<byte>)
    requires IsWidth(width) && |b| <= width
    ensures ToT(width, b) == ToT(width, b + Zeros(width - |b|))
  {
    hide FromLE, Pow256, Shifted;
    var bytes := b + Zeros(width - |b|);
    assert bytes + Zeros(width - |bytes|) == bytes;
  }

  /** `toT_l` is little-endian decoding, for every width and every shorter input that it pads. */
  lemma ToTIsLittleEndian(width: nat, b: seq<byte>)
    requires IsWidth(width) && |b| <= width
    ensures ToT(width, b) == Some(FromLE(b))
    ensures FromLE(b) < Pow256(width)
  {
    hide ToT, FromLE, Pow256;
    var bytes := b + Zeros(width - |b|);
    ToTPads(width, b);
    FromLEPadded(b, width - |b|);
    FromLEBound(bytes);
    Joined(width, bytes);
  }

  /** What `toT_l` reads back is the number whose little-endian bytes were written. */
  lemma ToTInvertsToLE(width: nat, n: nat)
    requires IsWidth(width) && n < Pow256(width)
    ensures ToT(width, ToLE(n, width)) == Some(n)
  {
    ToTIsLittleEndian(width, ToLE(n, width));
    DecodeEncode(n, width);
  }

  lemma Pow256Values()
    ensures Pow256(1) == 0x100 && Pow256(2) == 0x1_0000 && Pow256(4) == 0x1_0000_0000
    ensures Pow256(8) == 0x1_0000_0000_0000_0000
  {
    assert Pow256(0) == 1;
    assert Pow256(3) == 256 * Pow256(2) && Pow256(5) == 256 * Pow256(4);
    assert Pow256(6) == 256 * Pow256(5) && Pow256(7) == 256 * Pow256(6);
  }
}
