/** Blocks of the NDB layer (`include/NDB.h`): their size on disk, trailers, data blocks and X/XX blocks. */
module Blocks {
  import opened Bytes
  import opened Cipher
  import opened CrcSlicing
  import opened Crc
  import opened Ids
  import opened Views

  // ----- sizes

  const TRAILER_SIZE: nat := 16
  const ALIGNMENT: nat := 64
  const MAX_BLOCK_SIZE: nat := 8192

  /** The sums of `DataTree::calcBlockAlignedSize`: data and trailer, rounded up without a branch, and the padding. */
  function AlignedSize(sizeofBlockData: nat): (r: (nat, nat))
  {
    var remainder := (sizeofBlockData + TRAILER_SIZE) % ALIGNMENT;
    var offset := ALIGNMENT * (if remainder != 0 then 1 else 0) - remainder;
    (sizeofBlockData + TRAILER_SIZE + offset, offset)
  }

  /** `DataTree::calcBlockAlignedSize` with its assertions. */
  function CheckedSize(sizeofBlockData: nat): Option<(nat, nat)>
  {
    var (blockSize, offset) := AlignedSize(sizeofBlockData);
    if blockSize % ALIGNMENT == 0 && blockSize <= MAX_BLOCK_SIZE then Some((blockSize, offset)) else None
  }

  /** The size is the least multiple of 64 that holds the data and the trailer, which never overlap. */
  lemma AlignedSizeIsLeast(size: nat, other: nat)
    ensures var (blockSize, offset) := AlignedSize(size);
      && blockSize % 64 == 0 && offset < 64 && size + offset + 16 == blockSize
      && (other % 64 == 0 && size + 16 <= other ==> blockSize <= other)
  {
  }

  /** The assertions pass exactly for the sizes up to 8176, the capacity of a block. */
  lemma CheckedSizeExact(size: nat)
    ensures CheckedSize(size).Some? <==> size <= 8176
    ensures size <= 8176 ==> CheckedSize(size) == Some(AlignedSize(size))
  {
    AlignedSizeIsLeast(size, MAX_BLOCK_SIZE);
  }

  // ----- reading the file

  /** Reading `size` bytes at `position`; a read that leaves the file fails. */
  function ReadBytes(file: seq<byte>, position: nat, size: nat): (r: Option<seq<byte>>)
  {
    Slice(file, position, size)
  }

  // ----- block trailers

  datatype BlockTrailer = BlockTrailer(cb: uint16, wSig: uint16, dwCRC: uint32, bid: uint64)

  /** The four fields of a trailer, and the signature computed from where the block was said to be. */
  function TrailerOf(bytes: seq<byte>, bref: BREF): (r: Option<BlockTrailer>)
  {
    if |bytes| != 16 then None
    else
      Pow256Values();
      var cb, wSig, dwCRC, bid := Field(bytes, 0, 2).value, Field(bytes, 2, 2).value, Field(bytes, 4, 4).value,
                                  Field(bytes, 8, 8).value;
      if wSig == ComputeSig(bref.ib, bref.bid) then Some(BlockTrailer(cb, wSig, dwCRC, bid)) else None
  }

  /** `takeLast(16)` and the trailer constructor. */
  function TrailerAtEnd(bytes: seq<byte>, bref: BREF): Option<BlockTrailer>
  {
    if |bytes| < 16 then None else TrailerOf(bytes[|bytes| - 16..], bref)
  }

  lemma LastBytes(bytes: seq<byte>, n: nat)
    requires n <= |bytes|
    ensures Slice(bytes, |bytes| - n, n) == Some(bytes[|bytes| - n..])
  {
    assert bytes[|bytes| - n..|bytes|] == bytes[|bytes| - n..];
  }

  lemma FieldsThere(bytes: seq<byte>)
    requires |bytes| == 16
    ensures Field(bytes, 0, 2).Some? && Field(bytes, 2, 2).Some? && Field(bytes, 4, 4).Some? && Field(bytes, 8, 8).Some?
  {
  }

  method InitTrailer(bytes: seq<byte>, bref: BREF) returns (r: Option<BlockTrailer>)
    ensures r == TrailerAtEnd(bytes, bref)
  {
    hide Pow256, Field, Slice, FromLE, ComputeSig;
    if |bytes| >= 16 {
      LastBytes(bytes, 16);
    }
    var outer := new ByteView(bytes);
    var last := outer.TakeLast(16);
    if last.None? {
      return None;
    }
    FieldsThere(last.value);
    var view := new ByteView(last.value);
    var cb := view.ReadInt(2);
    var wSig := view.ReadInt(2);
    var dwCRC := view.ReadInt(4);
    var bid := view.ReadInt(8);
    Pow256Values();
    if wSig.value != ComputeSig(bref.ib, bref.bid) {
      return None;
    }
    return Some(BlockTrailer(cb.value, wSig.value, dwCRC.value, bid.value));
  }

  // ----- data blocks

  datatype DataBlock = DataBlock(data: seq<byte>, trailer: BlockTrailer, sizeWPadding: nat)

  function Widened(s: seq<byte>): (r: seq<bv8>)
    ensures |r| == |s|
    ensures forall i :: 0 <= i < |r| ==> r[i] == s[i] as bv8
  {
    seq(|s|, i requires 0 <= i < |s| => s[i] as bv8)
  }

  /** The CRC of a byte string from seed zero, as the 32-bit number that a trailer stores. */
  function CrcOf(s: seq<byte>): uint32 {
    Number(BytewiseCrc(0, Widened(s)))
  }

  /** A 32-bit register as the number it holds. */
  function Number(dwCRC: bv32): uint32 {
    dwCRC as uint32
  }

  /** `DataBlock::Init`: not internal, trailer with the right signature, right CRC; the data comes out decoded. */
  function DataBlockOf(bytes: seq<byte>, bref: BREF): (r: Option<DataBlock>)
  {
    if IsInternal(bref.bid) then None
    else
      var trailer :- TrailerAtEnd(bytes, bref);
      var data :- Slice(bytes, 0, trailer.cb);
      if CrcOf(data) == trailer.dwCRC then Some(DataBlock(Permuted(false, data), trailer, |bytes|)) else None
  }

  /** `address` is where the allocator put the copy of the data, which both the CRC and the cipher look at. */
  method InitDataBlock(bytes: seq<byte>, bref: BREF, address: nat) returns (r: Option<DataBlock>)
    ensures r == DataBlockOf(bytes, bref)
  {
    if IsInternal(bref.bid) {
      return None;
    }
    var trailer := InitTrailer(bytes, bref);
    if trailer.None? {
      return None;
    }
    var view := new ByteView(bytes);
    var read := view.Read(trailer.value.cb);
    if read.None? {
      return None;
    }
    var encoded := read.value;
    var dwCRC := ComputeCRC(0, Widened(encoded), address);
    if trailer.value.dwCRC != Number(dwCRC) {
      return None;
    }
    var data := new byte[|encoded|](i requires 0 <= i < |encoded| => encoded[i]);
    assert data[..] == encoded;
    CryptPermute(data, address, false);
    return Some(DataBlock(data[..], trailer.value, |bytes|));
  }

  // ----- X and XX blocks

  datatype XBlock = XBlock(btype: byte, cLevel: byte, nBids: uint16, lcbTotal: uint32, rgbid: seq<uint64>,
                           trailer: BlockTrailer)

  function Bids(raw: seq<seq<byte>>): (r: seq<uint64>)
    requires forall c :: c in raw ==> |c| == 8
    ensures |r| == |raw|
  {
    seq(|raw|, i requires 0 <= i < |raw| => assert raw[i] in raw; U64At(raw[i], 0))
  }

  /** `XBlock::Init` (level 1) and `XXBlock::Init` (level 2), which differ in nothing else. */
  function XBlockOf(bytes: seq<byte>, bref: BREF, level: byte): (r: Option<XBlock>)
  {
    if !IsInternal(bref.bid) then None
    else
      var trailer :- TrailerAtEnd(bytes, bref);
      Pow256Values();
      var nBids := Field(bytes, 2, 2).value;
      var raw :- Chunks(bytes, 8, nBids, 8);
      var x := XBlock(Field(bytes, 0, 1).value, Field(bytes, 1, 1).value, nBids, Field(bytes, 4, 4).value, Bids(raw),
                      trailer);
      if x.btype == 0x01 && x.cLevel == level && |x.rgbid| == x.nBids then Some(x) else None
  }

  method InitXBlock(bytes: seq<byte>, bref: BREF, level: byte) returns (r: Option<XBlock>)
    ensures r == XBlockOf(bytes, bref, level)
  {
    if !IsInternal(bref.bid) {
      return None;
    }
    var trailer := InitTrailer(bytes, bref);
    if trailer.None? {
      return None;
    }
    var btype, cLevel, nBids, lcbTotal, raw := ReadXFields(bytes);
    if raw.None? {
      return None;
    }
    var x := XBlock(btype, cLevel, nBids, lcbTotal, Bids(raw.value), trailer.value);
    if x.btype != 0x01 || x.cLevel != level || |x.rgbid| != x.nBids {
      return None;
    }
    return Some(x);
  }

  /** The fields of an X or XX block, read one after the other. */
  method ReadXFields(bytes: seq<byte>)
    returns (btype: byte, cLevel: byte, nBids: uint16, lcbTotal: uint32, raw: Option<seq<seq<byte>>>)
    requires |bytes| >= 16
    ensures Field(bytes, 0, 1) == Some(btype) && Field(bytes, 1, 1) == Some(cLevel)
    ensures Field(bytes, 2, 2) == Some(nBids) && Field(bytes, 4, 4) == Some(lcbTotal)
    ensures raw == Chunks(bytes, 8, nBids, 8)
  {
    Pow256Values();
    var view := new ByteView(bytes);
    var f0 := view.ReadInt(1);
    var f1 := view.ReadInt(1);
    var f2 := view.ReadInt(2);
    var f3 := view.ReadInt(4);
    btype, cLevel, nBids, lcbTotal := f0.value, f1.value, f2.value, f3.value;
    raw := view.Entries(nBids, 8);
  }
}
