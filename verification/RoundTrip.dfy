/**
 * The documented layout of data trees (sections 2.2.2.8.1 to 2.2.2.8.3.2.2 of [MS-PST]), and loading as its left
 * inverse.
 */
module RoundTrip {
  import opened Blocks
  import opened Bytes
  import opened Cipher
  import opened DataTreeTheory
  import opened DataTrees
  import opened Ids
  import opened Views

  // ----- writing single blocks

  function EncodedTrailer(cb: uint16, wSig: uint16, dwCRC: uint32, bid: uint64): (r: seq<byte>)
    ensures |r| == 16
  {
    ToLE(cb, 2) + ToLE(wSig, 2) + ToLE(dwCRC, 4) + ToLE(bid, 8)
  }

  /** A block on disk: the raw bytes, zero padding, and a trailer that ends on a multiple of 64. */
  function Stored(raw: seq<byte>, bref: BREF): (r: seq<byte>)
    requires |raw| <= 8176
    ensures |r| == AlignedSize(|raw|).0
  {
    StoredUnder(raw, bref, bref.bid)
  }

  /** The same for any identifier in the trailer, which the format wants to be that of the block. */
  function StoredUnder(raw: seq<byte>, bref: BREF, bid: uint64): (r: seq<byte>)
    requires |raw| <= 8176
    ensures |r| == AlignedSize(|raw|).0
  {
    raw + Zeros(AlignedSize(|raw|).1) + EncodedTrailer(|raw|, ComputeSig(bref.ib, bref.bid), CrcOf(raw), bid)
  }

  /** The raw bytes of a data block are the data, encoded. */
  function StoredData(data: seq<byte>, bref: BREF): seq<byte>
    requires |data| <= 8176
  {
    Stored(Permuted(true, data), bref)
  }

  function BidBytes(bids: seq<uint64>): (r: seq<seq<byte>>)
    ensures |r| == |bids| && forall c :: c in r ==> |c| == 8
  {
    seq(|bids|, i requires 0 <= i < |bids| => ToLE(bids[i], 8))
  }

  /** The raw bytes of an X block (level 1) or XX block (level 2). */
  function XRaw(level: byte, lcbTotal: uint32, bids: seq<uint64>): (r: seq<byte>)
    requires |bids| <= 1021
    ensures |r| == 8 + 8 * |bids|
  {
    FlattenSize(BidBytes(bids), 8);
    [1, level] + ToLE(|bids|, 2) + ToLE(lcbTotal, 4) + Flatten(BidBytes(bids))
  }

  // ----- reading them back

  lemma TrailerFields(cb: uint16, wSig: uint16, dwCRC: uint32, bid: uint64)
    ensures var t := EncodedTrailer(cb, wSig, dwCRC, bid);
      && Field(t, 0, 2) == Some(cb) && Field(t, 2, 2) == Some(wSig)
      && Field(t, 4, 4) == Some(dwCRC) && Field(t, 8, 8) == Some(bid)
  {
    Pow256Values();
    var t := EncodedTrailer(cb, wSig, dwCRC, bid);
    var a, b, c, d := ToLE(cb, 2), ToLE(wSig, 2), ToLE(dwCRC, 4), ToLE(bid, 8);
    assert t[0..2] == a && t[2..4] == b && t[4..8] == c && t[8..16] == d;
    DecodeEncode(cb, 2);
    DecodeEncode(wSig, 2);
    DecodeEncode(dwCRC, 4);
    DecodeEncode(bid, 8);
  }

  lemma StoredTrailer(raw: seq<byte>, bref: BREF)
    requires |raw| <= 8176
    ensures TrailerAtEnd(Stored(raw, bref), bref)
            == Some(BlockTrailer(|raw|, ComputeSig(bref.ib, bref.bid), CrcOf(raw), bref.bid))
    ensures Slice(Stored(raw, bref), 0, |raw|) == Some(raw)
  {
    StoredUnderTrailer(raw, bref, bref.bid);
  }

  lemma StoredUnderTrailer(raw: seq<byte>, bref: BREF, bid: uint64)
    requires |raw| <= 8176
    ensures TrailerAtEnd(StoredUnder(raw, bref, bid), bref)
            == Some(BlockTrailer(|raw|, ComputeSig(bref.ib, bref.bid), CrcOf(raw), bid))
    ensures Slice(StoredUnder(raw, bref, bid), 0, |raw|) == Some(raw)
  {
    hide CrcOf, EncodedTrailer, Field, ComputeSig;
    var sig, crc := ComputeSig(bref.ib, bref.bid), CrcOf(raw);
    var s, t := StoredUnder(raw, bref, bid), EncodedTrailer(|raw|, sig, crc, bid);
    assert s[|s| - 16..] == t;
    assert s[0..|raw|] == raw;
    TrailerFields(|raw|, sig, crc, bid);
  }

  /** A data block written for some place is accepted there and gives its data back. */
  lemma DataBlockRoundTrip(data: seq<byte>, bref: BREF)
    requires |data| <= 8176 && !IsInternal(bref.bid)
    ensures DataBlockOf(StoredData(data, bref), bref).Some?
    ensures DataBlockOf(StoredData(data, bref), bref).value.data == data
  {
    StoredTrailer(Permuted(true, data), bref);
    PermuteInverse(true, data);
  }

  lemma XFields(level: byte, lcbTotal: uint32, bids: seq<uint64>, tail: seq<byte>)
    requires |bids| <= 1021
    ensures var s := XRaw(level, lcbTotal, bids) + tail;
      && s[0] == 1 && s[1] == level
      && Field(s, 2, 2) == Some(|bids|) && Field(s, 4, 4) == Some(lcbTotal)
  {
    Pow256Values();
    var s, flat := XRaw(level, lcbTotal, bids) + tail, Flatten(BidBytes(bids)) + tail;
    var start: seq<byte> := [1, level];
    var count, total := ToLE(|bids|, 2), ToLE(lcbTotal, 4);
    assert s == start + count + (total + flat);
    FieldOfConcat(start, |bids|, 2, total + flat);
    assert s == (start + count) + total + flat;
    FieldOfConcat(start + count, lcbTotal, 4, flat);
  }

  lemma XBids(level: byte, lcbTotal: uint32, bids: seq<uint64>, tail: seq<byte>)
    requires |bids| <= 1021
    ensures Chunks(XRaw(level, lcbTotal, bids) + tail, 8, |bids|, 8) == Some(BidBytes(bids))
  {
    var head := [1, level] + ToLE(|bids|, 2) + ToLE(lcbTotal, 4);
    assert XRaw(level, lcbTotal, bids) + tail == head + Flatten(BidBytes(bids)) + tail;
    ChunksOfFlatten(head, BidBytes(bids), 8, tail);
  }

  lemma BidsRoundTrip(bids: seq<uint64>)
    ensures Bids(BidBytes(bids)) == bids
  {
    forall i | 0 <= i < |bids|
      ensures U64At(BidBytes(bids)[i], 0) == bids[i]
    {
      Pow256Values();
      assert BidBytes(bids)[i][0..8] == ToLE(bids[i], 8);
      DecodeEncode(bids[i], 8);
    }
  }

  lemma XBlockAccepted(bytes: seq<byte>, level: byte, lcbTotal: uint32, bids: seq<uint64>, bref: BREF)
    requires |bids| <= 1021 && IsInternal(bref.bid) && TrailerAtEnd(bytes, bref).Some?
    requires Field(bytes, 0, 1) == Some(1) && Field(bytes, 1, 1) == Some(level)
    requires Field(bytes, 2, 2) == Some(|bids|) && Field(bytes, 4, 4) == Some(lcbTotal)
    requires Chunks(bytes, 8, |bids|, 8) == Some(BidBytes(bids))
    ensures var x := XBlockOf(bytes, bref, level);
      x.Some? && x.value.rgbid == bids && x.value.cLevel == level && x.value.lcbTotal == lcbTotal
  {
    BidsRoundTrip(bids);
  }

  lemma StoredStart(raw: seq<byte>, bref: BREF)
    requires |raw| <= 8176
    ensures Stored(raw, bref) == raw + Stored(raw, bref)[|raw|..]
  {
    StoredUnderStart(raw, bref, bref.bid);
  }

  lemma StoredUnderStart(raw: seq<byte>, bref: BREF, bid: uint64)
    requires |raw| <= 8176
    ensures StoredUnder(raw, bref, bid) == raw + StoredUnder(raw, bref, bid)[|raw|..]
  {
    var rest := Zeros(AlignedSize(|raw|).1)
                + EncodedTrailer(|raw|, ComputeSig(bref.ib, bref.bid), CrcOf(raw), bid);
    assert StoredUnder(raw, bref, bid) == raw + rest;
  }

  /** An X or XX block written for some place is accepted there and gives its identifiers back. */
  lemma XBlockRoundTrip(level: byte, lcbTotal: uint32, bids: seq<uint64>, bref: BREF)
    requires |bids| <= 1021 && IsInternal(bref.bid)
    ensures var x := XBlockOf(Stored(XRaw(level, lcbTotal, bids), bref), bref, level);
      x.Some? && x.value.rgbid == bids && x.value.cLevel == level && x.value.lcbTotal == lcbTotal
    ensures var bytes := Stored(XRaw(level, lcbTotal, bids), bref); bytes[0] == 1 && bytes[1] == level
  {
    hide TrailerOf, XBlockOf, FromLE, Field, XRaw, Stored;
    var raw := XRaw(level, lcbTotal, bids);
    var bytes := Stored(raw, bref);
    var tail := bytes[|raw|..];
    StoredTrailer(raw, bref);
    StoredStart(raw, bref);
    XFields(level, lcbTotal, bids, tail);
    XBids(level, lcbTotal, bids, tail);
    FirstBytes(bytes);
    XBlockAccepted(bytes, level, lcbTotal, bids, bref);
  }

  // ----- whole trees, wherever their blocks lie

  predicate Holds(file: seq<byte>, ib: nat, bytes: seq<byte>)
  {
    ib + |bytes| <= |file| && file[ib..ib + |bytes|] == bytes
  }

  /** The file holds a data block for this entry, with this data. */
  predicate HoldsData(file: seq<byte>, entry: BBTEntry, data: seq<byte>)
  {
    && |data| == entry.cb <= 8176 && !IsInternal(entry.bref.bid)
    && Holds(file, entry.bref.ib, StoredData(data, entry.bref))
  }

  lemma HeldDataLoads(file: seq<byte>, entry: BBTEntry, data: seq<byte>)
    requires HoldsData(file, entry, data)
    ensures OneBlock(file, entry).Some? && OneBlock(file, entry).value.data == data
  {
    hide DataBlockOf, Stored, Permuted;
    DataBlockRoundTrip(data, entry.bref);
    CheckedSizeExact(|data|);
  }

  // ----- blocks that are accepted although the index says something else

  /** A count in the index that is not that of the block is accepted whenever it rounds up to the same block size. */
  lemma WrongCountAccepted(file: seq<byte>, entry: BBTEntry, data: seq<byte>, cb: uint16)
    requires HoldsData(file, entry, data) && cb != |data| && AlignedSize(cb).0 == AlignedSize(|data|).0
    ensures var block := OneBlock(file, entry.(cb := cb));
      block.Some? && block.value.data == data && |block.value.data| != cb
  {
    hide OneBlock, HoldsData;
    HeldDataLoads(file, entry, data);
    HeldCount(file, entry, data);
    IndexCountOnlySizesTheRead(file, entry, cb);
  }

  lemma HeldCount(file: seq<byte>, entry: BBTEntry, data: seq<byte>)
    requires HoldsData(file, entry, data)
    ensures entry.cb == |data|
  {
  }

  /** For one, an empty block at the start of a file, listed with one byte. */
  lemma WrongCountExample(file: seq<byte>, entry: BBTEntry)
    requires entry == BBTEntry(BREF(4, 0), 0, 1, 0) && file == StoredData([], entry.bref)
    ensures OneBlock(file, entry.(cb := 1)).Some? && OneBlock(file, entry.(cb := 1)).value.data == []
  {
    hide OneBlock, Stored;
    assert file[0..|file|] == file;
    WrongCountAccepted(file, entry, [], 1);
  }

  /** A block with any identifier in its trailer is accepted under the identifier that the index gives it. */
  lemma WrongIdentifierAccepted(data: seq<byte>, entry: BBTEntry, bid: uint64)
    requires entry.bref.ib == 0 && entry.cb == |data| <= 8176 && !IsInternal(entry.bref.bid)
    ensures var block := OneBlock(StoredUnder(Permuted(true, data), entry.bref, bid), entry);
      block.Some? && block.value.data == data && block.value.trailer.bid == bid
  {
    hide TrailerAtEnd, StoredUnder, CrcOf;
    var file := StoredUnder(Permuted(true, data), entry.bref, bid);
    CheckedSizeExact(|data|);
    assert file[0..|file|] == file;
    StoredUnderTrailer(Permuted(true, data), entry.bref, bid);
    PermuteInverse(true, data);
  }

  /** For one, an empty block that says that it is block 8, listed as block 4. */
  lemma WrongIdentifierExample(entry: BBTEntry)
    requires entry == BBTEntry(BREF(4, 0), 0, 1, 0)
    ensures var block := OneBlock(StoredUnder([], entry.bref, 8), entry);
      block.Some? && block.value.trailer.bid == 8 != entry.bref.bid
  {
    hide OneBlock, StoredUnder;
    assert Permuted(true, []) == [];
    WrongIdentifierAccepted([], entry, 8);
  }

  // ----- blocks that are accepted although they were damaged

  /** An X or XX block with other identifiers than its CRC was computed from. */
  function Altered(level: byte, lcbTotal: uint32, bids: seq<uint64>, others: seq<uint64>, bref: BREF): (r: seq<byte>)
    requires |others| == |bids| <= 1021
    ensures |r| == |Stored(XRaw(level, lcbTotal, bids), bref)|
  {
    XRaw(level, lcbTotal, others) + Stored(XRaw(level, lcbTotal, bids), bref)[8 + 8 * |bids|..]
  }

  /** It is accepted, and the other identifiers are what is read. */
  lemma AlteredXBlockAccepted(level: byte, lcbTotal: uint32, bids: seq<uint64>, others: seq<uint64>, bref: BREF)
    requires |others| == |bids| <= 1021 && IsInternal(bref.bid)
    ensures var bytes := Altered(level, lcbTotal, bids, others, bref);
      && TrailerAtEnd(bytes, bref) == TrailerAtEnd(Stored(XRaw(level, lcbTotal, bids), bref), bref)
      && XBlockOf(bytes, bref, level).Some? && XBlockOf(bytes, bref, level).value.rgbid == others
      && bytes[0] == 1 && bytes[1] == level
  {
    hide TrailerAtEnd, XBlockOf, FromLE, Field, XRaw, Stored, Chunks, ComputeSig, CrcOf;
    var good, bytes := Stored(XRaw(level, lcbTotal, bids), bref), Altered(level, lcbTotal, bids, others, bref);
    var tail := good[8 + 8 * |bids|..];
    StoredTrailer(XRaw(level, lcbTotal, bids), bref);
    AlignedSizeIsLeast(8 + 8 * |bids|, 0);
    SameEnd(XRaw(level, lcbTotal, others), good, 8 + 8 * |bids|, bref);
    XFields(level, lcbTotal, others, tail);
    XBids(level, lcbTotal, others, tail);
    FirstBytes(bytes);
    XBlockAccepted(bytes, level, lcbTotal, others, bref);
  }

  /** A trailer does not depend on what precedes it. */
  lemma SameEnd(start: seq<byte>, bytes: seq<byte>, n: nat, bref: BREF)
    requires n + 16 <= |bytes|
    ensures TrailerAtEnd(start + bytes[n..], bref) == TrailerAtEnd(bytes, bref)
  {
    hide TrailerOf;
    var other := start + bytes[n..];
    assert other[|other| - 16..] == bytes[|bytes| - 16..];
  }

  /** So a tree whose X block was altered loads the data of other blocks. */
  lemma AlteredTreeLoads(file: seq<byte>, getBBT: GetBBT, bref: BREF, lcbTotal: uint32, bids: seq<uint64>,
                         others: seq<uint64>, pieces: seq<seq<byte>>, dispatch: Dispatch)
    requires |others| == |bids| <= 1021 && IsInternal(bref.bid)
    requires Holds(file, bref.ib, Altered(1, lcbTotal, bids, others, bref)) && HoldsPieces(file, getBBT, others, pieces)
    ensures var blocks := LoadedBlocks(file, getBBT, bref, 8 + 8 * |bids|, dispatch);
      blocks.Some? && Combined(blocks.value) == Flatten(pieces)
  {
    hide XBlockOf, AllBlocks, HoldsPieces, TrailerAtEnd, Altered, RootBytes, Stored, XRaw, ComputeSig, CrcOf, Holds;
    AlteredXBlockAccepted(1, lcbTotal, bids, others, bref);
    StoredTrailer(XRaw(1, lcbTotal, bids), bref);
    RootAccepted(file, bref, 8 + 8 * |bids|, Altered(1, lcbTotal, bids, others, bref));
    PiecesLoad(file, getBBT, others, pieces);
  }

  // ----- lists of data blocks

  /** The index leads from each identifier to a data block with the piece of the same position. */
  predicate HoldsPieces(file: seq<byte>, getBBT: GetBBT, bids: seq<uint64>, pieces: seq<seq<byte>>)
  {
    |bids| == |pieces| && forall i :: 0 <= i < |bids| ==> HoldsPiece(file, getBBT, bids[i], pieces[i])
  }

  predicate HoldsPiece(file: seq<byte>, getBBT: GetBBT, bid: uint64, piece: seq<byte>)
  {
    getBBT(bid).Some? && HoldsData(file, getBBT(bid).value, piece)
  }

  lemma HeldPieceLoads(file: seq<byte>, getBBT: GetBBT, bid: uint64, piece: seq<byte>)
    requires HoldsPiece(file, getBBT, bid, piece)
    ensures getBBT(bid).Some? && OneBlock(file, getBBT(bid).value).Some?
    ensures OneBlock(file, getBBT(bid).value).value.data == piece
  {
    HeldDataLoads(file, getBBT(bid).value, piece);
  }

  lemma {:induction false} PiecesLoad(file: seq<byte>, getBBT: GetBBT, bids: seq<uint64>, pieces: seq<seq<byte>>)
    requires HoldsPieces(file, getBBT, bids, pieces)
    ensures var entries := Lookups(getBBT, bids);
      && entries.Some? && AllBlocks(file, entries.value).Some?
      && Combined(AllBlocks(file, entries.value).value) == Flatten(pieces)
  {
    hide HoldsPiece, OneBlock;
    if bids == [] {
    } else {
      var n := |bids| - 1;
      PiecesLoad(file, getBBT, bids[..n], pieces[..n]);
      HeldPieceLoads(file, getBBT, bids[n], pieces[n]);
      SnocLoads(file, Lookups(getBBT, bids[..n]).value, getBBT(bids[n]).value);
      FlattenSnoc(pieces[..n], pieces[n]);
      assert pieces == pieces[..n] + [pieces[n]];
    }
  }

  lemma SnocLoads(file: seq<byte>, entries: seq<BBTEntry>, entry: BBTEntry)
    requires AllBlocks(file, entries).Some? && OneBlock(file, entry).Some?
    ensures AllBlocks(file, entries + [entry]).Some?
    ensures Combined(AllBlocks(file, entries + [entry]).value)
            == Combined(AllBlocks(file, entries).value) + OneBlock(file, entry).value.data
  {
    hide OneBlock;
    assert (entries + [entry])[..|entries|] == entries;
    var blocks := AllBlocks(file, entries).value;
    assert (blocks + [OneBlock(file, entry).value])[..|blocks|] == blocks;
  }

  /** The file holds an X or XX block with these identifiers; `cb` is the count that its entry gives. */
  predicate HoldsX(file: seq<byte>, bref: BREF, cb: nat, level: byte, lcbTotal: uint32, bids: seq<uint64>)
  {
    && |bids| <= 1021 && cb == 8 + 8 * |bids| && IsInternal(bref.bid)
    && Holds(file, bref.ib, Stored(XRaw(level, lcbTotal, bids), bref))
  }

  /** What the checks on the first block ask for. */
  lemma RootAccepted(file: seq<byte>, bref: BREF, size: nat, bytes: seq<byte>)
    requires size <= 8176 && |bytes| == AlignedSize(size).0 && Holds(file, bref.ib, bytes)
    requires TrailerAtEnd(bytes, bref).Some?
    requires var trailer := TrailerAtEnd(bytes, bref).value; trailer.bid == bref.bid && trailer.cb == size
    ensures RootBytes(file, bref, size) == Some(bytes)
  {
    hide TrailerAtEnd;
    CheckedSizeExact(size);
    AlignedSizeIsLeast(size, 0);
  }

  lemma HeldXRoot(file: seq<byte>, bref: BREF, cb: nat, level: byte, lcbTotal: uint32, bids: seq<uint64>)
    requires HoldsX(file, bref, cb, level, lcbTotal, bids)
    ensures RootBytes(file, bref, cb) == Some(Stored(XRaw(level, lcbTotal, bids), bref))
  {
    hide TrailerAtEnd, Stored, XRaw, RootBytes, Holds, AlignedSize, ComputeSig, CrcOf;
    StoredTrailer(XRaw(level, lcbTotal, bids), bref);
    RootAccepted(file, bref, cb, Stored(XRaw(level, lcbTotal, bids), bref));
  }

  lemma HeldXBlock(file: seq<byte>, getBBT: GetBBT, bid: uint64, lcbTotal: uint32, bids: seq<uint64>)
    requires getBBT(bid).Some? && HoldsX(file, getBBT(bid).value.bref, getBBT(bid).value.cb, 1, lcbTotal, bids)
    ensures XBlockAt(file, getBBT, bid).Some? && XBlockAt(file, getBBT, bid).value.rgbid == bids
  {
    hide XBlockOf, XRaw, Stored;
    var entry := getBBT(bid).value;
    XBlockRoundTrip(1, lcbTotal, bids, entry.bref);
    CheckedSizeExact(entry.cb);
  }

  lemma HeldDataRoot(file: seq<byte>, entry: BBTEntry, data: seq<byte>)
    requires HoldsData(file, entry, data)
    ensures RootBytes(file, entry.bref, entry.cb) == Some(StoredData(data, entry.bref))
  {
    hide TrailerAtEnd, Stored, Permuted, RootBytes, Holds, AlignedSize, ComputeSig, CrcOf;
    StoredTrailer(Permuted(true, data), entry.bref);
    RootAccepted(file, entry.bref, entry.cb, StoredData(data, entry.bref));
  }

  /** Round trip of data that fits one block. */
  lemma SingleBlockRoundTrip(file: seq<byte>, getBBT: GetBBT, entry: BBTEntry, data: seq<byte>, dispatch: Dispatch)
    requires HoldsData(file, entry, data)
    ensures var blocks := LoadedBlocks(file, getBBT, entry.bref, entry.cb, dispatch);
      blocks.Some? && Combined(blocks.value) == data
  {
    hide RootBytes, DataBlockOf, StoredData, Expanded;
    HeldDataRoot(file, entry, data);
    DataBlockRoundTrip(data, entry.bref);
    var block := DataBlockOf(StoredData(data, entry.bref), entry.bref).value;
    assert [block][..0] == [];
    assert Combined([block]) == data;
  }

  /** Round trip through an X block, whichever byte the root's kind is read from. */
  lemma XBlockTreeRoundTrip(file: seq<byte>, getBBT: GetBBT, bref: BREF, cb: nat, lcbTotal: uint32, bids: seq<uint64>,
                            pieces: seq<seq<byte>>, dispatch: Dispatch)
    requires HoldsX(file, bref, cb, 1, lcbTotal, bids) && HoldsPieces(file, getBBT, bids, pieces)
    ensures var blocks := LoadedBlocks(file, getBBT, bref, cb, dispatch);
      blocks.Some? && Combined(blocks.value) == Flatten(pieces)
  {
    hide XBlockOf, AllBlocks, HoldsPieces;
    HeldXRoot(file, bref, cb, 1, lcbTotal, bids);
    XBlockRoundTrip(1, lcbTotal, bids, bref);
    PiecesLoad(file, getBBT, bids, pieces);
  }

  /** One X block under an XX block: its identifiers and the pieces of its data blocks. */
  datatype Group = Group(lcbTotal: uint32, bids: seq<uint64>, pieces: seq<seq<byte>>)

  predicate HoldsGroup(file: seq<byte>, getBBT: GetBBT, bid: uint64, group: Group)
  {
    && getBBT(bid).Some?
    && HoldsX(file, getBBT(bid).value.bref, getBBT(bid).value.cb, 1, group.lcbTotal, group.bids)
    && HoldsPieces(file, getBBT, group.bids, group.pieces)
  }

  function AllPieces(groups: seq<Group>): seq<seq<byte>>
  {
    if groups == [] then [] else AllPieces(groups[..|groups| - 1]) + groups[|groups| - 1].pieces
  }

  lemma HeldGroupLoads(file: seq<byte>, getBBT: GetBBT, bid: uint64, group: Group)
    requires HoldsGroup(file, getBBT, bid, group)
    ensures var entries := XEntries(file, getBBT, bid);
      && entries.Some? && AllBlocks(file, entries.value).Some?
      && Combined(AllBlocks(file, entries.value).value) == Flatten(group.pieces)
  {
    hide XBlockAt, AllBlocks, HoldsPieces, HoldsX;
    HeldXBlock(file, getBBT, bid, group.lcbTotal, group.bids);
    PiecesLoad(file, getBBT, group.bids, group.pieces);
  }

  lemma {:induction false} GroupsLoad(file: seq<byte>, getBBT: GetBBT, bids: seq<uint64>, groups: seq<Group>)
    requires |bids| == |groups| && forall i :: 0 <= i < |bids| ==> HoldsGroup(file, getBBT, bids[i], groups[i])
    ensures var entries := XXLookups(file, getBBT, bids);
      && entries.Some? && AllBlocks(file, entries.value).Some?
      && Combined(AllBlocks(file, entries.value).value) == Flatten(AllPieces(groups))
  {
    hide HoldsGroup, XEntries, AllBlocks;
    if bids == [] {
      NoBlocks(file);
    } else {
      var n := |bids| - 1;
      GroupsLoad(file, getBBT, bids[..n], groups[..n]);
      HeldGroupLoads(file, getBBT, bids[n], groups[n]);
      var before, entries := XXLookups(file, getBBT, bids[..n]).value, XEntries(file, getBBT, bids[n]).value;
      AllBlocksConcat(file, before, entries);
      CombinedConcat(AllBlocks(file, before).value, AllBlocks(file, entries).value);
      FlattenConcat(AllPieces(groups[..n]), groups[n].pieces);
    }
  }

  lemma {:induction false} CombinedConcat(a: seq<DataBlock>, b: seq<DataBlock>)
    ensures Combined(a + b) == Combined(a) + Combined(b)
  {
    hide Combined;
    if b == [] {
      NothingCombined();
      assert a + b == a;
    } else {
      var n := |b| - 1;
      CombinedConcat(a, b[..n]);
      CombinedSnoc(b[..n], b[n]);
      CombinedSnoc(a + b[..n], b[n]);
      Associative(a, b[..n], [b[n]]);
      Associative(Combined(a), Combined(b[..n]), b[n].data);
      assert b == b[..n] + [b[n]];
    }
  }

  lemma NothingCombined()
    ensures Combined([]) == []
  {
  }

  lemma CombinedSnoc(blocks: seq<DataBlock>, block: DataBlock)
    ensures Combined(blocks + [block]) == Combined(blocks) + block.data
  {
    assert (blocks + [block])[..|blocks|] == blocks;
  }

  lemma AllPiecesSnoc(groups: seq<Group>, group: Group)
    ensures AllPieces(groups + [group]) == AllPieces(groups) + group.pieces
  {
    assert (groups + [group])[..|groups|] == groups;
  }

  // ----- trees that load although the index is wrong

  /**
   * An X block with one identifier loads whatever block the index leads to, as long as that block alone is accepted.
   */
  lemma OneBlockTree(file: seq<byte>, getBBT: GetBBT, bref: BREF, lcbTotal: uint32, bid: uint64, dispatch: Dispatch)
    requires HoldsX(file, bref, 16, 1, lcbTotal, [bid])
    requires getBBT(bid).Some? && OneBlock(file, getBBT(bid).value).Some?
    ensures LoadedBlocks(file, getBBT, bref, 16, dispatch) == Some([OneBlock(file, getBBT(bid).value).value])
  {
    hide XBlockOf, OneBlock, RootBytes, Stored, XRaw, HoldsX, Lookups, AllBlocks;
    InternalRoot(file, bref, lcbTotal, bid);
    HeldXRoot(file, bref, 16, 1, lcbTotal, [bid]);
    XBlockRoundTrip(1, lcbTotal, [bid], bref);
    SingleLookup(getBBT, bid);
    SingleBlock(file, getBBT(bid).value);
  }

  lemma InternalRoot(file: seq<byte>, bref: BREF, lcbTotal: uint32, bid: uint64)
    requires HoldsX(file, bref, 16, 1, lcbTotal, [bid])
    ensures IsInternal(bref.bid)
  {
  }

  lemma SingleLookup(getBBT: GetBBT, bid: uint64)
    requires getBBT(bid).Some?
    ensures Lookups(getBBT, [bid]) == Some([getBBT(bid).value])
  {
    LookupsSplit(getBBT, [bid], 0);
    assert [bid][..0] == [] && [bid][..1] == [bid];
    var before := Lookups(getBBT, [bid][..0]).value;
    assert before + [getBBT(bid).value] == [getBBT(bid).value];
  }

  lemma SingleBlock(file: seq<byte>, entry: BBTEntry)
    requires OneBlock(file, entry).Some?
    ensures AllBlocks(file, [entry]) == Some([OneBlock(file, entry).value])
  {
    hide OneBlock;
    AllBlocksSplit(file, [entry], 0);
    assert [entry][..0] == [] && [entry][..1] == [entry];
    var before := AllBlocks(file, [entry][..0]).value;
    assert before + [OneBlock(file, entry).value] == [OneBlock(file, entry).value];
  }

  /** The file of the two examples: a data block at offset 0, and an X block that refers to it at offset 64. */
  function TwoBlocks(data: seq<byte>, lcbTotal: uint32, bid: uint64, bref: BREF): (file: seq<byte>)
    requires |data| == 64
  {
    data + Stored(XRaw(1, lcbTotal, [bid]), bref)
  }

  lemma TwoBlocksHeld(data: seq<byte>, lcbTotal: uint32, bid: uint64, bref: BREF)
    requires |data| == 64 && IsInternal(bref.bid) && bref.ib == 64
    ensures var file := TwoBlocks(data, lcbTotal, bid, bref);
      Holds(file, 0, data) && HoldsX(file, bref, 16, 1, lcbTotal, [bid])
  {
    hide Stored, XRaw;
    var x := Stored(XRaw(1, lcbTotal, [bid]), bref);
    assert (data + x)[0..64] == data && (data + x)[64..64 + |x|] == x;
  }

  function OnlyEntry(entry: BBTEntry): GetBBT {
    bid => if bid == entry.bref.bid then Some(entry) else None
  }

  /** An X block over an empty block that is listed with one byte loads all the same. */
  lemma WrongCountLoads(entry: BBTEntry, root: BREF, dispatch: Dispatch)
    requires entry == BBTEntry(BREF(4, 0), 1, 1, 0) && root == BREF(6, 64)
    ensures var file := TwoBlocks(StoredData([], entry.bref), 0, 4, root);
      var blocks := LoadedBlocks(file, OnlyEntry(entry), root, 16, dispatch);
      blocks.Some? && Combined(blocks.value) == []
  {
    hide OneBlock, Stored, Permuted, HoldsX, LoadedBlocks, TwoBlocks, Combined;
    var file := TwoBlocks(StoredData([], entry.bref), 0, 4, root);
    TwoBlocksHeld(StoredData([], entry.bref), 0, 4, root);
    WrongCountAccepted(file, entry.(cb := 0), [], 1);
    OneBlockTree(file, OnlyEntry(entry), root, 0, 4, dispatch);
    CombinedOne(OneBlock(file, entry).value);
  }

  lemma CombinedOne(block: DataBlock)
    ensures Combined([block]) == block.data
  {
    assert [block][..0] == [];
  }

  /** And so does one over a block that says that it is block 8, listed as block 4. */
  lemma WrongIdentifierLoads(entry: BBTEntry, root: BREF, dispatch: Dispatch)
    requires entry == BBTEntry(BREF(4, 0), 0, 1, 0) && root == BREF(6, 64)
    ensures var file := TwoBlocks(StoredUnder([], entry.bref, 8), 0, 4, root);
      var blocks := LoadedBlocks(file, OnlyEntry(entry), root, 16, dispatch);
      blocks.Some? && |blocks.value| == 1 && blocks.value[0].trailer.bid == 8 != entry.bref.bid
  {
    hide OneBlock, StoredUnder, Stored, HoldsX, LoadedBlocks, TwoBlocks;
    var data := StoredUnder([], entry.bref, 8);
    var file := TwoBlocks(data, 0, 4, root);
    TwoBlocksHeld(data, 0, 4, root);
    WrongIdentifierExample(entry);
    OneBlockInside(data, file, entry);
    OneBlockTree(file, OnlyEntry(entry), root, 0, 4, dispatch);
  }

  lemma OneBlockInside(data: seq<byte>, file: seq<byte>, entry: BBTEntry)
    requires entry.bref.ib == 0 && |data| == AlignedSize(entry.cb).0 && Holds(file, 0, data)
    ensures OneBlock(file, entry) == OneBlock(data, entry)
  {
    hide DataBlockOf;
    CheckedSizeExact(entry.cb);
    assert data[0..|data|] == data;
  }

  /** Round trip through an XX block, its kind read from `cLevel`. */
  lemma XXBlockTreeRoundTrip(file: seq<byte>, getBBT: GetBBT, bref: BREF, cb: nat, lcbTotal: uint32, bids: seq<uint64>,
                             groups: seq<Group>)
    requires HoldsX(file, bref, cb, 2, lcbTotal, bids) && |bids| == |groups|
    requires forall i :: 0 <= i < |bids| ==> HoldsGroup(file, getBBT, bids[i], groups[i])
    ensures var blocks := LoadedBlocks(file, getBBT, bref, cb, ByLevel);
      blocks.Some? && Combined(blocks.value) == Flatten(AllPieces(groups))
    ensures LoadedBlocks(file, getBBT, bref, cb, AsWritten).None?
  {
    hide XBlockOf, AllBlocks, HoldsGroup;
    HeldXRoot(file, bref, cb, 2, lcbTotal, bids);
    XBlockRoundTrip(2, lcbTotal, bids, bref);
    GroupsLoad(file, getBBT, bids, groups);
    DispatchAgreesExceptXX(file, getBBT, bref, cb);
  }
}
