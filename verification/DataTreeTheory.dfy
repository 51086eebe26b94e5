/**
 * What loading a data tree guarantees: order and size, rejection of damaged blocks, and the choice between X and XX.
 */
module DataTreeTheory {
  import opened Blocks
  import opened Bytes
  import opened Cipher
  import opened Crc
  import opened CrcTheory
  import opened CryptTables
  import opened DataTrees
  import opened Ids
  import opened Views
  import opened Widening

  // ----- single blocks

  /** A block that is accepted holds exactly `cb` bytes, and encoding them again gives the bytes on disk. */
  lemma AcceptedBlock(bytes: seq<byte>, bref: BREF)
    requires DataBlockOf(bytes, bref).Some?
    ensures var block := DataBlockOf(bytes, bref).value;
      && |block.data| == block.trailer.cb <= |bytes|
      && Permuted(true, block.data) == bytes[..block.trailer.cb]
      && CrcOf(Permuted(true, block.data)) == block.trailer.dwCRC
      && block.trailer.wSig == ComputeSig(bref.ib, bref.bid)
  {
    var trailer := TrailerAtEnd(bytes, bref).value;
    PermuteInverse(false, bytes[..trailer.cb]);
  }

  lemma WidenedDiffers(a: seq<byte>, b: seq<byte>)
    requires |a| == |b| && a != b
    ensures Widened(a) != Widened(b)
  {
    var i :| 0 <= i < |a| && a[i] != b[i];
    WideningInjective(a[i], b[i]);
    assert Widened(a)[i] != Widened(b)[i];
  }

  lemma CrcOfDiffers(a: seq<byte>, b: seq<byte>)
    requires BytewiseCrc(0, Widened(a)) != BytewiseCrc(0, Widened(b))
    ensures CrcOf(a) != CrcOf(b)
  {
    var c, d := BytewiseCrc(0, Widened(a)), BytewiseCrc(0, Widened(b));
    assert (c as int) as bv32 == c && (d as int) as bv32 == d;
  }

  // ----- what is checked of a block

  /** A trailer is the last 16 bytes, field by field, and is accepted exactly with the right signature. */
  lemma TrailerOnDisk(bytes: seq<byte>, bref: BREF)
    ensures TrailerAtEnd(bytes, bref).Some?
            <==> |bytes| >= 16 && U16At(bytes, |bytes| - 14) == ComputeSig(bref.ib, bref.bid)
    ensures TrailerAtEnd(bytes, bref).Some? ==>
              var n := |bytes|;
              TrailerAtEnd(bytes, bref).value
              == BlockTrailer(U16At(bytes, n - 16), U16At(bytes, n - 14), U32At(bytes, n - 12), U64At(bytes, n - 8))
  {
    hide FromLE, ComputeSig;
    if |bytes| >= 16 {
      var n := |bytes|;
      var last := bytes[n - 16..];
      assert last[0..2] == bytes[n - 16..n - 14];
      assert last[2..4] == bytes[n - 14..n - 12];
      assert last[4..8] == bytes[n - 12..n - 8];
      assert last[8..16] == bytes[n - 8..n];
    }
  }

  /** The CRC of a byte string is the number in the register after its bits, lowest first, were shifted through it. */
  lemma CrcIsSerial(s: seq<byte>)
    ensures CrcOf(s) == SerialCrc(0, MessageBits(Widened(s))) as int
  {
    hide SerialCrc, MessageBits, BytewiseCrc, Widened;
    BytewiseIsSerial(0, Widened(s));
  }

  /**
   * A data block is accepted exactly with an external identifier (bit 1 clear), the signature of its place, the number
   * of bytes that its trailer says, and for these bytes the bit-serial CRC that its trailer says.
   */
  lemma DataBlockAcceptedIff(bytes: seq<byte>, bref: BREF)
    ensures DataBlockOf(bytes, bref).Some?
            <==> && bref.bid % 4 < 2
                 && |bytes| >= 16 && U16At(bytes, |bytes| - 14) == ComputeSig(bref.ib, bref.bid)
                 && var cb := U16At(bytes, |bytes| - 16);
                    && cb <= |bytes|
                    && SerialCrc(0, MessageBits(Widened(bytes[..cb]))) as int == U32At(bytes, |bytes| - 12)
  {
    hide TrailerAtEnd, CrcOf, U16At, U32At, U64At, ComputeSig, SerialCrc, MessageBits, Widened;
    TrailerOnDisk(bytes, bref);
    InternalBit(bref.bid);
    if |bytes| >= 16 && U16At(bytes, |bytes| - 16) <= |bytes| {
      var cb := U16At(bytes, |bytes| - 16);
      assert bytes[0..cb] == bytes[..cb];
      CrcIsSerial(bytes[..cb]);
    }
  }

  lemma AcceptedTrailer(bytes: seq<byte>, bref: BREF)
    ensures DataBlockOf(bytes, bref).Some?
            <==> && !IsInternal(bref.bid) && TrailerAtEnd(bytes, bref).Some?
                 && var trailer := TrailerAtEnd(bytes, bref).value;
                    trailer.cb <= |bytes| && CrcOf(bytes[..trailer.cb]) == trailer.dwCRC
  {
    hide TrailerAtEnd, CrcOf;
    var trailer := TrailerAtEnd(bytes, bref);
    if trailer.Some? && trailer.value.cb <= |bytes| {
      assert bytes[0..trailer.value.cb] == bytes[..trailer.value.cb];
    }
  }

  /** What an accepted data block gives: the bytes that the first table leads from to those on disk, in order. */
  lemma DataOnDisk(bytes: seq<byte>, bref: BREF)
    requires DataBlockOf(bytes, bref).Some?
    ensures var block := DataBlockOf(bytes, bref).value;
      && |bytes| >= 16 && |block.data| == U16At(bytes, |bytes| - 16) <= |bytes|
      && (forall k :: 0 <= k < |block.data| ==> MpbbR(block.data[k]) == bytes[k])
      && block.sizeWPadding == |bytes|
  {
    hide TrailerAtEnd, CrcOf, U16At, U32At, U64At, ComputeSig, MpbbR, MpbbI;
    TrailerOnDisk(bytes, bref);
    var block := DataBlockOf(bytes, bref).value;
    var read := bytes[0..block.trailer.cb];
    forall k | 0 <= k < |block.data|
      ensures MpbbR(block.data[k]) == bytes[k]
    {
      DecodesFromR(read, k);
    }
  }

  /** So what the padding holds, and what identifier the trailer holds, makes no difference to the data. */
  lemma PaddingUnchecked(bytes: seq<byte>, other: seq<byte>, bref: BREF)
    requires DataBlockOf(bytes, bref).Some? && |other| == |bytes|
    requires var cb := DataBlockOf(bytes, bref).value.trailer.cb;
      cb <= |bytes| - 16 && other[..cb] == bytes[..cb]
    requires other[|bytes| - 16..|bytes| - 8] == bytes[|bytes| - 16..|bytes| - 8]
    ensures DataBlockOf(other, bref).Some?
    ensures DataBlockOf(other, bref).value.data == DataBlockOf(bytes, bref).value.data
  {
    hide CrcOf, Permuted, TrailerAtEnd;
    SameTrailer(bytes, other, bref);
    AcceptedTrailer(bytes, bref);
    AcceptedTrailer(other, bref);
    var cb := DataBlockOf(bytes, bref).value.trailer.cb;
    assert other[0..cb] == other[..cb] && bytes[0..cb] == bytes[..cb];
  }

  /** The first eight bytes of a trailer hold all that is looked at, except the identifier. */
  lemma SameTrailer(bytes: seq<byte>, other: seq<byte>, bref: BREF)
    requires |other| == |bytes| >= 16 && TrailerAtEnd(bytes, bref).Some?
    requires other[|bytes| - 16..|bytes| - 8] == bytes[|bytes| - 16..|bytes| - 8]
    ensures TrailerAtEnd(other, bref).Some?
    ensures var t, u := TrailerAtEnd(bytes, bref).value, TrailerAtEnd(other, bref).value;
      t.cb == u.cb && t.wSig == u.wSig && t.dwCRC == u.dwCRC
  {
    hide FromLE, ComputeSig;
    var n := |bytes|;
    var a, b := bytes[n - 16..], other[n - 16..];
    var head := bytes[n - 16..n - 8];
    assert a[..8] == head && b[..8] == head;
    assert a[0..2] == head[0..2] && b[0..2] == head[0..2];
    assert a[2..4] == head[2..4] && b[2..4] == head[2..4];
    assert a[4..8] == head[4..8] && b[4..8] == head[4..8];
  }

  /** An X or XX block is accepted whatever the CRC in its trailer: exactly these conditions are checked. */
  lemma XBlockAcceptedIff(bytes: seq<byte>, bref: BREF, level: byte)
    requires |bytes| >= 16
    ensures XBlockOf(bytes, bref, level).Some?
            <==> && bref.bid % 4 >= 2 && U16At(bytes, |bytes| - 14) == ComputeSig(bref.ib, bref.bid)
                 && bytes[0] == 1 && bytes[1] == level && 8 + 8 * U16At(bytes, 2) <= |bytes|
  {
    hide TrailerAtEnd, FromLE, Chunks, ComputeSig;
    TrailerOnDisk(bytes, bref);
    InternalBit(bref.bid);
    FirstBytes(bytes);
    ChunksExist(bytes, 8, U16At(bytes, 2), 8);
  }

  /** What an accepted X or XX block gives: the identifiers that follow each other on disk, in order. */
  lemma XBlockOnDisk(bytes: seq<byte>, bref: BREF, level: byte)
    requires XBlockOf(bytes, bref, level).Some?
    ensures var x := XBlockOf(bytes, bref, level).value;
      && |bytes| >= 16 && |x.rgbid| == U16At(bytes, 2) && 8 + 8 * |x.rgbid| <= |bytes|
      && (forall i :: 0 <= i < |x.rgbid| ==> x.rgbid[i] == U64At(bytes, 8 + 8 * i))
      && x.lcbTotal == U32At(bytes, 4)
  {
    hide TrailerAtEnd, FromLE, Chunks, ComputeSig;
    TrailerOnDisk(bytes, bref);
    ChunksExist(bytes, 8, U16At(bytes, 2), 8);
    var x, raw := XBlockOf(bytes, bref, level).value, Chunks(bytes, 8, U16At(bytes, 2), 8).value;
    forall i | 0 <= i < |x.rgbid|
      ensures x.rgbid[i] == U64At(bytes, 8 + 8 * i)
    {
      ChunkAt(bytes, 8, |raw|, 8, i);
      FieldInSlice(bytes, 8 + i * 8, 8, 0, 8);
    }
  }

  /**
   * A data block that was accepted is refused after any damage to its data that leaves the trailer alone and is
   * confined to four consecutive bytes, whatever their values.
   */
  lemma DamageRefused(bytes: seq<byte>, damaged: seq<byte>, bref: BREF, at: nat)
    requires DataBlockOf(bytes, bref).Some?
    requires |damaged| == |bytes| && damaged[|bytes| - 16..] == bytes[|bytes| - 16..]
    requires forall i :: 0 <= i < |bytes| && !(at <= i < at + 4) ==> damaged[i] == bytes[i]
    requires var cb := DataBlockOf(bytes, bref).value.trailer.cb; damaged[..cb] != bytes[..cb]
    ensures DataBlockOf(damaged, bref).None?
  {
    hide TrailerOf, BytewiseCrc, Permuted;
    var cb := DataBlockOf(bytes, bref).value.trailer.cb;
    var a, b := bytes[..cb], damaged[..cb];
    var p, q := Widened(a), Widened(b);
    WidenedDiffers(a, b);
    FourByteBurstDetected(0, p, q, at);
    CrcOfDiffers(a, b);
  }

  // ----- order and size

  /** The blocks of a list are the blocks of its entries, one for one. */
  lemma {:induction false} BlocksInOrder(file: seq<byte>, entries: seq<BBTEntry>, i: nat)
    requires AllBlocks(file, entries).Some? && i < |entries|
    ensures OneBlock(file, entries[i]) == Some(AllBlocks(file, entries).value[i])
  {
    hide OneBlock;
    var n := |entries| - 1;
    if i == n {
    } else {
      BlocksInOrder(file, entries[..n], i);
    }
  }

  function SumOfCb(blocks: seq<DataBlock>): nat
  {
    if blocks == [] then 0 else SumOfCb(blocks[..|blocks| - 1]) + blocks[|blocks| - 1].trailer.cb
  }

  /** The combined data is as long as the trailers say. */
  lemma {:induction false} CombinedSize(file: seq<byte>, entries: seq<BBTEntry>)
    requires AllBlocks(file, entries).Some?
    ensures |Combined(AllBlocks(file, entries).value)| == SumOfCb(AllBlocks(file, entries).value)
  {
    if entries == [] {
    } else {
      var n := |entries| - 1;
      CombinedSize(file, entries[..n]);
      var size := CheckedSize(entries[n].cb).value;
      AcceptedBlock(ReadBytes(file, entries[n].bref.ib, size.0).value, entries[n].bref);
      var blocks := AllBlocks(file, entries).value;
      assert blocks[..n] == AllBlocks(file, entries[..n]).value;
    }
  }

  // ----- what the block index says and what the block says

  /**
   * The count in the block index is only used to size the read: any other count that rounds up to the same block size
   * gives the same block. So the length of the data is the count of the trailer, whatever the index says.
   */
  lemma IndexCountOnlySizesTheRead(file: seq<byte>, entry: BBTEntry, cb: uint16)
    requires AlignedSize(cb).0 == AlignedSize(entry.cb).0
    ensures OneBlock(file, entry.(cb := cb)) == OneBlock(file, entry)
  {
    CheckedSizeExact(cb);
    CheckedSizeExact(entry.cb);
  }

  /** Where the trailer of an entry's block begins in the file. */
  function TrailerPosition(entry: BBTEntry): nat
  {
    entry.bref.ib + AlignedSize(entry.cb).0 - 16
  }

  /** The trailer of an entry's block, as far as it is accepted. */
  function TrailerIn(file: seq<byte>, entry: BBTEntry): Option<BlockTrailer>
  {
    var bytes :- ReadBytes(file, entry.bref.ib, AlignedSize(entry.cb).0);
    TrailerAtEnd(bytes, entry.bref)
  }

  lemma TrailerInFile(file: seq<byte>, entry: BBTEntry)
    requires TrailerIn(file, entry).Some?
    ensures var trailer, at := TrailerIn(file, entry).value, TrailerPosition(entry);
      Field(file, at, 2) == Some(trailer.cb) && Field(file, at + 8, 8) == Some(trailer.bid)
  {
    hide FromLE, ComputeSig;
    AlignedSizeIsLeast(entry.cb, 0);
    var size, ib, at := AlignedSize(entry.cb).0, entry.bref.ib, TrailerPosition(entry);
    var last := file[ib..ib + size][size - 16..];
    assert last[0..2] == file[at..at + 2];
    assert last[8..16] == file[at + 8..at + 16];
  }

  lemma BlockHasTrailer(file: seq<byte>, entry: BBTEntry)
    requires OneBlock(file, entry).Some?
    ensures TrailerIn(file, entry) == Some(OneBlock(file, entry).value.trailer)
    ensures |OneBlock(file, entry).value.data| == OneBlock(file, entry).value.trailer.cb
  {
    hide TrailerAtEnd;
  }

  /** An accepted block has as many bytes as the index says exactly when its trailer in the file says so too. */
  lemma CountAgreesIff(file: seq<byte>, entry: BBTEntry)
    requires OneBlock(file, entry).Some?
    ensures |OneBlock(file, entry).value.data| == entry.cb <==> Field(file, TrailerPosition(entry), 2) == Some(entry.cb)
  {
    hide OneBlock, TrailerIn;
    BlockHasTrailer(file, entry);
    TrailerInFile(file, entry);
  }

  /** And it carries the identifier that it is listed under exactly when its trailer in the file does. */
  lemma IdentifierAgreesIff(file: seq<byte>, entry: BBTEntry)
    requires OneBlock(file, entry).Some?
    ensures OneBlock(file, entry).value.trailer.bid == entry.bref.bid
            <==> Field(file, TrailerPosition(entry) + 8, 8) == Some(entry.bref.bid)
  {
    hide OneBlock, TrailerIn;
    BlockHasTrailer(file, entry);
    TrailerInFile(file, entry);
  }

  /** The same holds of the X blocks under an XX block. */
  lemma XBlockAgreesIff(file: seq<byte>, getBBT: GetBBT, bid: uint64)
    requires XBlockAt(file, getBBT, bid).Some?
    ensures var entry, trailer := getBBT(bid).value, XBlockAt(file, getBBT, bid).value.trailer;
      && (trailer.cb == entry.cb <==> Field(file, TrailerPosition(entry), 2) == Some(entry.cb))
      && (trailer.bid == entry.bref.bid <==> Field(file, TrailerPosition(entry) + 8, 8) == Some(entry.bref.bid))
  {
    hide TrailerAtEnd;
    TrailerInFile(file, getBBT(bid).value);
  }

  /** Of the first block of a tree both are checked. */
  lemma FirstBlockAgrees(file: seq<byte>, getBBT: GetBBT, bref: BREF, size: nat, dispatch: Dispatch)
    requires !IsInternal(bref.bid) && LoadedBlocks(file, getBBT, bref, size, dispatch).Some?
    ensures var blocks := LoadedBlocks(file, getBBT, bref, size, dispatch).value;
      |blocks| == 1 && |blocks[0].data| == size && blocks[0].trailer.bid == bref.bid
  {
    hide TrailerOf, Permuted, CrcOf;
    AcceptedBlock(RootBytes(file, bref, size).value, bref);
  }

  // ----- X and XX expansion

  /** The identifiers of the data blocks under the X blocks `bids`, in order. */
  function DataBids(file: seq<byte>, getBBT: GetBBT, bids: seq<uint64>): Option<seq<uint64>>
  {
    if bids == [] then Some([])
    else
      var before :- DataBids(file, getBBT, bids[..|bids| - 1]);
      var x :- XBlockAt(file, getBBT, bids[|bids| - 1]);
      Some(before + x.rgbid)
  }

  /** Expanding an XX block looks up, in order, the concatenated identifier lists of its X blocks, if all load. */
  lemma {:induction false} XXExpansionIsFlat(file: seq<byte>, getBBT: GetBBT, bids: seq<uint64>)
    ensures XXLookups(file, getBBT, bids)
            == var flat := DataBids(file, getBBT, bids); if flat.None? then None else Lookups(getBBT, flat.value)
  {
    hide XBlockAt;
    if bids == [] {
    } else {
      var n := |bids| - 1;
      XXExpansionIsFlat(file, getBBT, bids[..n]);
      var before, x := DataBids(file, getBBT, bids[..n]), XBlockAt(file, getBBT, bids[n]);
      if before.Some? && x.Some? {
        LookupsConcat(getBBT, before.value, x.value.rgbid);
      }
    }
  }

  // ----- which root is taken for an XX block

  /** The root block has the level that the format gives to XX blocks. */
  predicate RootIsXX(file: seq<byte>, bref: BREF, sizeOfBlockData: nat)
  {
    var bytes := RootBytes(file, bref, sizeOfBlockData);
    IsInternal(bref.bid) && bytes.Some? && bytes.value[1] == 2
  }

  /**
   * Deciding by `btype`, as the source does, agrees with deciding by `cLevel` on every file, except that no XX block is
   * ever loaded: its `btype` is 1, so it is taken for an X block, whose level check then refuses it.
   */
  lemma DispatchAgreesExceptXX(file: seq<byte>, getBBT: GetBBT, bref: BREF, size: nat)
    ensures LoadedBlocks(file, getBBT, bref, size, AsWritten)
            == if RootIsXX(file, bref, size) then None else LoadedBlocks(file, getBBT, bref, size, ByLevel)
  {
    var root := RootBytes(file, bref, size);
    if root.Some? && IsInternal(bref.bid) {
      var bytes := root.value;
      FirstBytes(bytes);
      if bytes[0] == 1 && bytes[1] != 1 {
        assert XBlockOf(bytes, bref, 1).None?;
      }
      if bytes[0] != 1 {
        assert XBlockOf(bytes, bref, 1).None? && XBlockOf(bytes, bref, 2).None?;
      }
    }
  }

  lemma FirstBytes(bytes: seq<byte>)
    requires |bytes| >= 2
    ensures Field(bytes, 0, 1) == Some(bytes[0]) && Field(bytes, 1, 1) == Some(bytes[1])
  {
    FromLEUnfold(bytes[0..1]);
    FromLEUnfold(bytes[1..2]);
  }

  // ----- whole runs

  /** What a client may do with a tree. */
  datatype Operation = Load | Begin | CombineDataBlocks | NDataBlocks | At(idx: nat)
                     | SizeOfDataBlockData(dataBlockIdx: nat)

  datatype Observation = Refused | Loaded | Blocks(blocks: seq<DataBlock>) | Bytes(bytes: seq<byte>) | Count(n: nat)
                       | Block(block: DataBlock)

  predicate Loads(op: Operation) {
    op == Load || op == Begin
  }

  /** What an operation shows, when the tree holds `contents` (if it can be loaded) and has or has not been loaded. */
  function Expected(op: Operation, contents: Option<seq<DataBlock>>, setUp: bool): Observation
  {
    if contents.None? || !(setUp || Loads(op)) then Refused
    else
      match op
      case Load => Loaded
      case Begin => Blocks(contents.value)
      case CombineDataBlocks => Bytes(Combined(contents.value))
      case NDataBlocks => Count(|contents.value|)
      case At(idx) => if idx < |contents.value| then Block(contents.value[idx]) else Refused
      case SizeOfDataBlockData(idx) => if idx < |contents.value| then Count(|contents.value[idx].data|) else Refused
  }

  /** Some operation of a run loads the tree. */
  predicate LoadSeen(ops: seq<Operation>)
  {
    ops != [] && (LoadSeen(ops[..|ops| - 1]) || Loads(ops[|ops| - 1]))
  }

  lemma UnloadableRefuses(op: Operation, contents: Option<seq<DataBlock>>)
    ensures contents.None? ==> Expected(op, contents, true) == Expected(op, contents, false) == Refused
  {
  }

  method Perform(tree: DataTree, op: Operation) returns (seen: Observation)
    requires tree.Valid()
    modifies tree
    ensures tree.Valid()
    ensures seen == Expected(op, tree.Contents(), old(tree.dataBlocksAreSetup))
    ensures tree.dataBlocksAreSetup == (old(tree.dataBlocksAreSetup) || (Loads(op) && tree.Contents().Some?))
  {
    match op
    case Load =>
      var ok := tree.Load();
      seen := if ok then Loaded else Refused;
    case Begin =>
      var blocks := tree.Begin();
      seen := if blocks.Some? then Blocks(blocks.value) else Refused;
    case CombineDataBlocks =>
      var bytes := tree.CombineDataBlocks();
      seen := if bytes.Some? then Bytes(bytes.value) else Refused;
    case NDataBlocks =>
      var n := tree.NDataBlocks();
      seen := if n.Some? then Count(n.value) else Refused;
    case At(idx) =>
      var block := tree.At(idx);
      seen := if block.Some? then Block(block.value) else Refused;
    case SizeOfDataBlockData(idx) =>
      var n := tree.SizeOfDataBlockData(idx);
      seen := if n.Some? then Count(n.value) else Refused;
  }

  /**
   * Over every sequence of operations, from a tree in any reachable state: each operation shows what the contents say,
   * from the first load on, and the same each time; a tree that cannot be loaded refuses everything for ever.
   */
  method Run(tree: DataTree, ops: seq<Operation>) returns (seen: seq<Observation>)
    requires tree.Valid()
    modifies tree
    ensures tree.Valid() && |seen| == |ops|
    ensures forall i :: 0 <= i < |ops| ==>
              seen[i] == Expected(ops[i], tree.Contents(), old(tree.dataBlocksAreSetup) || LoadSeen(ops[..i]))
  {
    hide Expected, LoadedBlocks;
    seen := [];
    for i := 0 to |ops|
      invariant tree.Valid() && |seen| == i
      invariant tree.Contents().Some? ==>
                  tree.dataBlocksAreSetup == (old(tree.dataBlocksAreSetup) || LoadSeen(ops[..i]))
      invariant forall k :: 0 <= k < i ==>
                  seen[k] == Expected(ops[k], tree.Contents(), old(tree.dataBlocksAreSetup) || LoadSeen(ops[..k]))
    {
      UnloadableRefuses(ops[i], tree.Contents());
      var s := Perform(tree, ops[i]);
      seen := seen + [s];
      assert ops[..i + 1][..i] == ops[..i];
    }
  }
}
