/**
 * What the loader takes from which bytes of a file, in absolute offsets and literal codes: pages, entries, blocks and
 * trees, without reference to any writer.
 */
module OnDisk {
  import opened Blocks
  import opened BTPages
  import opened BTSearch
  import opened Bytes
  import opened Cipher
  import opened CryptTables
  import opened DataTrees
  import opened DataTreeTheory
  import opened Ids
  import opened Ndb
  import opened PageLayout
  import opened SubNodes
  import opened Views

  // ----- page trailers

  /** A page trailer is accepted exactly with a known type, twice, and for tree pages the signature of its place. */
  lemma PageTrailerOnDisk(bytes: seq<byte>, bref: BREF)
    requires |bytes| == 16
    ensures PageTrailerOf(bytes, bref).Some?
            <==> && 0x80 <= bytes[0] <= 0x86 && bytes[1] == bytes[0]
                 && (bytes[0] == 0x80 || bytes[0] == 0x81 ==> U16At(bytes, 2) == ComputeSig(bref.ib, bref.bid))
    ensures PageTrailerOf(bytes, bref).Some? ==>
              PageTrailerOf(bytes, bref).value
              == PageTrailer(bytes[0], U16At(bytes, 2), U32At(bytes, 4), U64At(bytes, 8))
  {
    hide FromLE, ComputeSig;
    OneByteField(bytes, 0);
    OneByteField(bytes, 1);
  }

  // ----- pages and their entries

  /** Where entry `i` of a page begins in the file. */
  function EntryPosition(bref: BREF, page: BTPage, i: nat): nat
  {
    bref.ib + i * page.singleEntrySize as nat
  }

  /** A page is 512 bytes: entries from 0, counts, size and level from 488, type at 496. */
  lemma PageOnDisk(file: seq<byte>, bref: BREF, parentCLevel: int)
    requires PageAt(file, bref, parentCLevel).Some?
    ensures bref.ib + 512 <= |file|
    ensures var page, at := PageAt(file, bref, parentCLevel).value, bref.ib;
      && page.nEntries == file[at + 488] && page.maxNEntries == file[at + 489]
      && page.singleEntrySize == file[at + 490] && page.cLevel == file[at + 491]
      && page.trailer.ptype == file[at + 496] && (file[at + 496] == 0x80 || file[at + 496] == 0x81)
      && |page.rgentries| == page.nEntries
  {
    hide FromLE, ComputeSig, PageTrailerOf, Chunks, EntriesOf;
    var at := bref.ib;
    var bytes := file[at..at + 512];
    assert bytes[PAGE_SIZE - 16..][0] == file[at + 496];
    PageTrailerOnDisk(bytes[PAGE_SIZE - 16..], bref);
    OneByteField(bytes, 488);
    OneByteField(bytes, 489);
    OneByteField(bytes, 490);
    OneByteField(bytes, 491);
  }

  /** Entry `i` of a page holds the bytes at its place in the file, zero-filled to 32. */
  lemma EntryOnDisk(file: seq<byte>, bref: BREF, parentCLevel: int, i: nat)
    requires PageAt(file, bref, parentCLevel).Some? && i < |PageAt(file, bref, parentCLevel).value.rgentries|
    ensures var page := PageAt(file, bref, parentCLevel).value;
      var at, size := EntryPosition(bref, page, i), page.singleEntrySize;
      && size <= 32 && at + size <= |file|
      && page.rgentries[i].data == file[at..at + size] + Zeros(32 - size)
  {
    hide PageAt, FromLE, Chunks, EntriesOf, EntryOf, Zeros;
    var page := PageAt(file, bref, parentCLevel).value;
    PageOnDisk(file, bref, parentCLevel);
    var raw := PieceOnDisk(file, bref, parentCLevel, i);
    EntriesAre(raw, i);
    EntryHolds(raw[i]);
  }

  /** The pieces that the entries of a page are made from. */
  lemma PieceOnDisk(file: seq<byte>, bref: BREF, parentCLevel: int, i: nat) returns (raw: seq<seq<byte>>)
    requires PageAt(file, bref, parentCLevel).Some? && i < |PageAt(file, bref, parentCLevel).value.rgentries|
    ensures var page := PageAt(file, bref, parentCLevel).value;
      var at, size := EntryPosition(bref, page, i), page.singleEntrySize;
      && EntriesOf(raw) == Some(page.rgentries) && i < |raw|
      && at + size <= |file| && raw[i] == file[at..at + size]
  {
    hide PageAt, ParsedPage, FromLE, Chunks, EntriesOf, Zeros;
    var trailer := PageIsParsed(file, bref, parentCLevel);
    var page := PageAt(file, bref, parentCLevel).value;
    var bytes := file[bref.ib..bref.ib + 512];
    var size, n := page.singleEntrySize as nat, page.nEntries as nat;
    ParsedEntries(bytes, trailer, parentCLevel);
    raw := Chunks(bytes, 0, n, size).value;
    PieceIn(file, bref.ib, n, size, i);
  }

  lemma PieceIn(file: seq<byte>, ib: nat, n: nat, size: nat, i: nat)
    requires ib + 512 <= |file| && i < n && Chunks(file[ib..ib + 512], 0, n, size).Some?
    ensures ib + i * size + size <= |file|
    ensures Chunks(file[ib..ib + 512], 0, n, size).value[i] == file[ib + i * size..ib + i * size + size]
  {
    hide Chunks;
    ChunkAt(file[ib..ib + 512], 0, n, size, i);
    InnerSlice(file, ib, 512, i * size, size);
  }

  lemma PageIsParsed(file: seq<byte>, bref: BREF, parentCLevel: int) returns (trailer: PageTrailer)
    requires PageAt(file, bref, parentCLevel).Some?
    ensures bref.ib + 512 <= |file|
    ensures ParsedPage(file[bref.ib..bref.ib + 512], trailer, parentCLevel) == PageAt(file, bref, parentCLevel)
  {
    hide ParsedPage, PageTrailerOf;
    trailer := PageTrailerOf(file[bref.ib..bref.ib + 512][PAGE_SIZE - 16..], bref).value;
  }

  lemma ParsedEntries(bytes: seq<byte>, trailer: PageTrailer, parentCLevel: int)
    requires |bytes| == PAGE_SIZE && ParsedPage(bytes, trailer, parentCLevel).Some?
    ensures var page := ParsedPage(bytes, trailer, parentCLevel).value;
      var raw := Chunks(bytes, 0, page.nEntries, page.singleEntrySize);
      raw.Some? && EntriesOf(raw.value) == Some(page.rgentries)
  {
    hide FromLE, Chunks, EntriesOf;
  }

  lemma {:induction false} EntriesAre(raw: seq<seq<byte>>, i: nat)
    requires EntriesOf(raw).Some? && i < |raw|
    ensures EntryOf(raw[i]) == Some(EntriesOf(raw).value[i])
  {
    hide EntryOf;
    var n := |raw| - 1;
    if i == n {
    } else {
      EntriesAre(raw[..n], i);
    }
  }

  lemma EntryHolds(c: seq<byte>)
    requires EntryOf(c).Some?
    ensures |c| <= 32 && EntryOf(c).value.data == c + Zeros(32 - |c|)
  {
  }

  lemma InnerSlice(s: seq<byte>, start: nat, size: nat, from: nat, count: nat)
    requires start + size <= |s| && Slice(s[start..start + size], from, count).Some?
    ensures Slice(s[start..start + size], from, count) == Some(s[start + from..start + from + count])
  {
    SliceOfSlice(s, start, size, from, count);
  }

  /** Fields of an entry that lie within the bytes that the page gives it are fields of the file. */
  lemma EntryField(file: seq<byte>, bref: BREF, parentCLevel: int, i: nat, from: nat, width: nat)
    requires PageAt(file, bref, parentCLevel).Some? && i < |PageAt(file, bref, parentCLevel).value.rgentries|
    requires from + width <= PageAt(file, bref, parentCLevel).value.singleEntrySize
    ensures var page := PageAt(file, bref, parentCLevel).value;
      var at := EntryPosition(bref, page, i);
      && at + from + width <= |file|
      && Field(page.rgentries[i].data, from, width) == Field(file, at + from, width)
  {
    hide PageAt, FromLE, Zeros;
    var page := PageAt(file, bref, parentCLevel).value;
    var at, size := EntryPosition(bref, page, i), page.singleEntrySize as nat;
    EntryOnDisk(file, bref, parentCLevel, i);
    var data := page.rgentries[i].data;
    assert data[from..from + width] == file[at..at + size][from..from + width];
    FieldInSlice(file, at, size, from, width);
  }

  /** An inner entry: key, then identifier and offset of the page below. */
  lemma BTEntryOnDisk(file: seq<byte>, bref: BREF, parentCLevel: int, i: nat)
    requires PageAt(file, bref, parentCLevel).Some? && i < |PageAt(file, bref, parentCLevel).value.rgentries|
    requires PageAt(file, bref, parentCLevel).value.singleEntrySize >= 24
    ensures var page := PageAt(file, bref, parentCLevel).value;
      var e, at := page.rgentries[i], EntryPosition(bref, page, i);
      && at + 24 <= |file|
      && e.btkey == U64At(file, at)
      && ChildOf(e) == BREF(U64At(file, at + 8), U64At(file, at + 16))
  {
    hide PageAt, FromLE, Field;
    EntryField(file, bref, parentCLevel, i, 0, 8);
    EntryField(file, bref, parentCLevel, i, 8, 8);
    EntryField(file, bref, parentCLevel, i, 16, 8);
    var e := PageAt(file, bref, parentCLevel).value.rgentries[i];
    CachedKeys(e);
  }

  /** A leaf entry of the block tree: identifier, offset, byte count, reference count. */
  lemma BBTEntryOnDisk(file: seq<byte>, bref: BREF, parentCLevel: int, i: nat)
    requires PageAt(file, bref, parentCLevel).Some? && i < |PageAt(file, bref, parentCLevel).value.rgentries|
    requires PageAt(file, bref, parentCLevel).value.singleEntrySize >= 24
    ensures var page := PageAt(file, bref, parentCLevel).value;
      var e, at := page.rgentries[i], EntryPosition(bref, page, i);
      && at + 24 <= |file| && KeyOf(BlockIndex, e) == U64At(file, at)
      && AsBBTEntry(e) == BBTEntry(BREF(U64At(file, at), U64At(file, at + 8)), U16At(file, at + 16),
                                   U16At(file, at + 18), U32At(file, at + 20))
  {
    hide PageAt, FromLE, Field;
    EntryField(file, bref, parentCLevel, i, 0, 8);
    EntryField(file, bref, parentCLevel, i, 8, 8);
    EntryField(file, bref, parentCLevel, i, 16, 2);
    EntryField(file, bref, parentCLevel, i, 18, 2);
    EntryField(file, bref, parentCLevel, i, 20, 4);
    CachedKeys(PageAt(file, bref, parentCLevel).value.rgentries[i]);
  }

  /** A leaf entry of the node tree: identifier in the low half of eight bytes, data, subnodes, parent. */
  lemma NBTEntryOnDisk(file: seq<byte>, bref: BREF, parentCLevel: int, i: nat)
    requires PageAt(file, bref, parentCLevel).Some? && i < |PageAt(file, bref, parentCLevel).value.rgentries|
    requires PageAt(file, bref, parentCLevel).value.singleEntrySize == 32
    ensures var page := PageAt(file, bref, parentCLevel).value;
      var e, at := page.rgentries[i], EntryPosition(bref, page, i);
      && at + 32 <= |file| && KeyOf(NodeIndex, e) == U32At(file, at)
      && AsNBTEntry(e) == NBTEntry(U32At(file, at), U32At(file, at + 24), U64At(file, at + 8), U64At(file, at + 16),
                                   U32At(file, at + 28))
  {
    hide PageAt, FromLE, Field;
    EntryField(file, bref, parentCLevel, i, 0, 8);
    EntryField(file, bref, parentCLevel, i, 8, 8);
    EntryField(file, bref, parentCLevel, i, 16, 8);
    EntryField(file, bref, parentCLevel, i, 24, 4);
    EntryField(file, bref, parentCLevel, i, 28, 4);
    var page := PageAt(file, bref, parentCLevel).value;
    LowField(file, EntryPosition(bref, page, i));
    CachedKeys(page.rgentries[i]);
  }

  /** The low half of an eight-byte field is the four-byte field at the same place. */
  lemma LowField(s: seq<byte>, at: nat)
    requires at + 8 <= |s|
    ensures AsNid(U64At(s, at)) == U32At(s, at)
  {
    hide FromLE;
    var bytes := s[at..at + 8];
    FromLE8(bytes);
    FromLEBound(bytes[..4]);
    Pow256Values();
    assert bytes[..4] == s[at..at + 4];
  }

  // ----- what kind of leaf a page is, and searching it

  /** A leaf holds nodes exactly when the type byte in the file is 0x81. */
  lemma LeafKind(file: seq<byte>, bref: BREF, parentCLevel: int)
    requires PageAt(file, bref, parentCLevel).Some? && PageAt(file, bref, parentCLevel).value.cLevel == 0
    ensures bref.ib + 512 <= |file|
    ensures var page := PageAt(file, bref, parentCLevel).value;
      && (EntryTypeOf(page) == NBT_ENTRY <==> file[bref.ib + 496] == 0x81)
      && (EntryTypeOf(page) == BBT_ENTRY <==> file[bref.ib + 496] == 0x80)
  {
    hide PageAt;
    PageOnDisk(file, bref, parentCLevel);
  }

  /** So searching a node scans a leaf with type 0x81 and finds nothing in one with 0x80; for a block, the reverse. */
  lemma LeafSearch(file: seq<byte>, bref: BREF, id: nat)
    requires PageAt(file, bref, -1).Some? && PageAt(file, bref, -1).value.cLevel == 0
    ensures LoadedPage(file, bref, -1) == PageAt(file, bref, -1) && bref.ib + 512 <= |file|
    ensures var page := LoadedPage(file, bref, -1).value;
      && Get(NodeIndex, page, id)
         == (if file[bref.ib + 496] == 0x81 then FirstWithKey(NodeIndex, page.rgentries, id) else None)
      && Get(BlockIndex, page, id)
         == (if file[bref.ib + 496] == 0x80 then FirstWithKey(BlockIndex, page.rgentries, id) else None)
  {
    hide PageAt, FirstWithKey;
    PageOnDisk(file, bref, -1);
    LeafKind(file, bref, -1);
  }

  /** The sub-page of entry `i` is the page that the identifier and offset in the file lead to. */
  lemma SubPageOnDisk(file: seq<byte>, bref: BREF, parentCLevel: int, i: nat)
    requires parentCLevel >= -1 && LoadedPage(file, bref, parentCLevel).Some?
    requires var page := LoadedPage(file, bref, parentCLevel).value;
      page.cLevel > 0 && page.singleEntrySize >= 24 && i < |page.rgentries|
    ensures var page := LoadedPage(file, bref, parentCLevel).value;
      var at := EntryPosition(bref, page, i);
      && at + 24 <= |file| && i < |page.subPages|
      && LoadedPage(file, BREF(U64At(file, at + 8), U64At(file, at + 16)), page.cLevel) == Some(page.subPages[i])
  {
    hide PageAt, ChildOf, LoadedPage, LoadedSubPages, U64At;
    LoadedFromPage(file, bref, parentCLevel);
    BTEntryOnDisk(file, bref, parentCLevel, i);
    var page := PageAt(file, bref, parentCLevel).value;
    SubPagesAre(file, page.rgentries, page.cLevel, i);
  }

  /** A loaded page is the page at its place, with its sub-pages filled in. */
  lemma LoadedFromPage(file: seq<byte>, bref: BREF, parentCLevel: int)
    requires parentCLevel >= -1 && LoadedPage(file, bref, parentCLevel).Some?
    ensures PageAt(file, bref, parentCLevel).Some?
    ensures var page, loaded := PageAt(file, bref, parentCLevel).value, LoadedPage(file, bref, parentCLevel).value;
      && loaded == page.(subPages := loaded.subPages)
      && (page.cLevel > 0 ==> LoadedSubPages(file, page.rgentries, page.cLevel) == Some(loaded.subPages))
  {
    hide PageAt, LoadedSubPages;
  }

  lemma {:induction false} SubPagesAre(file: seq<byte>, rgentries: seq<Entry>, cLevel: byte, i: nat)
    requires cLevel > 0 && LoadedSubPages(file, rgentries, cLevel).Some? && i < |rgentries|
    ensures LoadedPage(file, ChildOf(rgentries[i]), cLevel) == Some(LoadedSubPages(file, rgentries, cLevel).value[i])
  {
    hide LoadedPage, ChildOf;
    var n := |rgentries| - 1;
    if i == n {
    } else {
      SubPagesAre(file, rgentries[..n], cLevel, i);
    }
  }

  // ----- data trees

  /** The data of a block is what the first table encodes to the bytes at the offset of its entry. */
  lemma BlockOnDisk(file: seq<byte>, entry: BBTEntry)
    requires OneBlock(file, entry).Some?
    ensures var data, at := OneBlock(file, entry).value.data, entry.bref.ib;
      && at + |data| <= |file| && Field(file, TrailerPosition(entry), 2) == Some(|data|)
      && forall k :: 0 <= k < |data| ==> MpbbR(data[k]) == file[at + k]
  {
    hide DataBlockOf, TrailerAtEnd, MpbbR, FromLE;
    var size := CheckedSize(entry.cb).value;
    var bytes := ReadBytes(file, entry.bref.ib, size.0).value;
    DataOnDisk(bytes, entry.bref);
    BlockHasTrailer(file, entry);
    TrailerInFile(file, entry);
  }

  /** The first block passes exactly with the signature, identifier and size in its trailer; 8176 bytes are the most. */
  lemma RootOnDisk(file: seq<byte>, bref: BREF, size: nat)
    ensures RootBytes(file, bref, size).Some?
            <==> && size <= 8176
                 && var end := bref.ib + AlignedSize(size).0;
                    && end <= |file| && U16At(file, end - 14) == ComputeSig(bref.ib, bref.bid)
                    && U16At(file, end - 16) == size && U64At(file, end - 8) == bref.bid
    ensures RootBytes(file, bref, size).Some? ==>
              RootBytes(file, bref, size).value == file[bref.ib..bref.ib + AlignedSize(size).0]
  {
    hide TrailerAtEnd, FromLE, ComputeSig;
    CheckedSizeExact(size);
    AlignedSizeIsLeast(size, 0);
    var ib, n := bref.ib, AlignedSize(size).0;
    if size <= 8176 && ib + n <= |file| {
      var bytes := file[ib..ib + n];
      TrailerOnDisk(bytes, bref);
      FieldInSlice(file, ib, n, n - 16, 2);
      FieldInSlice(file, ib, n, n - 14, 2);
      FieldInSlice(file, ib, n, n - 8, 8);
    }
  }

  lemma {:induction false} LookupsInOrder(getBBT: GetBBT, bids: seq<uint64>, i: nat)
    requires Lookups(getBBT, bids).Some? && i < |bids|
    ensures getBBT(bids[i]) == Some(Lookups(getBBT, bids).value[i])
  {
    var n := |bids| - 1;
    if i == n {
    } else {
      LookupsInOrder(getBBT, bids[..n], i);
    }
  }

  /**
   * A tree whose root is an X block has as many blocks as the root counts, block `i` being the one whose identifier is
   * at position `i` of the root's list, read from where the block index says.
   */
  lemma XTreeOnDisk(file: seq<byte>, getBBT: GetBBT, bref: BREF, size: nat, dispatch: Dispatch, i: nat)
    requires LoadedBlocks(file, getBBT, bref, size, dispatch).Some? && bref.bid % 4 >= 2
    requires bref.ib + 8 <= |file| && file[bref.ib + 1] == 1 && i < U16At(file, bref.ib + 2)
    ensures var blocks := LoadedBlocks(file, getBBT, bref, size, dispatch).value;
      && |blocks| == U16At(file, bref.ib + 2) && bref.ib + 16 + 8 * i <= |file|
      && var entry := getBBT(U64At(file, bref.ib + 8 + 8 * i));
         entry.Some? && OneBlock(file, entry.value) == Some(blocks[i])
  {
    hide LoadedBlocks, XBlockOf, OneBlock, AllBlocks, Lookups, FromLE, RootBytes, ComputeSig;
    RootOnDisk(file, bref, size);
    LoadedHasRoot(file, getBBT, bref, size, dispatch);
    var bytes := RootBytes(file, bref, size).value;
    LoadedFromX(file, getBBT, bref, size, dispatch, bytes);
    var x := XBlockOf(bytes, bref, 1).value;
    XBlockOnDisk(bytes, bref, 1);
    FieldInSlice(file, bref.ib, |bytes|, 2, 2);
    FieldInSlice(file, bref.ib, |bytes|, 8 + 8 * i, 8);
    LookupsInOrder(getBBT, x.rgbid, i);
    BlocksInOrder(file, Lookups(getBBT, x.rgbid).value, i);
  }

  lemma LoadedHasRoot(file: seq<byte>, getBBT: GetBBT, bref: BREF, size: nat, dispatch: Dispatch)
    requires LoadedBlocks(file, getBBT, bref, size, dispatch).Some?
    ensures RootBytes(file, bref, size).Some?
  {
    hide RootBytes, Expanded, DataBlockOf, AllBlocks;
  }

  /** A root with level byte 1 that loads was an X block, and the blocks are those of its identifiers. */
  lemma LoadedFromX(file: seq<byte>, getBBT: GetBBT, bref: BREF, size: nat, dispatch: Dispatch, bytes: seq<byte>)
    requires LoadedBlocks(file, getBBT, bref, size, dispatch).Some? && bref.bid % 4 >= 2
    requires RootBytes(file, bref, size) == Some(bytes) && |bytes| >= 16 && bytes[1] == 1
    ensures var x := XBlockOf(bytes, bref, 1);
      && x.Some? && Lookups(getBBT, x.value.rgbid).Some?
      && AllBlocks(file, Lookups(getBBT, x.value.rgbid).value) == LoadedBlocks(file, getBBT, bref, size, dispatch)
  {
    hide XBlockOf, OneBlock, AllBlocks, Lookups, FromLE, XXLookups, RootBytes, ComputeSig, DataBlockOf;
    InternalBit(bref.bid);
    LevelOneRoot(bytes, bref);
  }

  lemma LevelOneRoot(bytes: seq<byte>, bref: BREF)
    requires |bytes| >= 16 && bytes[1] == 1
    ensures XBlockOf(bytes, bref, 2).None?
  {
    hide TrailerAtEnd, FromLE;
    XBlockAcceptedIff(bytes, bref, 2);
  }

  lemma {:induction false} LookupsIff(getBBT: GetBBT, bids: seq<uint64>)
    ensures Lookups(getBBT, bids).Some? <==> forall i :: 0 <= i < |bids| ==> getBBT(bids[i]).Some?
  {
    if bids == [] {
    } else {
      LookupsIff(getBBT, bids[..|bids| - 1]);
    }
  }

  lemma {:induction false} AllBlocksIff(file: seq<byte>, entries: seq<BBTEntry>)
    ensures AllBlocks(file, entries).Some? <==> forall i :: 0 <= i < |entries| ==> OneBlock(file, entries[i]).Some?
  {
    hide OneBlock;
    if entries == [] {
    } else {
      AllBlocksIff(file, entries[..|entries| - 1]);
    }
  }

  /** A block loads exactly when it has at most 8176 bytes by the index, lies in the file and is accepted there. */
  lemma BlockLoadsIff(file: seq<byte>, entry: BBTEntry)
    ensures OneBlock(file, entry).Some?
            <==> && entry.cb <= 8176 && entry.bref.ib + AlignedSize(entry.cb).0 <= |file|
                 && DataBlockOf(file[entry.bref.ib..entry.bref.ib + AlignedSize(entry.cb).0], entry.bref).Some?
  {
    hide DataBlockOf;
    CheckedSizeExact(entry.cb);
  }

  /** A tree with an external root is that one block, and loads exactly when the root passes and is accepted. */
  lemma DataRootLoads(file: seq<byte>, getBBT: GetBBT, bref: BREF, size: nat, dispatch: Dispatch)
    requires bref.bid % 4 < 2
    ensures LoadedBlocks(file, getBBT, bref, size, dispatch).Some?
            <==> && RootBytes(file, bref, size).Some?
                 && DataBlockOf(RootBytes(file, bref, size).value, bref).Some?
    ensures LoadedBlocks(file, getBBT, bref, size, dispatch).Some? ==>
              LoadedBlocks(file, getBBT, bref, size, dispatch).value
              == [DataBlockOf(RootBytes(file, bref, size).value, bref).value]
  {
    hide RootBytes, DataBlockOf, Expanded;
    InternalBit(bref.bid);
  }

  /**
   * A tree whose root has level byte 1 loads exactly when the root passes, has type byte 1 and room for its count of
   * identifiers, the index resolves all of these, and every block loads. An empty list is no failure.
   */
  lemma XTreeLoadsIff(file: seq<byte>, getBBT: GetBBT, bref: BREF, size: nat, dispatch: Dispatch, bytes: seq<byte>)
    requires bref.bid % 4 >= 2 && RootBytes(file, bref, size) == Some(bytes) && |bytes| >= 16 && bytes[1] == 1
    ensures LoadedBlocks(file, getBBT, bref, size, dispatch).Some?
            <==> && bytes[0] == 1 && 8 + 8 * U16At(bytes, 2) <= |bytes|
                 && forall i: nat :: i < U16At(bytes, 2) ==> ResolvedBlock(file, getBBT, bytes, i)
  {
    hide LoadedBlocks, RootBytes, XBlockOf, Lookups, AllBlocks, OneBlock, FromLE, ComputeSig, ResolvedBlock;
    XBlockAcceptedIff(bytes, bref, 1);
    RootSigned(file, bref, size, bytes);
    XRootLoads(file, getBBT, bref, size, dispatch, bytes);
    if XBlockOf(bytes, bref, 1).Some? {
      XBlockOnDisk(bytes, bref, 1);
      ListLoadsIff(file, getBBT, bytes, XBlockOf(bytes, bref, 1).value.rgbid);
    }
  }

  /** The identifier at position `i` of an X block leads to a block that loads. */
  predicate ResolvedBlock(file: seq<byte>, getBBT: GetBBT, bytes: seq<byte>, i: nat)
  {
    && 16 + 8 * i <= |bytes|
    && var entry := getBBT(U64At(bytes, 8 + 8 * i)); entry.Some? && OneBlock(file, entry.value).Some?
  }

  lemma RootSigned(file: seq<byte>, bref: BREF, size: nat, bytes: seq<byte>)
    requires RootBytes(file, bref, size) == Some(bytes) && |bytes| >= 16
    ensures U16At(bytes, |bytes| - 14) == ComputeSig(bref.ib, bref.bid)
  {
    hide TrailerAtEnd, ComputeSig, FromLE;
    TrailerOnDisk(bytes, bref);
  }

  lemma XRootLoads(file: seq<byte>, getBBT: GetBBT, bref: BREF, size: nat, dispatch: Dispatch, bytes: seq<byte>)
    requires bref.bid % 4 >= 2 && RootBytes(file, bref, size) == Some(bytes) && |bytes| >= 16 && bytes[1] == 1
    ensures LoadedBlocks(file, getBBT, bref, size, dispatch)
            == (var x := XBlockOf(bytes, bref, 1);
                if x.None? || Lookups(getBBT, x.value.rgbid).None? then None
                else AllBlocks(file, Lookups(getBBT, x.value.rgbid).value))
  {
    hide RootBytes, XBlockOf, Lookups, AllBlocks, XXLookups, DataBlockOf, FromLE, ComputeSig;
    InternalBit(bref.bid);
    LevelOneRoot(bytes, bref);
    XBlockAcceptedIff(bytes, bref, 1);
  }

  lemma ListLoadsIff(file: seq<byte>, getBBT: GetBBT, bytes: seq<byte>, bids: seq<uint64>)
    requires 8 + 8 * |bids| <= |bytes| && forall i :: 0 <= i < |bids| ==> bids[i] == U64At(bytes, 8 + 8 * i)
    ensures Lookups(getBBT, bids).Some? && AllBlocks(file, Lookups(getBBT, bids).value).Some?
            <==> forall i: nat :: i < |bids| ==> ResolvedBlock(file, getBBT, bytes, i)
  {
    hide Lookups, AllBlocks, OneBlock, U64At;
    LookupsIff(getBBT, bids);
    if Lookups(getBBT, bids).Some? {
      var entries := Lookups(getBBT, bids).value;
      AllBlocksIff(file, entries);
      forall i | 0 <= i < |bids|
        ensures getBBT(bids[i]) == Some(entries[i])
      {
        LookupsInOrder(getBBT, bids, i);
      }
      forall i: nat | i < |bids|
        ensures ResolvedBlock(file, getBBT, bytes, i) <==> OneBlock(file, entries[i]).Some?
      {
        assert bids[i] == U64At(bytes, 8 + 8 * i);
      }
    } else {
      var i :| 0 <= i < |bids| && getBBT(bids[i]).None?;
      assert !ResolvedBlock(file, getBBT, bytes, i);
    }
  }

  /** By level, a root with level byte 2 gives the blocks of the concatenated lists of its X blocks, if all load. */
  lemma XXTreeOnDisk(file: seq<byte>, getBBT: GetBBT, bref: BREF, size: nat, bytes: seq<byte>)
    requires bref.bid % 4 >= 2 && RootBytes(file, bref, size) == Some(bytes) && |bytes| >= 16 && bytes[1] == 2
    requires bytes[0] == 1 && 8 + 8 * U16At(bytes, 2) <= |bytes|
    ensures XBlockOf(bytes, bref, 2).Some?
    ensures LoadedBlocks(file, getBBT, bref, size, ByLevel)
            == (var flat := DataBids(file, getBBT, XBlockOf(bytes, bref, 2).value.rgbid);
                if flat.None? || Lookups(getBBT, flat.value).None? then None
                else AllBlocks(file, Lookups(getBBT, flat.value).value))
  {
    hide RootBytes, XBlockOf, Lookups, AllBlocks, XXLookups, DataBlockOf, FromLE, ComputeSig, DataBids;
    InternalBit(bref.bid);
    RootSigned(file, bref, size, bytes);
    XBlockAcceptedIff(bytes, bref, 2);
    XXExpansionIsFlat(file, getBBT, XBlockOf(bytes, bref, 2).value.rgbid);
  }

  // ----- pages, and opening

  lemma {:induction false} SubPagesIff(file: seq<byte>, rgentries: seq<Entry>, cLevel: byte)
    requires cLevel > 0
    ensures LoadedSubPages(file, rgentries, cLevel).Some?
            <==> forall i :: 0 <= i < |rgentries| ==> LoadedPage(file, ChildOf(rgentries[i]), cLevel).Some?
  {
    hide LoadedPage, ChildOf;
    if rgentries == [] {
    } else {
      SubPagesIff(file, rgentries[..|rgentries| - 1], cLevel);
    }
  }

  /** A page loads exactly when it is accepted itself and is a leaf, or every page below it loads. */
  lemma LoadedPageIff(file: seq<byte>, bref: BREF, parentCLevel: int)
    requires parentCLevel >= -1
    ensures LoadedPage(file, bref, parentCLevel).Some?
            <==> && PageAt(file, bref, parentCLevel).Some?
                 && var page := PageAt(file, bref, parentCLevel).value;
                    page.cLevel == 0
                    || forall i :: 0 <= i < |page.rgentries| ==>
                                     LoadedPage(file, ChildOf(page.rgentries[i]), page.cLevel).Some?
  {
    hide PageAt, ChildOf, LoadedSubPages;
    var page := PageAt(file, bref, parentCLevel);
    if page.Some? && page.value.cLevel > 0 {
      SubPagesIff(file, page.value.rgentries, page.value.cLevel);
    }
  }

  /** A file opens exactly when both trees load and nodes 0x21, 0x61 and 0x122 are found in the first. */
  lemma OpensIff(file: seq<byte>, nodeBTreeRootPage: BREF, blockBTreeRootPage: BREF)
    ensures Opened(file, nodeBTreeRootPage, blockBTreeRootPage).Some?
            <==> && LoadedPage(file, nodeBTreeRootPage, -1).Some? && LoadedPage(file, blockBTreeRootPage, -1).Some?
                 && var rootNBT := LoadedPage(file, nodeBTreeRootPage, -1).value;
                    && Get(NodeIndex, rootNBT, 0x21).Some? && Get(NodeIndex, rootNBT, 0x61).Some?
                    && Get(NodeIndex, rootNBT, 0x122).Some?
  {
    hide LoadedPage, Get;
  }

  // ----- subnodes

  /** An accepted SL block gives, from 8 on, entries of 24 bytes: identifier (low half of eight), data, subnodes. */
  lemma SLBlockOnDisk(bytes: seq<byte>, bref: BREF, i: nat)
    requires SLBlockOf(bytes, bref).Some? && i < |SLBlockOf(bytes, bref).value|
    ensures var at := 8 + 24 * i;
      && at + 24 <= |bytes| && |SLBlockOf(bytes, bref).value| == U16At(bytes, 2)
      && SLBlockOf(bytes, bref).value[i] == SLEntry(U32At(bytes, at), U64At(bytes, at + 8), U64At(bytes, at + 16))
  {
    hide TrailerAtEnd, FromLE, Chunks;
    TrailerOnDisk(bytes, bref);
    ChunksExist(bytes, 8, U16At(bytes, 2), 24);
    ChunkAt(bytes, 8, U16At(bytes, 2), 24, i);
    var at := 8 + i * 24;
    FieldInSlice(bytes, at, 24, 0, 4);
    FieldInSlice(bytes, at, 24, 8, 8);
    FieldInSlice(bytes, at, 24, 16, 8);
  }

  /** The SL block of an identifier, on the file: which entry the index gives is where it is read. */
  lemma SLEntriesOnDisk(file: seq<byte>, getBBT: GetBBT, bid: uint64, i: nat)
    requires SLEntriesAt(file, getBBT, bid).Some? && i < |SLEntriesAt(file, getBBT, bid).value|
    ensures getBBT(bid).Some?
    ensures var at := getBBT(bid).value.bref.ib + 8 + 24 * i;
      && at + 24 <= |file|
      && SLEntriesAt(file, getBBT, bid).value[i] == SLEntry(U32At(file, at), U64At(file, at + 8), U64At(file, at + 16))
  {
    hide SLBlockOf, FromLE;
    var entry := getBBT(bid).value;
    var ib, n := entry.bref.ib, SubNodeBlockSize(entry.cb);
    var bytes := file[ib..ib + n];
    SLBlockOnDisk(bytes, entry.bref, i);
    FieldInSlice(file, ib, n, 8 + 24 * i, 4);
    FieldInSlice(file, ib, n, 8 + 24 * i + 8, 8);
    FieldInSlice(file, ib, n, 8 + 24 * i + 16, 8);
  }

  /** An SL block is read exactly when the index resolves it, it lies in the file and is accepted there. */
  lemma SLEntriesIff(file: seq<byte>, getBBT: GetBBT, bid: uint64)
    ensures SLEntriesAt(file, getBBT, bid).Some?
            <==> && getBBT(bid).Some?
                 && var bref, n := getBBT(bid).value.bref, AlignedSize(getBBT(bid).value.cb).0;
                    bref.ib + n <= |file| && SLBlockOf(file[bref.ib..bref.ib + n], bref).Some?
  {
    hide TrailerAtEnd, FromLE, SLBlockOf, ComputeSig;
    if getBBT(bid).Some? {
      var bref, n := getBBT(bid).value.bref, AlignedSize(getBBT(bid).value.cb).0;
      BlockSizesAgree(getBBT(bid).value.cb);
      AlignedSizeIsLeast(getBBT(bid).value.cb, 0);
      if bref.ib + n <= |file| {
        SLBlockAcceptedIff(file[bref.ib..bref.ib + n], bref);
      }
    }
  }
}
