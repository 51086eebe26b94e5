/**
 * `DataTree` (`include/NDB.h`): the blocks that hold the data of a node, loaded on first use. The specification reads
 * every block on its own, in order; the class follows the source, with its stored lists and its one-read fast path.
 */
module DataTrees {
  import opened Blocks
  import opened Bytes
  import opened Ids
  import opened Views

  datatype BBTEntry = BBTEntry(bref: BREF, cb: uint16, cRef: uint16, dwPadding: uint32)

  type GetBBT = uint64 -> Option<BBTEntry>

  /**
   * How the kind of an internal root block is decided. The source looks at `btype`, where 0x01 means X and 0x02 means
   * XX; sections 2.2.2.8.3.2.1 and 2.2.2.8.3.2.2 of [MS-PST] give both kinds the `btype` 0x01 and tell them apart by
   * `cLevel`.
   */
  datatype Dispatch = AsWritten | ByLevel

  // ----- specification: from block identifiers to blocks

  function OneBlock(file: seq<byte>, entry: BBTEntry): Option<DataBlock>
  {
    var size :- CheckedSize(entry.cb);
    var bytes :- ReadBytes(file, entry.bref.ib, size.0);
    DataBlockOf(bytes, entry.bref)
  }

  /** Every entry's block, each read from the offset of its own entry. */
  function AllBlocks(file: seq<byte>, entries: seq<BBTEntry>): (r: Option<seq<DataBlock>>)
    ensures r.Some? ==> |r.value| == |entries|
  {
    if entries == [] then Some([])
    else
      var before :- AllBlocks(file, entries[..|entries| - 1]);
      var block :- OneBlock(file, entries[|entries| - 1]);
      Some(before + [block])
  }

  /** `m_getBBT(bid).value()` for every identifier of a list. */
  function Lookups(getBBT: GetBBT, bids: seq<uint64>): (r: Option<seq<BBTEntry>>)
    ensures r.Some? ==> |r.value| == |bids|
  {
    if bids == [] then Some([])
    else
      var before :- Lookups(getBBT, bids[..|bids| - 1]);
      var entry :- getBBT(bids[|bids| - 1]);
      Some(before + [entry])
  }

  /** The identifiers in the X block that an XX block refers to. */
  function XBlockAt(file: seq<byte>, getBBT: GetBBT, bid: uint64): Option<XBlock>
  {
    var entry :- getBBT(bid);
    var size :- CheckedSize(entry.cb);
    var bytes :- ReadBytes(file, entry.bref.ib, size.0);
    XBlockOf(bytes, entry.bref, 1)
  }

  /** The entries that one identifier of an XX block contributes. */
  function XEntries(file: seq<byte>, getBBT: GetBBT, bid: uint64): Option<seq<BBTEntry>>
  {
    var x :- XBlockAt(file, getBBT, bid);
    Lookups(getBBT, x.rgbid)
  }

  function XXLookups(file: seq<byte>, getBBT: GetBBT, bids: seq<uint64>): Option<seq<BBTEntry>>
  {
    if bids == [] then Some([])
    else
      var before :- XXLookups(file, getBBT, bids[..|bids| - 1]);
      var entries :- XEntries(file, getBBT, bids[|bids| - 1]);
      Some(before + entries)
  }

  /** The level that the root is taken to have: 1 for X, 2 for XX, anything else is refused. */
  function RootLevel(dispatch: Dispatch, bytes: seq<byte>): byte
    requires |bytes| >= 2
  {
    if dispatch == AsWritten then bytes[0] else bytes[1]
  }

  function Expanded(file: seq<byte>, getBBT: GetBBT, bref: BREF, bytes: seq<byte>, dispatch: Dispatch)
    : Option<seq<BBTEntry>>
    requires |bytes| >= 2
  {
    if RootLevel(dispatch, bytes) == 1 then
      var x :- XBlockOf(bytes, bref, 1);
      Lookups(getBBT, x.rgbid)
    else if RootLevel(dispatch, bytes) == 2 then
      var xx :- XBlockOf(bytes, bref, 2);
      XXLookups(file, getBBT, xx.rgbid)
    else None
  }

  /** The bytes of the first block, after the checks that `load` makes on its trailer. */
  function RootBytes(file: seq<byte>, bref: BREF, sizeOfBlockData: nat): (r: Option<seq<byte>>)
    ensures r.Some? ==> |r.value| >= 16
  {
    var size :- CheckedSize(sizeOfBlockData);
    var bytes :- ReadBytes(file, bref.ib, size.0);
    var trailer :- TrailerAtEnd(bytes, bref);
    if trailer.bid == bref.bid && size.0 - (TRAILER_SIZE + size.1) == trailer.cb && sizeOfBlockData == trailer.cb
    then Some(bytes) else None
  }

  /** What a first successful `load` leaves in `m_dataBlocks`. */
  function LoadedBlocks(file: seq<byte>, getBBT: GetBBT, bref: BREF, sizeOfBlockData: nat, dispatch: Dispatch)
    : Option<seq<DataBlock>>
  {
    var bytes :- RootBytes(file, bref, sizeOfBlockData);
    if !IsInternal(bref.bid) then
      var block :- DataBlockOf(bytes, bref);
      Some([block])
    else
      var entries :- Expanded(file, getBBT, bref, bytes, dispatch);
      AllBlocks(file, entries)
  }

  function Combined(blocks: seq<DataBlock>): seq<byte>
  {
    if blocks == [] then [] else Combined(blocks[..|blocks| - 1]) + blocks[|blocks| - 1].data
  }

  // ----- lists that fail as soon as one element fails

  lemma {:induction false} AllBlocksConcat(file: seq<byte>, a: seq<BBTEntry>, b: seq<BBTEntry>)
    ensures AllBlocks(file, a + b).Some? <==> AllBlocks(file, a).Some? && AllBlocks(file, b).Some?
    ensures AllBlocks(file, a + b).Some? ==>
              AllBlocks(file, a + b).value == AllBlocks(file, a).value + AllBlocks(file, b).value
  {
    if b == [] {
      assert a + b == a;
    } else {
      var init, last := b[..|b| - 1], b[|b| - 1];
      AllBlocksConcat(file, a, init);
      assert (a + b)[..|a + b| - 1] == a + init && (a + b)[|a + b| - 1] == last;
      if AllBlocks(file, a + b).Some? {
        var block := OneBlock(file, last).value;
        assert AllBlocks(file, a + b).value == AllBlocks(file, a + init).value + [block];
        assert AllBlocks(file, b).value == AllBlocks(file, init).value + [block];
      }
    }
  }

  /** Blocks before position `n`, then the rest: what the flushing loops need at each turn. */
  lemma AllBlocksSplit(file: seq<byte>, entries: seq<BBTEntry>, n: nat)
    requires n < |entries|
    ensures AllBlocks(file, entries[..n]).Some? && OneBlock(file, entries[n]).Some? ==>
              AllBlocks(file, entries[..n + 1])
              == Some(AllBlocks(file, entries[..n]).value + [OneBlock(file, entries[n]).value])
    ensures OneBlock(file, entries[n]).None? ==> AllBlocks(file, entries).None?
  {
    assert entries[..n + 1][..n] == entries[..n];
    assert entries == entries[..n + 1] + entries[n + 1..];
    AllBlocksConcat(file, entries[..n + 1], entries[n + 1..]);
  }

  lemma {:induction false} LookupsConcat(getBBT: GetBBT, a: seq<uint64>, b: seq<uint64>)
    ensures Lookups(getBBT, a + b).Some? <==> Lookups(getBBT, a).Some? && Lookups(getBBT, b).Some?
    ensures Lookups(getBBT, a + b).Some? ==>
              Lookups(getBBT, a + b).value == Lookups(getBBT, a).value + Lookups(getBBT, b).value
  {
    if b == [] {
      assert a + b == a;
    } else {
      LookupsConcat(getBBT, a, b[..|b| - 1]);
      assert (a + b)[..|a + b| - 1] == a + b[..|b| - 1];
    }
  }

  lemma LookupsSplit(getBBT: GetBBT, bids: seq<uint64>, n: nat)
    requires n < |bids|
    ensures Lookups(getBBT, bids[..n]).Some? && getBBT(bids[n]).Some? ==>
              Lookups(getBBT, bids[..n + 1]) == Some(Lookups(getBBT, bids[..n]).value + [getBBT(bids[n]).value])
    ensures getBBT(bids[n]).None? ==> Lookups(getBBT, bids).None?
  {
    assert bids[..n + 1][..n] == bids[..n];
    assert bids == bids[..n + 1] + bids[n + 1..];
    LookupsConcat(getBBT, bids[..n + 1], bids[n + 1..]);
  }

  lemma XXLookupsSplit(file: seq<byte>, getBBT: GetBBT, bids: seq<uint64>, n: nat)
    requires n < |bids|
    ensures XXLookups(file, getBBT, bids[..n]).Some? && XEntries(file, getBBT, bids[n]).Some? ==>
              XXLookups(file, getBBT, bids[..n + 1])
              == Some(XXLookups(file, getBBT, bids[..n]).value + XEntries(file, getBBT, bids[n]).value)
    ensures XEntries(file, getBBT, bids[n]).None? ==> XXLookups(file, getBBT, bids).None?
  {
    assert bids[..n + 1][..n] == bids[..n];
    if XXLookups(file, getBBT, bids[..n + 1]).None? {
      XXLookupsPrefix(file, getBBT, bids, n + 1);
    }
  }

  lemma {:induction false} XXLookupsPrefix(file: seq<byte>, getBBT: GetBBT, bids: seq<uint64>, n: nat)
    requires n <= |bids| && XXLookups(file, getBBT, bids[..n]).None?
    ensures XXLookups(file, getBBT, bids).None?
    decreases |bids| - n
  {
    if n < |bids| {
      assert bids[..n + 1][..n] == bids[..n];
      XXLookupsPrefix(file, getBBT, bids, n + 1);
    } else {
      assert bids[..n] == bids;
    }
  }

  lemma NoBlocks(file: seq<byte>)
    ensures AllBlocks(file, []) == Some([]) && TotalSize([]) == 0
  {
  }

  // ----- blocks stored one after the other

  /** Each entry's block starts where the aligned block of the entry before it ends. */
  ghost predicate Contiguous(entries: seq<BBTEntry>)
  {
    forall i :: 1 <= i < |entries| ==> Adjacent(entries, i)
  }

  predicate Adjacent(entries: seq<BBTEntry>, i: nat)
    requires 1 <= i < |entries|
  {
    && CheckedSize(entries[i - 1].cb).Some?
    && entries[i].bref.ib == entries[i - 1].bref.ib + AlignedSize(entries[i - 1].cb).0
  }

  function TotalSize(entries: seq<BBTEntry>): nat
  {
    if entries == [] then 0 else TotalSize(entries[..|entries| - 1]) + AlignedSize(entries[|entries| - 1].cb).0
  }

  /** In a contiguous list, the summed sizes of the blocks before an entry lead to that entry's offset. */
  lemma {:induction false} OffsetOf(entries: seq<BBTEntry>, n: nat)
    requires Contiguous(entries) && n < |entries|
    ensures entries[0].bref.ib + TotalSize(entries[..n]) == entries[n].bref.ib
    ensures TotalSize(entries[..n + 1]) == TotalSize(entries[..n]) + AlignedSize(entries[n].cb).0
  {
    assert entries[..n + 1][..n] == entries[..n];
    if n == 0 {
    } else {
      OffsetOf(entries, n - 1);
      assert Adjacent(entries, n);
    }
  }

  lemma {:induction false} TotalSizeMonotone(entries: seq<BBTEntry>, m: nat, n: nat)
    requires m <= n <= |entries|
    ensures TotalSize(entries[..m]) <= TotalSize(entries[..n])
  {
    if m == n {
    } else {
      TotalSizeMonotone(entries, m, n - 1);
      assert entries[..n][..n - 1] == entries[..n - 1];
    }
  }

  lemma EndOf(entries: seq<BBTEntry>, n: nat)
    requires Contiguous(entries) && n < |entries|
    ensures TotalSize(entries[..n]) + AlignedSize(entries[n].cb).0 <= TotalSize(entries)
    ensures n == |entries| - 1 ==> TotalSize(entries[..n]) + AlignedSize(entries[n].cb).0 == TotalSize(entries)
  {
    OffsetOf(entries, n);
    TotalSizeMonotone(entries, n + 1, |entries|);
    assert entries[..|entries|] == entries;
  }

  /** One read of the summed sizes, starting at the first block, ends where the last block ends. */
  lemma OneReadEnd(entries: seq<BBTEntry>)
    requires Contiguous(entries) && entries != []
    ensures var last := entries[|entries| - 1];
      entries[0].bref.ib + TotalSize(entries) == last.bref.ib + AlignedSize(last.cb).0
  {
    OffsetOf(entries, |entries| - 1);
    EndOf(entries, |entries| - 1);
  }

  /** So it stays inside the file exactly when the read of the last block does. */
  lemma OneReadInRange(file: seq<byte>, entries: seq<BBTEntry>)
    requires Contiguous(entries) && entries != []
    ensures ReadBytes(file, entries[0].bref.ib, TotalSize(entries)).Some?
            <==> ReadBytes(file, entries[|entries| - 1].bref.ib, AlignedSize(entries[|entries| - 1].cb).0).Some?
  {
    OneReadEnd(entries);
  }

  lemma OneReadFails(file: seq<byte>, entries: seq<BBTEntry>)
    requires Contiguous(entries) && entries != []
    requires ReadBytes(file, entries[0].bref.ib, TotalSize(entries)).None?
    ensures AllBlocks(file, entries).None?
  {
    OneReadInRange(file, entries);
    AllBlocksSplit(file, entries, |entries| - 1);
  }

  /** Cutting it up at the running total gives what seeking to each block would have read. */
  lemma OneReadIsAllReads(file: seq<byte>, all: seq<byte>, entries: seq<BBTEntry>, n: nat)
    requires Contiguous(entries) && n < |entries|
    requires ReadBytes(file, entries[0].bref.ib, TotalSize(entries)) == Some(all)
    ensures Slice(all, TotalSize(entries[..n]), AlignedSize(entries[n].cb).0)
            == ReadBytes(file, entries[n].bref.ib, AlignedSize(entries[n].cb).0)
    ensures TotalSize(entries[..n]) + AlignedSize(entries[n].cb).0 <= |all|
  {
    OffsetOf(entries, n);
    EndOf(entries, n);
    CutOut(file, all, entries[0].bref.ib, TotalSize(entries), TotalSize(entries[..n]), AlignedSize(entries[n].cb).0,
           entries[n].bref.ib);
  }

  lemma CutOut(file: seq<byte>, all: seq<byte>, start: nat, total: nat, from: nat, size: nat, ib: nat)
    requires Slice(file, start, total) == Some(all) && start + from == ib && from + size <= total
    ensures Slice(all, from, size) == Slice(file, ib, size) && from + size <= |all|
  {
    SliceOfSlice(file, start, total, from, size);
  }

  lemma SliceOfSlice(s: seq<byte>, start: nat, size: nat, from: nat, count: nat)
    requires from + count <= size
    ensures Slice(s, start, size).Some? ==>
              Slice(Slice(s, start, size).value, from, count) == Slice(s, start + from, count)
  {
    if start + size <= |s| {
      var inner, direct := s[start..start + size][from..from + count], s[start + from..start + from + count];
      forall k | 0 <= k < count
        ensures inner[k] == direct[k]
      {
      }
      assert inner == direct;
    }
  }

  /** One turn of the fast path: the piece cut from the one read is the block that the entry refers to. */
  lemma CutIsBlock(file: seq<byte>, all: seq<byte>, entries: seq<BBTEntry>, n: nat)
    requires Contiguous(entries) && n < |entries| && CheckedSize(entries[n].cb).Some?
    requires ReadBytes(file, entries[0].bref.ib, TotalSize(entries)) == Some(all)
    ensures var cut := Slice(all, TotalSize(entries[..n]), AlignedSize(entries[n].cb).0);
      cut.Some? && DataBlockOf(cut.value, entries[n].bref) == OneBlock(file, entries[n])
    ensures TotalSize(entries[..n + 1]) == TotalSize(entries[..n]) + AlignedSize(entries[n].cb).0
  {
    OneReadIsAllReads(file, all, entries, n);
    OffsetOf(entries, n);
  }

  // ----- the class

  class DataTree {
    const file: seq<byte>
    const getBBT: GetBBT
    const firstBlockBREF: BREF
    const sizeofFirstBlockData: nat
    const dispatch: Dispatch
    var dataBlockBBTs: seq<BBTEntry>
    var dataBlocks: seq<DataBlock>
    var dataBlocksAreSetup: bool

    constructor (file: seq<byte>, getBBT: GetBBT, bref: BREF, sizeOfBlockData: nat, dispatch: Dispatch)
      ensures this.file == file && this.getBBT == getBBT && firstBlockBREF == bref
      ensures sizeofFirstBlockData == sizeOfBlockData && this.dispatch == dispatch
      ensures Valid() && !dataBlocksAreSetup
    {
      this.file, this.getBBT, this.firstBlockBREF := file, getBBT, bref;
      this.sizeofFirstBlockData, this.dispatch := sizeOfBlockData, dispatch;
      dataBlockBBTs, dataBlocks, dataBlocksAreSetup := [], [], false;
    }

    /** The blocks of this tree, as far as the file and the block index determine them. */
    ghost function Contents(): Option<seq<DataBlock>>
    {
      LoadedBlocks(file, getBBT, firstBlockBREF, sizeofFirstBlockData, dispatch)
    }

    /** Once set up, the blocks are the contents. Before that, only a tree that cannot load may hold leftovers. */
    ghost predicate Valid()
      reads this
    {
      && (dataBlocksAreSetup ==> Contents() == Some(dataBlocks))
      && (!dataBlocksAreSetup && Contents().Some? ==> dataBlockBBTs == [] && dataBlocks == [])
    }

    /** `load`: does its work once; a load that failed fails again. */
    method Load() returns (ok: bool)
      requires Valid()
      modifies this
      ensures Valid()
      ensures ok <==> Contents().Some?
      ensures dataBlocksAreSetup == ok
      ensures old(dataBlocksAreSetup) ==> dataBlocks == old(dataBlocks) && dataBlockBBTs == old(dataBlockBBTs)
    {
      if dataBlocksAreSetup {
        return true;
      }
      var blockBytes := ReadRoot();
      if blockBytes.None? {
        return false;
      }
      if !IsInternal(firstBlockBREF.bid) {
        var address: nat := *;
        var block := InitDataBlock(blockBytes.value, firstBlockBREF, address);
        if block.None? {
          return false;
        }
        dataBlocks := dataBlocks + [block.value];
      } else {
        ghost var entries := Expanded(file, getBBT, firstBlockBREF, blockBytes.value, dispatch);
        var expanded := Expand(blockBytes.value);
        if !expanded {
          return false;
        }
        AllBlocksConcat(file, old(dataBlockBBTs), entries.value);
        var flushed := Flush();
        if !flushed {
          return false;
        }
        assert [] + entries.value == entries.value;
      }
      dataBlocksAreSetup := true;
      assert Contents().Some? ==> dataBlocks == Contents().value;
      return true;
    }

    /** The first block, with the checks of `load` on its trailer. */
    method ReadRoot() returns (r: Option<seq<byte>>)
      ensures r == RootBytes(file, firstBlockBREF, sizeofFirstBlockData)
    {
      var size := CheckedSize(sizeofFirstBlockData);
      if size.None? {
        return None;
      }
      var (blockSize, offset) := size.value;
      var blockBytes := ReadBytes(file, firstBlockBREF.ib, blockSize);
      if blockBytes.None? {
        return None;
      }
      var trailer := InitTrailer(blockBytes.value, firstBlockBREF);
      if trailer.None? || trailer.value.bid != firstBlockBREF.bid
         || blockSize - (TRAILER_SIZE + offset) != trailer.value.cb || sizeofFirstBlockData != trailer.value.cb {
        return None;
      }
      return blockBytes;
    }

    /** The branch of `load` for an internal root: collect the entries of all data blocks. */
    method Expand(blockBytes: seq<byte>) returns (ok: bool)
      requires |blockBytes| >= 16
      modifies this`dataBlockBBTs
      ensures ok <==> Expanded(file, getBBT, firstBlockBREF, blockBytes, dispatch).Some?
      ensures ok ==>
                dataBlockBBTs
                == old(dataBlockBBTs) + Expanded(file, getBBT, firstBlockBREF, blockBytes, dispatch).value
    {
      var level := RootLevel(dispatch, blockBytes);
      if level == 1 {
        var xblock := InitXBlock(blockBytes, firstBlockBREF, 1);
        if xblock.None? {
          return false;
        }
        ok := XBlockToDataBlocks(xblock.value);
      } else if level == 2 {
        var xxblock := InitXBlock(blockBytes, firstBlockBREF, 2);
        if xxblock.None? {
          return false;
        }
        ok := XXBlockToDataBlocks(xxblock.value);
      } else {
        ok := false;
      }
    }

    /** `_xBlocktoDataBlocks` */
    method XBlockToDataBlocks(xblock: XBlock) returns (ok: bool)
      modifies this`dataBlockBBTs
      ensures ok <==> Lookups(getBBT, xblock.rgbid).Some?
      ensures ok ==> dataBlockBBTs == old(dataBlockBBTs) + Lookups(getBBT, xblock.rgbid).value
    {
      var bids := xblock.rgbid;
      assert bids[..0] == [];
      ghost var done: seq<BBTEntry> := [];
      for i := 0 to |bids|
        invariant Lookups(getBBT, bids[..i]) == Some(done) && dataBlockBBTs == old(dataBlockBBTs) + done
      {
        LookupsSplit(getBBT, bids, i);
        var bbt := getBBT(bids[i]);
        if bbt.None? {
          return false;
        }
        dataBlockBBTs := dataBlockBBTs + [bbt.value];
        done := done + [bbt.value];
      }
      assert bids[..|bids|] == bids;
      return true;
    }

    /** `_xxBlocktoDataBlocks` */
    method XXBlockToDataBlocks(xxblock: XBlock) returns (ok: bool)
      modifies this`dataBlockBBTs
      ensures ok <==> XXLookups(file, getBBT, xxblock.rgbid).Some?
      ensures ok ==> dataBlockBBTs == old(dataBlockBBTs) + XXLookups(file, getBBT, xxblock.rgbid).value
    {
      hide XEntries;
      var bids := xxblock.rgbid;
      assert bids[..0] == [];
      ghost var done: seq<BBTEntry> := [];
      for i := 0 to |bids|
        invariant XXLookups(file, getBBT, bids[..i]) == Some(done) && dataBlockBBTs == old(dataBlockBBTs) + done
      {
        XXLookupsSplit(file, getBBT, bids, i);
        var found := AppendXBlock(bids[i]);
        if !found {
          return false;
        }
        done := done + XEntries(file, getBBT, bids[i]).value;
      }
      assert bids[..|bids|] == bids;
      return true;
    }

    /** One turn of that loop: read the X block of an entry, then collect what it refers to. */
    method AppendXBlock(bid: uint64) returns (ok: bool)
      modifies this`dataBlockBBTs
      ensures ok <==> XEntries(file, getBBT, bid).Some?
      ensures ok ==> dataBlockBBTs == old(dataBlockBBTs) + XEntries(file, getBBT, bid).value
    {
      var xblock := ReadXBlock(bid);
      if xblock.None? {
        return false;
      }
      ok := XBlockToDataBlocks(xblock.value);
    }

    method ReadXBlock(bid: uint64) returns (r: Option<XBlock>)
      ensures r == XBlockAt(file, getBBT, bid)
    {
      var bbt := getBBT(bid);
      if bbt.None? {
        return None;
      }
      var size := CheckedSize(bbt.value.cb);
      if size.None? {
        return None;
      }
      var bytes := ReadBytes(file, bbt.value.bref.ib, size.value.0);
      if bytes.None? {
        return None;
      }
      r := InitXBlock(bytes.value, bbt.value.bref, 1);
    }

    /** `DataBlocksAreStoredContiguously_`, which may stop at a block size that its callee refuses. */
    method DataBlocksAreStoredContiguously() returns (r: Option<bool>)
      ensures r == Some(true) <==> Contiguous(dataBlockBBTs)
      ensures r.None? ==> AllBlocks(file, dataBlockBBTs).None?
    {
      var i := 1;
      while i < |dataBlockBBTs|
        invariant 1 <= i
        invariant forall k :: 1 <= k < i && k < |dataBlockBBTs| ==> Adjacent(dataBlockBBTs, k)
      {
        var start := dataBlockBBTs[i - 1].bref.ib;
        var end := dataBlockBBTs[i].bref.ib;
        var size := CheckedSize(dataBlockBBTs[i - 1].cb);
        if size.None? {
          AllBlocksSplit(file, dataBlockBBTs, i - 1);
          assert !Adjacent(dataBlockBBTs, i);
          return None;
        }
        if start > end || end - start != size.value.0 {
          assert !Adjacent(dataBlockBBTs, i);
          return Some(false);
        }
        i := i + 1;
      }
      return Some(true);
    }

    /** `TotalDataBlockFileBytes_` on a contiguous list. */
    method TotalDataBlockFileBytes() returns (r: Option<nat>)
      ensures r.Some? ==> r.value == TotalSize(dataBlockBBTs)
      ensures r.Some? ==> forall k :: 0 <= k < |dataBlockBBTs| ==> CheckedSize(dataBlockBBTs[k].cb).Some?
      ensures r.None? ==> AllBlocks(file, dataBlockBBTs).None?
    {
      var nBytes := 0;
      for i := 0 to |dataBlockBBTs|
        invariant nBytes == TotalSize(dataBlockBBTs[..i])
        invariant forall k :: 0 <= k < i ==> CheckedSize(dataBlockBBTs[k].cb).Some?
      {
        var size := CheckedSize(dataBlockBBTs[i].cb);
        if size.None? {
          AllBlocksSplit(file, dataBlockBBTs, i);
          return None;
        }
        assert dataBlockBBTs[..i + 1][..i] == dataBlockBBTs[..i];
        nBytes := nBytes + size.value.0;
      }
      assert dataBlockBBTs[..|dataBlockBBTs|] == dataBlockBBTs;
      return Some(nBytes);
    }

    /**
     * `_flush`: whichever way it reads, it appends the block of every entry, in order, or fails where a block fails.
     */
    method Flush() returns (ok: bool)
      modifies this`dataBlocks
      ensures ok <==> AllBlocks(file, dataBlockBBTs).Some?
      ensures ok ==> dataBlocks == old(dataBlocks) + AllBlocks(file, dataBlockBBTs).value
    {
      if dataBlockBBTs == [] {
        return true;
      }
      var contiguous := DataBlocksAreStoredContiguously();
      if contiguous.None? {
        return false;
      }
      if contiguous.value {
        ok := FlushInOneRead();
      } else {
        ok := FlushOneByOne();
      }
    }

    method FlushInOneRead() returns (ok: bool)
      requires dataBlockBBTs != [] && Contiguous(dataBlockBBTs)
      modifies this`dataBlocks
      ensures ok <==> AllBlocks(file, dataBlockBBTs).Some?
      ensures ok ==> dataBlocks == old(dataBlocks) + AllBlocks(file, dataBlockBBTs).value
    {
      hide OneBlock, DataBlockOf, AllBlocks, TotalSize;
      NoBlocks(file);
      var entries := dataBlockBBTs;
      var nBytes := TotalDataBlockFileBytes();
      if nBytes.None? {
        return false;
      }
      var allBlocksBytes := ReadBytes(file, entries[0].bref.ib, nBytes.value);
      if allBlocksBytes.None? {
        OneReadFails(file, entries);
        return false;
      }
      var view := new ByteView(allBlocksBytes.value);
      assert entries[..0] == [];
      ghost var done: seq<DataBlock> := [];
      for i := 0 to |entries|
        invariant view.bytes == allBlocksBytes.value && view.start == TotalSize(entries[..i])
        invariant AllBlocks(file, entries[..i]) == Some(done) && dataBlocks == old(dataBlocks) + done
      {
        CutIsBlock(file, allBlocksBytes.value, entries, i);
        AllBlocksSplit(file, entries, i);
        var size := CheckedSize(entries[i].cb);
        var bytes := view.Read(size.value.0);
        var address: nat := *;
        var block := InitDataBlock(bytes.value, entries[i].bref, address);
        if block.None? {
          return false;
        }
        dataBlocks := dataBlocks + [block.value];
        done := done + [block.value];
      }
      assert entries[..|entries|] == entries;
      return true;
    }

    method FlushOneByOne() returns (ok: bool)
      modifies this`dataBlocks
      ensures ok <==> AllBlocks(file, dataBlockBBTs).Some?
      ensures ok ==> dataBlocks == old(dataBlocks) + AllBlocks(file, dataBlockBBTs).value
    {
      hide OneBlock, AllBlocks;
      NoBlocks(file);
      var entries := dataBlockBBTs;
      assert entries[..0] == [];
      ghost var done: seq<DataBlock> := [];
      for i := 0 to |entries|
        invariant AllBlocks(file, entries[..i]) == Some(done) && dataBlocks == old(dataBlocks) + done
      {
        AllBlocksSplit(file, entries, i);
        var block := ReadDataBlock(entries[i]);
        if block.None? {
          return false;
        }
        dataBlocks := dataBlocks + [block.value];
        done := done + [block.value];
      }
      assert entries[..|entries|] == entries;
      return true;
    }

    method ReadDataBlock(entry: BBTEntry) returns (r: Option<DataBlock>)
      ensures r == OneBlock(file, entry)
    {
      var size := CheckedSize(entry.cb);
      if size.None? {
        return None;
      }
      var bytes := ReadBytes(file, entry.bref.ib, size.value.0);
      if bytes.None? {
        return None;
      }
      var address: nat := *;
      r := InitDataBlock(bytes.value, entry.bref, address);
    }

    // ----- accessors, each refused before the tree is loaded

    method NDataBlocks() returns (r: Option<nat>)
      ensures r == if dataBlocksAreSetup then Some(|dataBlocks|) else None
    {
      if !dataBlocksAreSetup {
        return None;
      }
      return Some(|dataBlocks|);
    }

    method SizeOfDataBlockData(dataBlockIdx: nat) returns (r: Option<nat>)
      ensures r == if dataBlocksAreSetup && dataBlockIdx < |dataBlocks| then Some(|dataBlocks[dataBlockIdx].data|)
                   else None
    {
      if !dataBlocksAreSetup || dataBlockIdx >= |dataBlocks| {
        return None;
      }
      return Some(|dataBlocks[dataBlockIdx].data|);
    }

    method At(idx: nat) returns (r: Option<DataBlock>)
      ensures r == if dataBlocksAreSetup && idx < |dataBlocks| then Some(dataBlocks[idx]) else None
    {
      if !dataBlocksAreSetup || idx >= |dataBlocks| {
        return None;
      }
      return Some(dataBlocks[idx]);
    }

    /** `combineDataBlocks`: the nested loops that push every byte of every block. */
    method CombineDataBlocks() returns (r: Option<seq<byte>>)
      ensures r == if dataBlocksAreSetup then Some(Combined(dataBlocks)) else None
    {
      if !dataBlocksAreSetup {
        return None;
      }
      var res: seq<byte> := [];
      for i := 0 to |dataBlocks|
        invariant res == Combined(dataBlocks[..i])
      {
        var block := dataBlocks[i];
        for k := 0 to |block.data|
          invariant res == Combined(dataBlocks[..i]) + block.data[..k]
        {
          res := res + [block.data[k]];
        }
        assert block.data[..|block.data|] == block.data;
        assert dataBlocks[..i + 1][..i] == dataBlocks[..i];
      }
      assert dataBlocks[..|dataBlocks|] == dataBlocks;
      return Some(res);
    }

    /** `begin`: loads, then gives access to the blocks. */
    method Begin() returns (r: Option<seq<DataBlock>>)
      requires Valid()
      modifies this
      ensures Valid() && r == Contents()
      ensures dataBlocksAreSetup == r.Some?
      ensures old(dataBlocksAreSetup) ==> dataBlocks == old(dataBlocks)
    {
      var ok := Load();
      if !ok {
        return None;
      }
      return Some(dataBlocks);
    }
  }
}
