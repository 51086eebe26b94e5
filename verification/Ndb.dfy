/** The NDB layer as a whole (`NDB` in `include/NDB.h`): data trees whose block index is the loaded block B-tree. */
module Ndb {
  import opened Blocks
  import opened BTPages
  import opened BTSearch
  import opened Bytes
  import opened DataTrees
  import opened Ids
  import opened SubNodes
  import opened Views

  /** `NDB::get` of a block identifier, the function that every data tree is given. */
  function TreeLookup(blockTree: BTPage): GetBBT
    requires Shaped(blockTree)
  {
    (bid: uint64) =>
      var entry := Get(BlockIndex, blockTree, bid);
      if entry.None? then None else Some(AsBBTEntry(entry.value))
  }

  /** The flat index of a block tree: the leftmost leaf entry of each identifier. */
  ghost function FlatLookup(blockTree: BTPage): GetBBT
    requires Shaped(blockTree)
  {
    (bid: uint64) =>
      var entry := FirstWithKey(BlockIndex, LeafEntries(BlockIndex, blockTree), bid);
      if entry.None? then None else Some(AsBBTEntry(entry.value))
  }

  /** `InitDataTree`: the tree of a node, over a file whose block tree has been loaded. */
  method InitDataTree(file: seq<byte>, blockTree: BTPage, bref: BREF, sizeofBlockData: nat, dispatch: Dispatch)
    returns (tree: DataTree)
    requires Shaped(blockTree)
    ensures fresh(tree) && tree.Valid() && !tree.dataBlocksAreSetup
    ensures tree.Contents() == LoadedBlocks(file, TreeLookup(blockTree), bref, sizeofBlockData, dispatch)
  {
    tree := new DataTree(file, TreeLookup(blockTree), bref, sizeofBlockData, dispatch);
  }

  /** `InitSubNodeBTree`: the subnodes under an SL block, over a file whose block tree has been loaded. */
  method InitSubNodeBTree(file: seq<byte>, blockTree: BTPage, ghost rank: Rank, bid: uint64)
    returns (r: Option<SubNodeBTree>)
    requires Shaped(blockTree) && Acyclic(file, TreeLookup(blockTree), rank) && InNest(rank, bid)
    ensures r == Built(file, TreeLookup(blockTree), rank, bid)
  {
    r := SubNodes.InitSubNodeBTree(file, TreeLookup(blockTree), rank, bid);
  }

  // ----- opening a file and reading a node

  const NID_MESSAGE_STORE: uint32 := 0x21
  const NID_NAME_TO_ID_MAP: uint32 := 0x61
  const NID_ROOT_FOLDER: uint32 := 0x122

  datatype NDB = NDB(file: seq<byte>, rootNBT: BTPage, rootBBT: BTPage)

  ghost predicate Open(ndb: NDB)
  {
    Shaped(ndb.rootNBT) && Shaped(ndb.rootBBT)
  }

  /** `NDB::verify`: three nodes that every store has. */
  predicate Verified(rootNBT: BTPage)
    requires Shaped(rootNBT)
  {
    && Get(NodeIndex, rootNBT, NID_MESSAGE_STORE).Some?
    && Get(NodeIndex, rootNBT, NID_NAME_TO_ID_MAP).Some?
    && Get(NodeIndex, rootNBT, NID_ROOT_FOLDER).Some?
  }

  /** The constructor: both root pages with everything below them, then `verify`. */
  function Opened(file: seq<byte>, nodeBTreeRootPage: BREF, blockBTreeRootPage: BREF): (r: Option<NDB>)
    ensures r.Some? ==> Open(r.value)
  {
    var rootNBT :- LoadedPage(file, nodeBTreeRootPage, -1);
    var rootBBT :- LoadedPage(file, blockBTreeRootPage, -1);
    if Verified(rootNBT) then Some(NDB(file, rootNBT, rootBBT)) else None
  }

  method InitNDB(file: seq<byte>, nodeBTreeRootPage: BREF, blockBTreeRootPage: BREF) returns (r: Option<NDB>)
    ensures r == Opened(file, nodeBTreeRootPage, blockBTreeRootPage)
  {
    var rootNBT := InitPage(file, nodeBTreeRootPage, -1);
    if rootNBT.None? {
      return None;
    }
    var rootBBT := InitPage(file, blockBTreeRootPage, -1);
    if rootBBT.None? {
      return None;
    }
    var messageStore := GetEntry(NodeIndex, rootNBT.value, NID_MESSAGE_STORE);
    var nameToIdMap := GetEntry(NodeIndex, rootNBT.value, NID_NAME_TO_ID_MAP);
    var rootFolder := GetEntry(NodeIndex, rootNBT.value, NID_ROOT_FOLDER);
    if messageStore.None? || nameToIdMap.None? || rootFolder.None? {
      return None;
    }
    return Some(NDB(file, rootNBT.value, rootBBT.value));
  }

  /** The data under a block of the block index. */
  function LoadedData(file: seq<byte>, getBBT: GetBBT, root: BBTEntry, dispatch: Dispatch): Option<seq<byte>>
  {
    var blocks :- LoadedBlocks(file, getBBT, root.bref, root.cb, dispatch);
    Some(Combined(blocks))
  }

  /** The data of a node: its entry in the node tree, its root block in the block tree, its blocks in the file. */
  function NodeData(ndb: NDB, nid: uint32, dispatch: Dispatch): Option<seq<byte>>
    requires Open(ndb)
  {
    var entry :- Get(NodeIndex, ndb.rootNBT, nid);
    var root :- TreeLookup(ndb.rootBBT)(AsNBTEntry(entry).bidData);
    LoadedData(ndb.file, TreeLookup(ndb.rootBBT), root, dispatch)
  }

  /** How a client reads a node: `get` twice, `InitDataTree`, `load`, `combineDataBlocks`. */
  method ReadNode(ndb: NDB, nid: uint32, dispatch: Dispatch) returns (r: Option<seq<byte>>)
    requires Open(ndb)
    ensures r == NodeData(ndb, nid, dispatch)
  {
    hide LoadedBlocks, Get;
    var found := GetEntry(NodeIndex, ndb.rootNBT, nid);
    if found.None? {
      return None;
    }
    var node := ReadNBTEntry(found.value);
    var block := GetEntry(BlockIndex, ndb.rootBBT, node.bidData);
    if block.None? {
      return None;
    }
    var root := ReadBBTEntry(block.value);
    var tree := InitDataTree(ndb.file, ndb.rootBBT, root.bref, root.cb, dispatch);
    var ok := tree.Load();
    if !ok {
      return None;
    }
    r := tree.CombineDataBlocks();
  }

  // ----- a larger file and a larger index change nothing that was there

  ghost predicate Prefix(a: seq<byte>, b: seq<byte>)
  {
    |a| <= |b| && b[..|a|] == a
  }

  lemma PrefixTransitive(a: seq<byte>, b: seq<byte>, c: seq<byte>)
    requires Prefix(a, b) && Prefix(b, c)
    ensures Prefix(a, c)
  {
    assert c[..|a|] == c[..|b|][..|a|];
  }

  ghost predicate Refines(f: GetBBT, g: GetBBT)
  {
    forall bid: uint64 :: f(bid).Some? ==> g(bid) == f(bid)
  }

  lemma ReadBytesStable(a: seq<byte>, b: seq<byte>, position: nat, size: nat)
    requires Prefix(a, b) && ReadBytes(a, position, size).Some?
    ensures ReadBytes(b, position, size) == ReadBytes(a, position, size)
  {
    assert b[0..|a|] == b[..|a|] == a;
    SliceOfSlice(b, 0, |a|, position, size);
  }

  lemma {:induction false} LookupsStable(f: GetBBT, g: GetBBT, bids: seq<uint64>)
    requires Refines(f, g) && Lookups(f, bids).Some?
    ensures Lookups(g, bids) == Lookups(f, bids)
  {
    if bids == [] {
    } else {
      LookupsStable(f, g, bids[..|bids| - 1]);
    }
  }

  lemma OneBlockStable(a: seq<byte>, b: seq<byte>, entry: BBTEntry)
    requires Prefix(a, b) && OneBlock(a, entry).Some?
    ensures OneBlock(b, entry) == OneBlock(a, entry)
  {
    ReadBytesStable(a, b, entry.bref.ib, CheckedSize(entry.cb).value.0);
  }

  lemma {:induction false} AllBlocksStable(a: seq<byte>, b: seq<byte>, entries: seq<BBTEntry>)
    requires Prefix(a, b) && AllBlocks(a, entries).Some?
    ensures AllBlocks(b, entries) == AllBlocks(a, entries)
  {
    hide OneBlock;
    if entries == [] {
    } else {
      AllBlocksStable(a, b, entries[..|entries| - 1]);
      OneBlockStable(a, b, entries[|entries| - 1]);
    }
  }

  lemma XEntriesStable(a: seq<byte>, b: seq<byte>, f: GetBBT, g: GetBBT, bid: uint64)
    requires Prefix(a, b) && Refines(f, g) && XEntries(a, f, bid).Some?
    ensures XEntries(b, g, bid) == XEntries(a, f, bid)
  {
    hide XBlockOf, Lookups;
    var entry := f(bid).value;
    assert g(bid) == Some(entry);
    ReadBytesStable(a, b, entry.bref.ib, CheckedSize(entry.cb).value.0);
    LookupsStable(f, g, XBlockAt(a, f, bid).value.rgbid);
  }

  lemma {:induction false} XXLookupsStable(a: seq<byte>, b: seq<byte>, f: GetBBT, g: GetBBT, bids: seq<uint64>)
    requires Prefix(a, b) && Refines(f, g) && XXLookups(a, f, bids).Some?
    ensures XXLookups(b, g, bids) == XXLookups(a, f, bids)
  {
    hide XEntries;
    if bids == [] {
    } else {
      XXLookupsStable(a, b, f, g, bids[..|bids| - 1]);
      XEntriesStable(a, b, f, g, bids[|bids| - 1]);
    }
  }

  /** A tree that loads from a file loads the same from every extension of it, under every richer index. */
  lemma LoadStable(a: seq<byte>, b: seq<byte>, f: GetBBT, g: GetBBT, bref: BREF, size: nat, dispatch: Dispatch)
    requires Prefix(a, b) && Refines(f, g) && LoadedBlocks(a, f, bref, size, dispatch).Some?
    ensures LoadedBlocks(b, g, bref, size, dispatch) == LoadedBlocks(a, f, bref, size, dispatch)
  {
    hide XBlockOf, DataBlockOf, TrailerAtEnd, Lookups, XXLookups, AllBlocks;
    ReadBytesStable(a, b, bref.ib, CheckedSize(size).value.0);
    var bytes := RootBytes(a, bref, size).value;
    if IsInternal(bref.bid) {
      var entries := Expanded(a, f, bref, bytes, dispatch).value;
      if RootLevel(dispatch, bytes) == 1 {
        LookupsStable(f, g, XBlockOf(bytes, bref, 1).value.rgbid);
      } else {
        XXLookupsStable(a, b, f, g, XBlockOf(bytes, bref, 2).value.rgbid);
      }
      AllBlocksStable(a, b, entries);
    }
  }

  // ----- loading through the block tree of the file

  /** On a bounded block tree, looking a block up through the pages is looking it up in the flat index. */
  lemma TreeLookupIsFlat(blockTree: BTPage)
    requires Shaped(blockTree) && LowerBounded(BlockIndex, blockTree)
    ensures forall bid: uint64 :: TreeLookup(blockTree)(bid) == FlatLookup(blockTree)(bid)
  {
    forall bid: uint64
      ensures TreeLookup(blockTree)(bid) == FlatLookup(blockTree)(bid)
    {
      GetScansLeaves(BlockIndex, blockTree, bid);
    }
  }
}
