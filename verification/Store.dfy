/**
 * A whole store: any set of nodes, each with its data, written as blocks, a block B-tree and a node B-tree into one
 * file, and the theorem that opening that file and reading any node gives exactly the data written for it.
 */
module Store {
  import opened BTPages
  import opened BTSearch
  import opened BTWriter
  import opened Bytes
  import opened DataTrees
  import opened Ids
  import opened Ndb
  import opened PageLayout
  import opened Payloads
  import opened SubNodes
  import opened SubNodeWriter
  import opened Views
  import opened Writer

  // ----- the blocks of every node

  /** Nodes that can be written to an empty file: told apart, with data and subnodes as large as the format allows. */
  ghost predicate NodesFit(nodes: seq<Node>)
  {
    NestFits(EMPTY_DISK, nodes)
  }

  /**
   * What the file must hold for a node: its data under one identifier, and under the other the nest of its subnodes.
   */
  ghost predicate NodeHeld(file: seq<byte>, getBBT: GetBBT, rank: Rank, entry: SLEntry, node: Node)
    requires Acyclic(file, getBBT, rank)
  {
    && entry.nid == node.nid
    && getBBT(entry.bidData).Some? && Readable(file, getBBT, getBBT(entry.bidData).value, node.payload)
    && InNest(rank, entry.bidSub) && Built(file, getBBT, rank, entry.bidSub).Some?
    && Mirrors(file, getBBT, Built(file, getBBT, rank, entry.bidSub).value, node.children)
  }

  /** Every node that was written is held, whatever is written after it and whatever else is listed. */
  lemma {:induction false} NodesHeld(d: Disk, nodes: seq<Node>, file: seq<byte>, getBBT: GetBBT, rank: Rank, i: nat)
    requires NestFits(d, nodes) && Acyclic(file, getBBT, rank) && i < |nodes|
    requires var (e, entries, blocks) := WriteSubNodes(d, nodes);
      Prefix(e.file, file) && Refines(Lookup(e.index), getBBT) && forall b :: b in blocks ==> rank(b).Some?
    ensures NodeHeld(file, getBBT, rank, WriteSubNodes(d, nodes).1[i], nodes[i])
  {
    hide Written, WriteNested, Extends, Sound, Refines, Prefix, Lookup, Formed, NestRoom, Room, Acyclic, Readable,
      Mirrors, Built;
    var n := |nodes| - 1;
    LastFits(d, nodes, d.count);
    var (before, entries, blocks) := WriteSubNodes(d, nodes[..n]);
    LastFits(d, nodes, before.count);
    var (e, root) := Written(before, nodes[n].payload);
    var (after, bidSub, nested) := WriteNested(e, nodes[n].children);
    EarlierKept(e, after, file, getBBT);
    EarlierKept(before, e, file, getBBT);
    if i < n {
      NodesHeld(d, nodes[..n], file, getBBT, rank, i);
    } else {
      PayloadReadable(before, nodes[n].payload, file, getBBT);
      RootResolved(file, getBBT, root, nodes[n].payload);
      var t := BuildsNested(e, nodes[n].children, file, getBBT, rank);
    }
  }

  // ----- the block tree

  /** A block entry as the page parser caches it. */
  function BlockEntry(e: BBTEntry): (r: Entry)
    ensures AsBBTEntry(r) == e && r.bid == e.bref.bid && Printed(BlockIndex, 24, r)
  {
    assert BBTEntryBytes(e) + [] == BBTEntryBytes(e);
    BBTEntryRoundTrip(e, []);
    var r := EntryOf(BBTEntryBytes(e)).value;
    assert r.data[..24] == BBTEntryBytes(e);
    r
  }

  /** The index in the order of its identifiers, as far as they are below `n`. */
  function BlockEntries(index: map<uint64, BBTEntry>, n: nat): seq<Entry>
    requires n <= 0x1_0000_0000_0000_0000
  {
    if n == 0 then []
    else if n - 1 in index then BlockEntries(index, n - 1) + [BlockEntry(index[n - 1])]
    else BlockEntries(index, n - 1)
  }

  lemma {:induction false} BlockEntriesListable(index: map<uint64, BBTEntry>, n: nat)
    requires n <= 0x1_0000_0000_0000_0000 && forall bid :: bid in index ==> index[bid].bref.bid == bid
    ensures Listable(BlockIndex, 24, BlockEntries(index, n)) && |BlockEntries(index, n)| <= n
    ensures forall e :: e in BlockEntries(index, n) ==> e.btkey < n
  {
    hide EntryOf, BlockEntry;
    if n == 0 {
    } else {
      BlockEntriesListable(index, n - 1);
    }
  }

  lemma {:induction false} BlockEntriesFound(index: map<uint64, BBTEntry>, n: nat, id: uint64)
    requires n <= 0x1_0000_0000_0000_0000 && forall bid :: bid in index ==> index[bid].bref.bid == bid
    ensures FirstWithKey(BlockIndex, BlockEntries(index, n), id)
            == if id < n && id in index then Some(BlockEntry(index[id])) else None
  {
    if n == 0 {
      hide BlockEntry;
    } else {
      hide BlockEntry, BlockEntries, FirstWithKey, CachesItsKeys, Printed;
      BlockEntriesStep(index, n);
      BlockEntriesFound(index, n - 1, id);
      if n - 1 in index {
        FirstOfConcat(BlockIndex, BlockEntries(index, n - 1), [BlockEntry(index[n - 1])], id);
        FirstOfOne(BlockIndex, BlockEntry(index[n - 1]), id);
      }
    }
  }

  lemma BlockEntriesStep(index: map<uint64, BBTEntry>, n: nat)
    requires 0 < n <= 0x1_0000_0000_0000_0000
    ensures BlockEntries(index, n)
            == BlockEntries(index, n - 1) + if n - 1 in index then [BlockEntry(index[n - 1])] else []
  {
    hide BlockEntry;
  }

  lemma FirstOfOne(kind: IndexKind, e: Entry, id: nat)
    ensures FirstWithKey(kind, [e], id) == if KeyOf(kind, e) == id then Some(e) else None
  {
    hide CachesItsKeys;
  }

  /** A loaded block tree with these leaves answers every lookup as the index does. */
  lemma BlockTreeIsIndex(blockTree: BTPage, d: Disk)
    requires Sound(d) && Shaped(blockTree) && Sorted(BlockIndex, blockTree)
    requires LeafEntries(BlockIndex, blockTree) == BlockEntries(d.index, 4 * d.count + 4)
    ensures forall bid: uint64 :: TreeLookup(blockTree)(bid) == Lookup(d.index)(bid)
  {
    hide LeafEntries, BlockEntries, BlockEntry, Sorted, LowerBounded, Get, FirstWithKey, AsBBTEntry;
    SortedIsBounded(BlockIndex, blockTree);
    forall bid: uint64
      ensures TreeLookup(blockTree)(bid) == Lookup(d.index)(bid)
    {
      GetScansLeaves(BlockIndex, blockTree, bid);
      BlockEntriesFound(d.index, 4 * d.count + 4, bid);
    }
  }

  // ----- the node tree

  function NodeEntry(e: SLEntry): (r: Entry)
    ensures AsNBTEntry(r).bidData == e.bidData && AsNBTEntry(r).bidSub == e.bidSub
    ensures r.nid == e.nid && Printed(NodeIndex, 32, r)
  {
    var nbt := NBTEntry(e.nid, 0, e.bidData, e.bidSub, 0);
    NBTEntryRoundTrip(nbt);
    NBTFields(nbt, NBTEntryBytes(nbt));
    var r := EntryOf(NBTEntryBytes(nbt)).value;
    assert NBTEntryBytes(nbt) + Zeros(0) == NBTEntryBytes(nbt);
    assert r.data[..32] == NBTEntryBytes(nbt);
    r
  }

  ghost predicate InOrder(nodes: seq<Node>)
  {
    forall i, j :: 0 <= i < j < |nodes| ==> nodes[i].nid < nodes[j].nid
  }

  ghost predicate SameNames(nodes: seq<Node>, entries: seq<SLEntry>)
  {
    |nodes| == |entries| && forall i :: 0 <= i < |nodes| ==> entries[i].nid == nodes[i].nid
  }

  lemma {:induction false} NamesWritten(d: Disk, nodes: seq<Node>)
    requires NestFits(d, nodes)
    ensures SameNames(nodes, WriteSubNodes(d, nodes).1)
  {
    hide Written, WriteNested, Sound, Formed, NestRoom, Room;
    if nodes == [] {
    } else {
      var n := |nodes| - 1;
      LastFits(d, nodes, d.count);
      LastFits(d, nodes, WriteSubNodes(d, nodes[..n]).0.count);
      NamesWritten(d, nodes[..n]);
    }
  }

  function NodeEntries(entries: seq<SLEntry>): (r: seq<Entry>)
    ensures |r| == |entries|
  {
    seq(|entries|, i requires 0 <= i < |entries| => NodeEntry(entries[i]))
  }

  lemma NodeEntriesListable(nodes: seq<Node>, entries: seq<SLEntry>)
    requires SameNames(nodes, entries) && InOrder(nodes)
    ensures Listable(NodeIndex, 32, NodeEntries(entries))
  {
    hide NodeEntry, EntryOf;
  }

  /** The position of a node, if the store has it. */
  function IndexOf(nodes: seq<Node>, nid: uint32): (r: Option<nat>)
    ensures r.Some? ==> r.value < |nodes| && nodes[r.value].nid == nid
    ensures r.None? ==> forall n :: n in nodes ==> n.nid != nid
  {
    if nodes == [] then None
    else if nodes[0].nid == nid then Some(0)
    else
      var i :- IndexOf(nodes[1..], nid);
      Some(i + 1)
  }

  lemma {:induction false} NodeEntriesFound(nodes: seq<Node>, entries: seq<SLEntry>, nid: uint32)
    requires SameNames(nodes, entries)
    ensures FirstWithKey(NodeIndex, NodeEntries(entries), nid)
            == var i := IndexOf(nodes, nid); if i.None? then None else Some(NodeEntry(entries[i.value]))
  {
    hide NodeEntry, CachesItsKeys, Printed;
    if nodes == [] {
    } else {
      hide FirstWithKey, NodeEntries;
      NodeEntriesFound(nodes[1..], entries[1..], nid);
      NodeEntriesCons(entries);
      FirstOfConcat(NodeIndex, [NodeEntry(entries[0])], NodeEntries(entries[1..]), nid);
      FirstOfOne(NodeIndex, NodeEntry(entries[0]), nid);
    }
  }

  lemma NodeEntriesCons(entries: seq<SLEntry>)
    requires entries != []
    ensures NodeEntries(entries) == [NodeEntry(entries[0])] + NodeEntries(entries[1..])
  {
    hide NodeEntry;
  }

  // ----- the file

  datatype Image = Image(file: seq<byte>, nodeBTreeRootPage: BREF, blockBTreeRootPage: BREF)

  const MAX_LEVEL: nat := 8

  /** The least level at which a tree holds `n` entries. */
  function LevelFor(size: nat, n: nat, level: byte): (r: byte)
    requires 8 <= size <= ENTRY_MAX_SIZE && level <= MAX_LEVEL && n <= Capacity(size, MAX_LEVEL)
    ensures r <= MAX_LEVEL && n <= Capacity(size, r)
    decreases MAX_LEVEL - level
  {
    if n <= Capacity(size, level) || level == MAX_LEVEL then level else LevelFor(size, n, level + 1)
  }

  lemma {:induction false} EveryNodeTakesRoom(nodes: seq<Node>)
    ensures |nodes| <= NestRoom(nodes)
  {
    hide Room;
    if nodes == [] {
    } else {
      EveryNodeTakesRoom(nodes[..|nodes| - 1]);
    }
  }

  /** Trees of eight inner levels hold more entries than there are blocks or nodes, and fit the file. */
  lemma TreesAreBounded(level: nat)
    requires level <= MAX_LEVEL
    ensures 4 * MAX_BLOCKS + 4 <= Capacity(24, MAX_LEVEL) && MAX_BLOCKS <= Capacity(32, MAX_LEVEL)
    ensures TreeBytes(level) <= 0x1000_0000_0000
  {
    assert Capacity(24, 2) == 8000 && Capacity(32, 2) == 6000;
    assert Capacity(24, 4) == 3_200_000 && Capacity(32, 4) == 2_400_000;
    assert Capacity(24, 6) == 1_280_000_000 && Capacity(32, 6) == 960_000_000;
    assert TreeBytes(2) == 215_552;
    assert TreeBytes(4) == 86_231_552;
    assert TreeBytes(6) == 34_492_631_552;
    assert TreeBytes(8) == 13_797_052_631_552;
  }

  /** The pages of the block tree of a disk. */
  function WriteBlockTree(d: Disk): (r: (seq<byte>, BREF))
    requires Sound(d)
    ensures Prefix(d.file, r.0) && |r.0| <= |d.file| + 0x1000_0000_0000
  {
    hide Capacity, TreeBytes, Listable;
    var n := 4 * d.count + 4;
    BlockEntriesListable(d.index, n);
    TreesAreBounded(0);
    var blocks := BlockEntries(d.index, n);
    var level := LevelFor(24, |blocks|, 0);
    TreesAreBounded(level);
    WriteTree(BlockIndex, d.file, blocks, 24, level)
  }

  /** The pages of a node tree. */
  function WriteNodeTree(file: seq<byte>, entries: seq<Entry>): (r: (seq<byte>, BREF))
    requires |entries| <= MAX_BLOCKS && |file| <= 0x10_0000_0000_0000
    ensures Prefix(file, r.0)
  {
    hide Capacity, TreeBytes;
    TreesAreBounded(0);
    var level := LevelFor(32, |entries|, 0);
    TreesAreBounded(level);
    WriteTree(NodeIndex, file, entries, 32, level)
  }

  /** The blocks of all nodes, then the pages of the block tree, then those of the node tree. */
  function WriteStore(nodes: seq<Node>): Image
    requires NodesFit(nodes)
  {
    EveryNodeTakesRoom(nodes);
    var (d, entries, _) := WriteSubNodes(EMPTY_DISK, nodes);
    var (f, blockRoot) := WriteBlockTree(d);
    var (g, nodeRoot) := WriteNodeTree(f, NodeEntries(entries));
    Image(g, nodeRoot, blockRoot)
  }

  lemma BlockTreeLoads(d: Disk, file: seq<byte>) returns (blockTree: BTPage)
    requires Sound(d) && Prefix(WriteBlockTree(d).0, file)
    ensures LoadedPage(file, WriteBlockTree(d).1, -1) == Some(blockTree)
    ensures forall bid: uint64 :: TreeLookup(blockTree)(bid) == Lookup(d.index)(bid)
  {
    hide LoadedPage, TreeLookup, Lookup, WriteTree, BlockEntries, LevelFor, Capacity, TreeBytes, Listable;
    var n := 4 * d.count + 4;
    BlockEntriesListable(d.index, n);
    TreesAreBounded(0);
    var blocks := BlockEntries(d.index, n);
    var level := LevelFor(24, |blocks|, 0);
    TreesAreBounded(level);
    TreeLoads(BlockIndex, d.file, blocks, 24, level, file, -1);
    blockTree := LoadedPage(file, WriteBlockTree(d).1, -1).value;
    BlockTreeIsIndex(blockTree, d);
  }

  lemma NodeTreeLoads(before: seq<byte>, entries: seq<Entry>, file: seq<byte>) returns (nodeTree: BTPage)
    requires |entries| <= MAX_BLOCKS && |before| <= 0x10_0000_0000_0000 && Listable(NodeIndex, 32, entries)
    requires Prefix(WriteNodeTree(before, entries).0, file)
    ensures LoadedPage(file, WriteNodeTree(before, entries).1, -1) == Some(nodeTree)
    ensures Sorted(NodeIndex, nodeTree) && LeafEntries(NodeIndex, nodeTree) == entries
  {
    hide LoadedPage, WriteTree, LevelFor, Capacity, TreeBytes, Listable;
    TreesAreBounded(0);
    var level := LevelFor(32, |entries|, 0);
    TreesAreBounded(level);
    TreeLoads(NodeIndex, before, entries, 32, level, file, -1);
    nodeTree := LoadedPage(file, WriteNodeTree(before, entries).1, -1).value;
  }

  /** Both trees load: the block tree answers as the index does, the node tree lists every node. */
  lemma TreesLoad(nodes: seq<Node>) returns (nodeTree: BTPage, blockTree: BTPage)
    requires NodesFit(nodes) && InOrder(nodes)
    ensures var image, (d, entries, _) := WriteStore(nodes), WriteSubNodes(EMPTY_DISK, nodes);
      && LoadedPage(image.file, image.nodeBTreeRootPage, -1) == Some(nodeTree)
      && LoadedPage(image.file, image.blockBTreeRootPage, -1) == Some(blockTree)
      && Prefix(d.file, image.file)
      && (forall bid: uint64 :: TreeLookup(blockTree)(bid) == Lookup(d.index)(bid))
      && Sorted(NodeIndex, nodeTree) && LeafEntries(NodeIndex, nodeTree) == NodeEntries(entries)
      && SameNames(nodes, entries)
  {
    hide LoadedPage, TreeLookup, Lookup, WriteBlockTree, WriteNodeTree, WriteSubNodes, NodeEntries, InOrder, Listable,
      Prefix, Sorted, LeafEntries, SameNames, Formed, NestRoom;
    EveryNodeTakesRoom(nodes);
    NamesWritten(EMPTY_DISK, nodes);
    var (d, entries, _) := WriteSubNodes(EMPTY_DISK, nodes);
    var f := WriteBlockTree(d).0;
    var g := WriteNodeTree(f, NodeEntries(entries)).0;
    NodeEntriesListable(nodes, entries);
    PrefixTransitive(d.file, f, g);
    PrefixReflexive(g);
    blockTree := BlockTreeLoads(d, g);
    nodeTree := NodeTreeLoads(f, NodeEntries(entries), g);
  }

  lemma PrefixReflexive(file: seq<byte>)
    ensures Prefix(file, file)
  {
  }

  /** A node is found exactly when it was written, with the identifiers of its root block and of its subnodes. */
  lemma NodeFound(nodeTree: BTPage, nodes: seq<Node>, entries: seq<SLEntry>, nid: uint32)
    requires SameNames(nodes, entries) && Shaped(nodeTree) && Sorted(NodeIndex, nodeTree)
    requires LeafEntries(NodeIndex, nodeTree) == NodeEntries(entries)
    ensures var found, i := Get(NodeIndex, nodeTree, nid), IndexOf(nodes, nid);
      && (found.Some? <==> i.Some?)
      && (i.Some? ==> AsNBTEntry(found.value).bidData == entries[i.value].bidData)
      && (i.Some? ==> AsNBTEntry(found.value).bidSub == entries[i.value].bidSub)
  {
    hide NodeEntry, AsNBTEntry, Get, LeafEntries, Sorted, Shaped;
    SortedIsBounded(NodeIndex, nodeTree);
    GetScansLeaves(NodeIndex, nodeTree, nid);
    NodeEntriesFound(nodes, entries, nid);
  }

  predicate Listed(nodes: seq<Node>, nid: uint32)
  {
    IndexOf(nodes, nid).Some?
  }

  /** The three nodes that every store must have: message store, name-to-id map, root folder. */
  predicate HasRequiredNodes(nodes: seq<Node>)
  {
    Listed(nodes, 0x21) && Listed(nodes, 0x61) && Listed(nodes, 0x122)
  }

  function OpenedStore(nodes: seq<Node>): (r: Option<NDB>)
    requires NodesFit(nodes)
    ensures r.Some? ==> Open(r.value)
  {
    var image := WriteStore(nodes);
    Opened(image.file, image.nodeBTreeRootPage, image.blockBTreeRootPage)
  }

  /** What a reader should get for a node of the store. */
  function ExpectedData(nodes: seq<Node>, nid: uint32, dispatch: Dispatch): Option<seq<byte>>
  {
    var i :- IndexOf(nodes, nid);
    Expectation(nodes[i].payload, dispatch)
  }

  /** A written store can be opened exactly when it has the required nodes. */
  lemma StoreOpens(nodes: seq<Node>)
    requires NodesFit(nodes) && InOrder(nodes)
    ensures OpenedStore(nodes).Some? <==> HasRequiredNodes(nodes)
  {
    hide LoadedPage, WriteStore, WriteSubNodes, TreeLookup, Lookup, Get, LeafEntries, Sorted, Shaped, NestFits,
      SameNames, NodeEntries;
    var nodeTree, blockTree := TreesLoad(nodes);
    var (d, entries, _) := WriteSubNodes(EMPTY_DISK, nodes);
    NodeFound(nodeTree, nodes, entries, NID_MESSAGE_STORE);
    NodeFound(nodeTree, nodes, entries, NID_NAME_TO_ID_MAP);
    NodeFound(nodeTree, nodes, entries, NID_ROOT_FOLDER);
  }

  /** The rank of the SL blocks of a written store. */
  ghost function StoreRank(nodes: seq<Node>): Rank
    requires NodesFit(nodes)
  {
    NestRank(WriteSubNodes(EMPTY_DISK, nodes).2)
  }

  /** What an open store holds for a node: an entry of the node tree that leads to its data and to its subnodes. */
  ghost predicate NodeStored(nodes: seq<Node>, ndb: NDB, i: nat)
    requires Open(ndb) && NodesFit(nodes) && i < |nodes|
    requires Acyclic(ndb.file, TreeLookup(ndb.rootBBT), StoreRank(nodes))
  {
    && Get(NodeIndex, ndb.rootNBT, nodes[i].nid).Some?
    && var nbt := AsNBTEntry(Get(NodeIndex, ndb.rootNBT, nodes[i].nid).value);
       var entry := SLEntry(nodes[i].nid, nbt.bidData, nbt.bidSub);
       NodeHeld(ndb.file, TreeLookup(ndb.rootBBT), StoreRank(nodes), entry, nodes[i])
  }

  /** An open store holds exactly the nodes written, and its SL blocks form no cycle. */
  lemma StoreHolds(nodes: seq<Node>, nid: uint32)
    requires NodesFit(nodes) && InOrder(nodes) && HasRequiredNodes(nodes)
    ensures OpenedStore(nodes).Some?
    ensures var ndb, i := OpenedStore(nodes).value, IndexOf(nodes, nid);
      && Acyclic(ndb.file, TreeLookup(ndb.rootBBT), StoreRank(nodes))
      && if i.None? then Get(NodeIndex, ndb.rootNBT, nid).None? else NodeStored(nodes, ndb, i.value)
  {
    hide LoadedPage, WriteStore, WriteSubNodes, TreeLookup, Lookup, Get, LeafEntries, Sorted, Shaped, Verified,
      AsNBTEntry, NodeEntries, HasRequiredNodes, InOrder, Prefix, NestFits, NestRank, Acyclic, NestHeld;
    StoreOpens(nodes);
    var nodeTree, blockTree := TreesLoad(nodes);
    var (d, entries, blocks) := WriteSubNodes(EMPTY_DISK, nodes);
    var file, getBBT := WriteStore(nodes).file, TreeLookup(blockTree);
    NodeFound(nodeTree, nodes, entries, nid);
    EarlierBlocksHeld(EMPTY_DISK, nodes, file, getBBT);
    HeldIsAcyclic(file, getBBT, blocks);
    RanksItsBlocks(blocks);
    var i := IndexOf(nodes, nid);
    if i.Some? {
      NodesHeld(EMPTY_DISK, nodes, file, getBBT, NestRank(blocks), i.value);
    }
  }

  lemma RanksItsBlocks(blocks: set<uint64>)
    ensures forall b :: b in blocks ==> NestRank(blocks)(b).Some?
  {
  }

  /**
   * End to end, from bytes to bytes: reading a node of a store that was written and opened gives exactly the data
   * written for that node, and nothing for a node that was not written. Every step is the loader's: pages, search,
   * decoding, blocks, trailers, signatures, CRCs, cipher. Only an XX block is refused, and only when roots are read as
   * written.
   */
  lemma StoreReads(nodes: seq<Node>, nid: uint32, dispatch: Dispatch)
    requires NodesFit(nodes) && InOrder(nodes) && HasRequiredNodes(nodes)
    ensures OpenedStore(nodes).Some?
    ensures NodeData(OpenedStore(nodes).value, nid, dispatch) == ExpectedData(nodes, nid, dispatch)
  {
    hide OpenedStore, TreeLookup, Get, Shaped, LoadedData, AsNBTEntry, Expectation, HasRequiredNodes, InOrder, NestFits,
      Acyclic, Built, Mirrors, StoreRank;
    StoreHolds(nodes, nid);
  }

  /** The same of the loops of the source: its constructors and methods, on a file that was written, read every node. */
  method ReadBack(nodes: seq<Node>, nid: uint32, dispatch: Dispatch) returns (r: Option<seq<byte>>)
    requires NodesFit(nodes) && InOrder(nodes) && HasRequiredNodes(nodes)
    ensures r == ExpectedData(nodes, nid, dispatch)
  {
    hide WriteStore, Opened, NodeData, ExpectedData, HasRequiredNodes, NestFits;
    StoreReads(nodes, nid, dispatch);
    var image := WriteStore(nodes);
    var ndb := InitNDB(image.file, image.nodeBTreeRootPage, image.blockBTreeRootPage);
    r := ReadNode(ndb.value, nid, dispatch);
  }

  /**
   * And of its subnodes: `get` for the node, `InitSubNodeBTree` under its subnode identifier, `getDataTree` for the
   * subnode, all through the trees of the file. The result is the data written for the subnode at some nesting level of
   * that node, the first level if it is there, and no tree exactly when the node has no such subnode.
   */
  method ReadBackSubNode(nodes: seq<Node>, nid: uint32, sub: uint32, dispatch: Dispatch) returns (r: Option<Found>)
    requires NodesFit(nodes) && InOrder(nodes) && HasRequiredNodes(nodes)
    ensures r.None? <==> IndexOf(nodes, nid).None?
    ensures r.Some? ==> ShowsSubNode(r.value, nodes[IndexOf(nodes, nid).value].children, sub, dispatch)
  {
    hide WriteStore, Opened, HasRequiredNodes, NestFits, Get, AsNBTEntry, Acyclic, Built, Mirrors, StoreRank, Readable,
      TreeLookup, ShowsSubNode, Shaped;
    StoreHolds(nodes, nid);
    var image := WriteStore(nodes);
    var read := InitNDB(image.file, image.nodeBTreeRootPage, image.blockBTreeRootPage);
    var ndb := read.value;
    var found := GetEntry(NodeIndex, ndb.rootNBT, nid);
    if found.None? {
      return None;
    }
    var nbt := ReadNBTEntry(found.value);
    var t := Ndb.InitSubNodeBTree(ndb.file, ndb.rootBBT, StoreRank(nodes), nbt.bidSub);
    ghost var node := nodes[IndexOf(nodes, nid).value];
    NodeFormed(nodes, IndexOf(nodes, nid).value);
    var shown := FindSubNode(ndb.file, TreeLookup(ndb.rootBBT), t.value, node.children, sub, dispatch);
    return Some(shown);
  }

  lemma NodeFormed(nodes: seq<Node>, i: nat)
    requires NodesFit(nodes) && i < |nodes|
    ensures Formed(nodes[i].children)
  {
    assert FormedNode(nodes[i]);
  }

  /** Such stores exist: the smallest has the required nodes, without data and without subnodes. */
  lemma SmallestStore(nodes: seq<Node>)
    requires nodes == [Node(0x21, [], []), Node(0x61, [], []), Node(0x122, [], [])]
    ensures NodesFit(nodes) && InOrder(nodes) && HasRequiredNodes(nodes)
    ensures OpenedStore(nodes).Some?
  {
    hide OpenedStore, Room;
    RoomOfNothing();
    RoomParts(nodes);
    RoomParts(nodes[..2]);
    RoomParts(nodes[..2][..1]);
    assert nodes[..2][1] == nodes[1] && nodes[..2][..1][0] == nodes[0] && nodes[..2][..1][..0] == [];
    assert nodes[1..][0] == nodes[1] && nodes[1..][1..][0] == nodes[2];
    assert Formed([]);
    assert forall i :: 0 <= i < |nodes| ==> FormedNode(nodes[i]);
    assert Formed(nodes) && NestRoom(nodes) == 3 * 1024;
    StoreOpens(nodes);
  }
}
