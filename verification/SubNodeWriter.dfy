/**
 * A writer for subnodes: SL blocks in the documented layout (section 2.2.2.8.3.3.1 of [MS-PST]), nested to any depth,
 * and the theorem that building from what was written gives the nest that was written.
 */
module SubNodeWriter {
  import opened Blocks
  import opened Bytes
  import opened DataTreeTheory
  import opened DataTrees
  import opened Ids
  import opened Ndb
  import opened Payloads
  import opened RoundTrip
  import opened SubNodes
  import opened Views
  import opened Writer

  // ----- SL blocks

  /** SL entries that fit a block. */
  const MAX_SL_ENTRIES: nat := 340

  function SLEntryBytes(e: SLEntry): (r: seq<byte>)
    ensures |r| == 24
  {
    ToLE(e.nid, 8) + ToLE(e.bidData, 8) + ToLE(e.bidSub, 8)
  }

  function SLEntriesBytes(entries: seq<SLEntry>): (r: seq<seq<byte>>)
    ensures |r| == |entries| && forall c :: c in r ==> |c| == 24
  {
    seq(|entries|, i requires 0 <= i < |entries| => SLEntryBytes(entries[i]))
  }

  /** The raw bytes of an SL block. */
  function SLRaw(entries: seq<SLEntry>): (r: seq<byte>)
    requires |entries| <= MAX_SL_ENTRIES
    ensures |r| == 8 + 24 * |entries|
  {
    FlattenSize(SLEntriesBytes(entries), 24);
    [0x02, 0x00] + ToLE(|entries|, 2) + ToLE(0, 4) + Flatten(SLEntriesBytes(entries))
  }

  lemma SLEntryRoundTrip(e: SLEntry)
    ensures SLEntryOf(SLEntryBytes(e)) == e
  {
    Pow256Values();
    var a, b, c := ToLE(e.nid, 8), ToLE(e.bidData, 8), ToLE(e.bidSub, 8);
    var bytes := SLEntryBytes(e);
    assert bytes == a + b + c;
    assert bytes[8..16] == b;
    assert bytes[16..24] == c;
    DecodeEncode(e.nid, 8);
    DecodeEncode(e.bidData, 8);
    DecodeEncode(e.bidSub, 8);
    assert bytes[0..4] == a[..4];
    LowHalf(e.nid, a);
  }

  /** The low four of the eight bytes of a 32-bit number. */
  lemma LowHalf(n: uint32, bytes: seq<byte>)
    requires |bytes| == 8 && FromLE(bytes) == n
    ensures FromLE(bytes[..4]) == n
  {
    FromLE8(bytes);
    FromLEBound(bytes[..4]);
    Pow256Values();
  }

  lemma SLEntriesRoundTrip(entries: seq<SLEntry>)
    ensures SLEntriesOf(SLEntriesBytes(entries)) == entries
  {
    hide SLEntryOf, SLEntryBytes;
    forall i | 0 <= i < |entries|
      ensures SLEntryOf(SLEntriesBytes(entries)[i]) == entries[i]
    {
      SLEntryRoundTrip(entries[i]);
    }
  }

  lemma SLFields(entries: seq<SLEntry>, tail: seq<byte>)
    requires |entries| <= MAX_SL_ENTRIES
    ensures var s := SLRaw(entries) + tail; s[0] == 0x02 && s[1] == 0x00 && Field(s, 2, 2) == Some(|entries|)
    ensures Chunks(SLRaw(entries) + tail, 8, |entries|, 24) == Some(SLEntriesBytes(entries))
  {
    hide FromLE, Field, Chunks, Flatten, SLEntriesBytes;
    Pow256Values();
    var start: seq<byte> := [0x02, 0x00];
    var count, padding, flat := ToLE(|entries|, 2), ToLE(0, 4), Flatten(SLEntriesBytes(entries));
    var s := SLRaw(entries) + tail;
    assert s == start + count + (padding + flat + tail);
    FieldOfConcat(start, |entries|, 2, padding + flat + tail);
    assert s == (start + count + padding) + flat + tail;
    ChunksOfFlatten(start + count + padding, SLEntriesBytes(entries), 24, tail);
  }

  /** An SL block written for some place is accepted there, whatever identifier its trailer has. */
  lemma SLBlockReads(entries: seq<SLEntry>, bref: BREF, stated: uint64)
    requires 0 < |entries| <= MAX_SL_ENTRIES && IsInternal(bref.bid)
    ensures var bytes := StoredUnder(SLRaw(entries), bref, stated);
      bytes[1] == 0x00 && SLBlockOf(bytes, bref) == Some(entries)
  {
    hide TrailerOf, FromLE, Field, Chunks, SLRaw, StoredUnder, SLEntriesOf, SLEntriesBytes;
    var raw := SLRaw(entries);
    var bytes := StoredUnder(raw, bref, stated);
    StoredUnderTrailer(raw, bref, stated);
    StoredUnderStart(raw, bref, stated);
    SLFields(entries, bytes[|raw|..]);
    FirstBytes(bytes);
    SLEntriesRoundTrip(entries);
  }

  /** An SL block written for some place is accepted there and gives its entries back. */
  lemma SLBlockRoundTrip(entries: seq<SLEntry>, bref: BREF)
    requires 0 < |entries| <= MAX_SL_ENTRIES && IsInternal(bref.bid)
    ensures var bytes := Stored(SLRaw(entries), bref); bytes[1] == 0x00 && SLBlockOf(bytes, bref) == Some(entries)
  {
    hide SLRaw, StoredUnder, SLBlockOf;
    SLBlockReads(entries, bref, bref.bid);
  }

  // ----- SL blocks that are accepted although something is wrong with them

  /**
   * An SL block with other entries than its CRC was computed from is accepted, and the other entries are what is read.
   */
  lemma AlteredSLBlockAccepted(entries: seq<SLEntry>, others: seq<SLEntry>, bref: BREF)
    requires 0 < |entries| == |others| <= MAX_SL_ENTRIES && IsInternal(bref.bid)
    ensures var good := Stored(SLRaw(entries), bref);
      var bytes := SLRaw(others) + good[8 + 24 * |entries|..];
      && TrailerAtEnd(bytes, bref) == TrailerAtEnd(good, bref)
      && SLBlockOf(bytes, bref) == Some(others)
  {
    hide TrailerOf, FromLE, Field, Chunks, SLRaw, Stored, SLEntriesOf, SLEntriesBytes;
    var good := Stored(SLRaw(entries), bref);
    var tail := good[8 + 24 * |entries|..];
    var bytes := SLRaw(others) + tail;
    StoredTrailer(SLRaw(entries), bref);
    AlignedSizeIsLeast(8 + 24 * |entries|, 0);
    SameEnd(SLRaw(others), good, 8 + 24 * |entries|, bref);
    SLFields(others, tail);
    FirstBytes(bytes);
    SLEntriesRoundTrip(others);
  }

  /**
   * Of an SL block, the root of a nest included, neither the count nor the identifier in the index is compared: any
   * count that rounds up to the same size and any identifier in the trailer are accepted.
   */
  lemma WrongSLIndexAccepted(file: seq<byte>, getBBT: GetBBT, bid: uint64, entries: seq<SLEntry>, stated: uint64)
    requires 0 < |entries| <= MAX_SL_ENTRIES && getBBT(bid).Some? && IsInternal(getBBT(bid).value.bref.bid)
    requires SubNodeBlockSize(getBBT(bid).value.cb) == SubNodeBlockSize(8 + 24 * |entries|)
    requires var bref := getBBT(bid).value.bref; Holds(file, bref.ib, StoredUnder(SLRaw(entries), bref, stated))
    ensures SLEntriesAt(file, getBBT, bid) == Some(entries)
  {
    hide SLRaw, StoredUnder, SLBlockOf;
    var bref := getBBT(bid).value.bref;
    BlockSizesAgree(8 + 24 * |entries|);
    SLBlockReads(entries, bref, stated);
  }

  /** For one, a block of 32 bytes that says that it is block 6, listed as block 2 with 33 bytes. */
  lemma WrongSLIndexExample(entry: BBTEntry, entries: seq<SLEntry>)
    requires entry == BBTEntry(BREF(2, 0), 33, 1, 0) && entries == [SLEntry(1, 4, 0)]
    ensures SLEntriesAt(StoredUnder(SLRaw(entries), entry.bref, 6), OnlyEntry(entry), 2) == Some(entries)
  {
    hide SLRaw, StoredUnder, SLEntriesAt;
    var file := StoredUnder(SLRaw(entries), entry.bref, 6);
    assert file[0..|file|] == file;
    WrongSLIndexAccepted(file, OnlyEntry(entry), 2, entries, 6);
  }

  // ----- nests

  /** A node or subnode: its data, and the subnodes nested in it. */
  datatype Node = Node(nid: uint32, payload: seq<byte>, children: seq<Node>)

  /**
   * What the format allows: nodes told apart by their identifiers, whose subnodes fit one SL block, and so on below.
   */
  predicate Formed(nodes: seq<Node>)
  {
    && (forall i, j :: 0 <= i < j < |nodes| ==> nodes[i].nid != nodes[j].nid)
    && (forall i :: 0 <= i < |nodes| ==> FormedNode(nodes[i]))
  }

  predicate FormedNode(node: Node)
  {
    |node.payload| <= XX_CAPACITY && |node.children| <= MAX_SL_ENTRIES && Formed(node.children)
  }

  function NestRoom(nodes: seq<Node>): nat
  {
    if nodes == [] then 0
    else
      var n := |nodes| - 1;
      NestRoom(nodes[..n]) + Room(nodes[n].payload) + NestRoom(nodes[n].children) + 1
  }

  ghost predicate NestFits(d: Disk, nodes: seq<Node>)
  {
    Sound(d) && Formed(nodes) && d.count + NestRoom(nodes) < MAX_BLOCKS
  }

  /** The parts of a nest with a last subnode have room one after the other. */
  lemma LastFits(d: Disk, nodes: seq<Node>, count: nat)
    requires NestFits(d, nodes) && nodes != []
    ensures var n := |nodes| - 1;
      && NestFits(d, nodes[..n]) && FormedNode(nodes[n])
      && (count <= d.count + NestRoom(nodes[..n]) ==>
            count + Room(nodes[n].payload) + NestRoom(nodes[n].children) + 1 <= d.count + NestRoom(nodes) < MAX_BLOCKS)
  {
    hide Formed, Room, NestRoom;
    FormedParts(nodes);
    RoomParts(nodes);
  }

  lemma FormedParts(nodes: seq<Node>)
    requires Formed(nodes) && nodes != []
    ensures var n := |nodes| - 1; Formed(nodes[..n]) && FormedNode(nodes[n])
  {
    hide FormedNode;
  }

  lemma RoomParts(nodes: seq<Node>)
    requires nodes != []
    ensures var n := |nodes| - 1;
      NestRoom(nodes) == NestRoom(nodes[..n]) + Room(nodes[n].payload) + NestRoom(nodes[n].children) + 1
  {
    hide Room;
  }

  ghost predicate Indexed(d: Disk, blocks: set<uint64>)
  {
    forall b :: b in blocks ==> b in d.index
  }

  lemma IndexedLater(d: Disk, e: Disk, blocks: set<uint64>)
    requires Indexed(d, blocks) && Extends(d, e)
    ensures Indexed(e, blocks)
  {
  }

  lemma IndexedUnion(d: Disk, a: set<uint64>, b: set<uint64>)
    requires Indexed(d, a) && Indexed(d, b)
    ensures Indexed(d, a + b)
  {
  }

  ghost predicate Refers(entries: seq<SLEntry>, blocks: set<uint64>)
  {
    forall e :: e in entries && e.bidSub != 0 ==> e.bidSub in blocks
  }

  lemma RefersMore(entries: seq<SLEntry>, e: SLEntry, blocks: set<uint64>, nested: set<uint64>)
    requires Refers(entries, blocks) && (e.bidSub != 0 ==> e.bidSub in nested)
    ensures Refers(entries + [e], blocks + nested)
  {
  }

  /**
   * Writes the data of every subnode, and the SL blocks of nested ones, before the SL block that will list them. The
   * results after the file are the entries to list and the identifiers of the SL blocks written.
   */
  function WriteSubNodes(d: Disk, nodes: seq<Node>): (r: (Disk, seq<SLEntry>, set<uint64>))
    requires NestFits(d, nodes)
    ensures Sound(r.0) && Extends(d, r.0) && r.0.count <= d.count + NestRoom(nodes) && |r.1| == |nodes|
    ensures Indexed(r.0, r.2) && Refers(r.1, r.2)
    decreases nodes, 0
  {
    hide Sound, Extends, Indexed, Refers, Formed, NestRoom, Room;
    if nodes == [] then
      NothingWritten(d);
      (d, [], {})
    else
      var n := |nodes| - 1;
      LastFits(d, nodes, d.count);
      var (before, entries, blocks) := WriteSubNodes(d, nodes[..n]);
      LastFits(d, nodes, before.count);
      var (e, root) := Written(before, nodes[n].payload);
      ExtendsTransitive(d, before, e);
      IndexedLater(before, e, blocks);
      var (after, bidSub, nested) := WriteNested(e, nodes[n].children);
      ExtendsTransitive(d, e, after);
      IndexedLater(e, after, blocks);
      IndexedUnion(after, blocks, nested);
      var entry := SLEntry(nodes[n].nid, root.bref.bid, bidSub);
      RefersMore(entries, entry, blocks, nested);
      (after, entries + [entry], blocks + nested)
  }

  lemma NothingWritten(d: Disk)
    ensures Extends(d, d) && Indexed(d, {}) && Refers([], {}) && NestRoom([]) == 0
  {
  }

  /** The nested SL block of a subnode, if it has subnodes of its own; identifier zero stands for none. */
  function WriteNested(d: Disk, nodes: seq<Node>): (r: (Disk, uint64, set<uint64>))
    requires NestFits(d, nodes) && |nodes| <= MAX_SL_ENTRIES
    ensures Sound(r.0) && Extends(d, r.0) && r.0.count <= d.count + NestRoom(nodes) + 1
    ensures Indexed(r.0, r.2) && (r.1 != 0 ==> r.1 in r.2)
    decreases nodes, 2
  {
    if nodes == [] then (d, 0, {}) else WriteSubNodeBlock(d, nodes)
  }

  /** The subnodes, and then the SL block that lists them. */
  function WriteSubNodeBlock(d: Disk, nodes: seq<Node>): (r: (Disk, uint64, set<uint64>))
    requires NestFits(d, nodes) && 0 < |nodes| <= MAX_SL_ENTRIES
    ensures Sound(r.0) && Extends(d, r.0) && r.0.count <= d.count + NestRoom(nodes) + 1
    ensures Indexed(r.0, r.2) && r.1 in r.2
    decreases nodes, 1
  {
    var (e, entries, blocks) := WriteSubNodes(d, nodes);
    var (f, entry) := Append(e, SLRaw(entries), true);
    AppendHolds(e, SLRaw(entries), true);
    ExtendsTransitive(d, e, f);
    (f, entry.bref.bid, blocks + {entry.bref.bid})
  }

  // ----- the blocks of a nest form no cycle

  /** The identifiers themselves rank the blocks of a nest: a block is written after those nested in it. */
  function NestRank(blocks: set<uint64>): Rank
  {
    (bid: uint64) => if bid in blocks then Some(bid as nat) else None
  }

  ghost predicate NestHeld(file: seq<byte>, getBBT: GetBBT, blocks: set<uint64>)
  {
    forall b :: b in blocks ==> BlockHeld(file, getBBT, blocks, b)
  }

  ghost predicate BlockHeld(file: seq<byte>, getBBT: GetBBT, blocks: set<uint64>, b: uint64)
  {
    && SLEntriesAt(file, getBBT, b).Some?
    && forall e :: e in SLEntriesAt(file, getBBT, b).value && e.bidSub != 0 ==> e.bidSub in blocks && e.bidSub < b
  }

  lemma HeldIsAcyclic(file: seq<byte>, getBBT: GetBBT, blocks: set<uint64>)
    requires NestHeld(file, getBBT, blocks)
    ensures Acyclic(file, getBBT, NestRank(blocks))
  {
    hide SLEntriesAt;
    var rank := NestRank(blocks);
    forall bid: uint64 | rank(bid).Some? && SLEntriesAt(file, getBBT, bid).Some?
      ensures NestedBelow(SLEntriesAt(file, getBBT, bid).value, rank, rank(bid).value)
    {
      assert BlockHeld(file, getBBT, blocks, bid);
    }
  }

  lemma HeldUnion(file: seq<byte>, getBBT: GetBBT, a: set<uint64>, b: set<uint64>)
    requires NestHeld(file, getBBT, a) && NestHeld(file, getBBT, b)
    ensures NestHeld(file, getBBT, a + b)
  {
    hide SLEntriesAt;
    forall x | x in a + b
      ensures BlockHeld(file, getBBT, a + b, x)
    {
      assert x in a ==> BlockHeld(file, getBBT, a, x);
      assert x in b ==> BlockHeld(file, getBBT, b, x);
    }
  }

  /** The SL block that was appended is read wherever the file grows to, under every richer index. */
  lemma AppendedSLBlock(d: Disk, entries: seq<SLEntry>, file: seq<byte>, getBBT: GetBBT)
    requires Sound(d) && d.count < MAX_BLOCKS && 0 < |entries| <= MAX_SL_ENTRIES
    requires var e := Append(d, SLRaw(entries), true).0; Prefix(e.file, file) && Refines(Lookup(e.index), getBBT)
    ensures var bid := Append(d, SLRaw(entries), true).1.bref.bid;
      && SLEntriesAt(file, getBBT, bid) == Some(entries)
      && bid != 0 && forall b :: b in d.index ==> b < bid
  {
    hide Append, SLRaw, Stored, SLBlockOf;
    AppendHolds(d, SLRaw(entries), true);
    var (e, entry) := Append(d, SLRaw(entries), true);
    assert getBBT(entry.bref.bid) == Lookup(e.index)(entry.bref.bid);
    var block := Stored(SLRaw(entries), entry.bref);
    ReadBytesStable(e.file, file, entry.bref.ib, |block|);
    BlockSizesAgree(|SLRaw(entries)|);
    SLBlockRoundTrip(entries, entry.bref);
  }

  lemma EarlierBlocksHeld(d: Disk, nodes: seq<Node>, file: seq<byte>, getBBT: GetBBT)
    requires NestFits(d, nodes)
    requires var e := WriteSubNodes(d, nodes).0; Prefix(e.file, file) && Refines(Lookup(e.index), getBBT)
    ensures NestHeld(file, getBBT, WriteSubNodes(d, nodes).2)
    decreases nodes, 0
  {
    hide NestHeld, Written, WriteNested, Extends, Sound, Refines, Prefix, Lookup, Formed, NestRoom, Room;
    if nodes == [] {
      NothingHeld(file, getBBT);
    } else {
      var n := |nodes| - 1;
      LastFits(d, nodes, d.count);
      var (before, _, blocks) := WriteSubNodes(d, nodes[..n]);
      LastFits(d, nodes, before.count);
      var e := Written(before, nodes[n].payload).0;
      var (after, _, nested) := WriteNested(e, nodes[n].children);
      EarlierKept(e, after, file, getBBT);
      EarlierKept(before, e, file, getBBT);
      EarlierBlocksHeld(d, nodes[..n], file, getBBT);
      NestedHeld(e, nodes[n].children, file, getBBT);
      HeldUnion(file, getBBT, blocks, nested);
    }
  }

  lemma NothingHeld(file: seq<byte>, getBBT: GetBBT)
    ensures NestHeld(file, getBBT, {})
  {
  }

  lemma NestedHeld(d: Disk, nodes: seq<Node>, file: seq<byte>, getBBT: GetBBT)
    requires NestFits(d, nodes) && |nodes| <= MAX_SL_ENTRIES
    requires var e := WriteNested(d, nodes).0; Prefix(e.file, file) && Refines(Lookup(e.index), getBBT)
    ensures NestHeld(file, getBBT, WriteNested(d, nodes).2)
    decreases nodes, 2
  {
    hide WriteSubNodeBlock, Refines, Prefix, Lookup, NestFits;
    if nodes == [] {
      NothingHeld(file, getBBT);
    } else {
      BlocksHeld(d, nodes, file, getBBT);
    }
  }

  lemma BlocksHeld(d: Disk, nodes: seq<Node>, file: seq<byte>, getBBT: GetBBT)
    requires NestFits(d, nodes) && 0 < |nodes| <= MAX_SL_ENTRIES
    requires var e := WriteSubNodeBlock(d, nodes).0; Prefix(e.file, file) && Refines(Lookup(e.index), getBBT)
    ensures NestHeld(file, getBBT, WriteSubNodeBlock(d, nodes).2)
    decreases nodes, 1
  {
    hide Append, Refines, Prefix, Lookup, SLEntriesAt, SLRaw, WriteSubNodes, Extends;
    var (e, entries, blocks) := WriteSubNodes(d, nodes);
    var (f, entry) := Append(e, SLRaw(entries), true);
    AppendedSLBlock(e, entries, file, getBBT);
    AppendHolds(e, SLRaw(entries), true);
    EarlierKept(e, f, file, getBBT);
    EarlierBlocksHeld(d, nodes, file, getBBT);
    OneMoreBlock(file, getBBT, blocks, entry.bref.bid, entries);
  }

  lemma OneMoreBlock(file: seq<byte>, getBBT: GetBBT, blocks: set<uint64>, bid: uint64, entries: seq<SLEntry>)
    requires NestHeld(file, getBBT, blocks) && SLEntriesAt(file, getBBT, bid) == Some(entries)
    requires forall e :: e in entries && e.bidSub != 0 ==> e.bidSub in blocks && e.bidSub < bid
    ensures NestHeld(file, getBBT, blocks + {bid})
  {
    hide SLEntriesAt;
    forall x | x in blocks + {bid}
      ensures BlockHeld(file, getBBT, blocks + {bid}, x)
    {
      assert x in blocks ==> BlockHeld(file, getBBT, blocks, x);
    }
  }

  // ----- the nest built is the nest written

  ghost predicate Names(nodes: seq<Node>, nid: uint32)
  {
    exists i :: 0 <= i < |nodes| && nodes[i].nid == nid
  }

  ghost predicate NamesNested(nodes: seq<Node>, nid: uint32)
  {
    exists i :: 0 <= i < |nodes| && nodes[i].nid == nid && nodes[i].children != []
  }

  /** The tree has, at every level, the subnodes of the nest, each with a data entry under which its data is read. */
  ghost predicate Mirrors(file: seq<byte>, getBBT: GetBBT, t: SubNodeBTree, nodes: seq<Node>)
    decreases nodes
  {
    && (forall nid :: nid in t.datatrees <==> Names(nodes, nid))
    && (forall nid :: nid in t.subtrees <==> NamesNested(nodes, nid))
    && (forall i :: 0 <= i < |nodes| ==> MirrorsNode(file, getBBT, t, nodes, i))
  }

  ghost predicate MirrorsNode(file: seq<byte>, getBBT: GetBBT, t: SubNodeBTree, nodes: seq<Node>, i: nat)
    requires i < |nodes|
    decreases nodes, 0
  {
    var nid := nodes[i].nid;
    && nid in t.datatrees && Readable(file, getBBT, t.datatrees[nid], nodes[i].payload)
    && (nodes[i].children != [] ==> nid in t.subtrees && Mirrors(file, getBBT, t.subtrees[nid], nodes[i].children))
  }

  lemma MirrorsOneMore(file: seq<byte>, getBBT: GetBBT, t: SubNodeBTree, nodes: seq<Node>, e: SLEntry,
                       nested: SubNodeBTree, root: BBTEntry)
    requires nodes != [] && Formed(nodes) && Mirrors(file, getBBT, t, nodes[..|nodes| - 1])
    requires var node := nodes[|nodes| - 1];
      && e.nid == node.nid && (e.bidSub != 0 <==> node.children != [])
      && Readable(file, getBBT, root, node.payload)
      && (node.children != [] ==> Mirrors(file, getBBT, nested, node.children))
    ensures e.nid !in t.datatrees && e.nid !in t.subtrees
    ensures Mirrors(file, getBBT, Added(t, e, nested, Some(root)), nodes)
  {
    hide Readable, MirrorsNode, Names, NamesNested, Formed;
    var n := |nodes| - 1;
    var more := Added(t, e, nested, Some(root));
    NewName(nodes);
    MirrorsLast(file, getBBT, more, nodes, nested);
    forall i | 0 <= i < n
      ensures MirrorsNode(file, getBBT, more, nodes, i)
    {
      MirrorsEarlier(file, getBBT, t, more, nodes, i);
    }
    forall nid
      ensures nid in more.datatrees <==> Names(nodes, nid)
      ensures nid in more.subtrees <==> NamesNested(nodes, nid)
    {
      LastOrEarlier(nodes, nid);
    }
  }

  lemma MirrorsLast(file: seq<byte>, getBBT: GetBBT, t: SubNodeBTree, nodes: seq<Node>, nested: SubNodeBTree)
    requires nodes != []
    requires var node := nodes[|nodes| - 1];
      && node.nid in t.datatrees && Readable(file, getBBT, t.datatrees[node.nid], node.payload)
      && (node.children != [] ==>
            && node.nid in t.subtrees && t.subtrees[node.nid] == nested
            && Mirrors(file, getBBT, nested, node.children))
    ensures MirrorsNode(file, getBBT, t, nodes, |nodes| - 1)
  {
  }

  lemma MirrorsEarlier(file: seq<byte>, getBBT: GetBBT, t: SubNodeBTree, more: SubNodeBTree, nodes: seq<Node>, i: nat)
    requires nodes != [] && i < |nodes| - 1 && MirrorsNode(file, getBBT, t, nodes[..|nodes| - 1], i)
    requires var nid := nodes[i].nid;
      && (nid in t.datatrees ==> nid in more.datatrees && more.datatrees[nid] == t.datatrees[nid])
      && (nid in t.subtrees ==> nid in more.subtrees && more.subtrees[nid] == t.subtrees[nid])
    ensures MirrorsNode(file, getBBT, more, nodes, i)
  {
    hide Readable;
  }

  lemma NewName(nodes: seq<Node>)
    requires Formed(nodes) && nodes != []
    ensures var n := |nodes| - 1; !Names(nodes[..n], nodes[n].nid) && !NamesNested(nodes[..n], nodes[n].nid)
    ensures forall i :: 0 <= i < |nodes| - 1 ==> nodes[i].nid != nodes[|nodes| - 1].nid
  {
  }

  lemma LastOrEarlier(nodes: seq<Node>, nid: uint32)
    requires nodes != []
    ensures var init, last := nodes[..|nodes| - 1], nodes[|nodes| - 1];
      && (Names(nodes, nid) <==> last.nid == nid || Names(init, nid))
      && (NamesNested(nodes, nid) <==> (last.nid == nid && last.children != []) || NamesNested(init, nid))
  {
    var init := nodes[..|nodes| - 1];
    assert forall i :: 0 <= i < |init| ==> nodes[i] == init[i];
  }

  lemma BuildsNodes(d: Disk, nodes: seq<Node>, file: seq<byte>, getBBT: GetBBT, rank: Rank, bound: nat)
    requires NestFits(d, nodes) && Acyclic(file, getBBT, rank)
    requires var (e, entries, blocks) := WriteSubNodes(d, nodes);
      && Prefix(e.file, file) && Refines(Lookup(e.index), getBBT)
      && NestedBelow(entries, rank, bound) && forall b :: b in blocks ==> rank(b).Some?
    ensures var t := BuiltFrom(file, getBBT, rank, bound, WriteSubNodes(d, nodes).1);
      t.Some? && Mirrors(file, getBBT, t.value, nodes)
    decreases nodes, 0
  {
    hide Written, WriteNested, Extends, Sound, Refines, Prefix, Lookup, Formed, NestRoom, Room, Acyclic, Readable,
      Mirrors, Built, Added;
    if nodes == [] {
      NothingMirrored(file, getBBT);
    } else {
      var n := |nodes| - 1;
      LastFits(d, nodes, d.count);
      var (before, entries, blocks) := WriteSubNodes(d, nodes[..n]);
      LastFits(d, nodes, before.count);
      var (e, root) := Written(before, nodes[n].payload);
      var (after, bidSub, nested) := WriteNested(e, nodes[n].children);
      EarlierKept(e, after, file, getBBT);
      EarlierKept(before, e, file, getBBT);
      var all, entry := WriteSubNodes(d, nodes).1, SLEntry(nodes[n].nid, root.bref.bid, bidSub);
      assert all[..n] == entries && all == entries + [entry];
      BuildsNodes(d, nodes[..n], file, getBBT, rank, bound);
      PayloadReadable(before, nodes[n].payload, file, getBBT);
      var sub := BuildsNested(e, nodes[n].children, file, getBBT, rank);
      RootResolved(file, getBBT, root, nodes[n].payload);
      var t := BuiltFrom(file, getBBT, rank, bound, entries).value;
      MirrorsOneMore(file, getBBT, t, nodes, entry, sub, root);
      BuiltOneMore(file, getBBT, rank, bound, entries, entry, t, sub, root);
    }
  }

  /** One more turn of the constructor's loop. */
  lemma BuiltOneMore(file: seq<byte>, getBBT: GetBBT, rank: Rank, bound: nat, entries: seq<SLEntry>, e: SLEntry,
                     t: SubNodeBTree, nested: SubNodeBTree, root: BBTEntry)
    requires Acyclic(file, getBBT, rank) && NestedBelow(entries + [e], rank, bound)
    requires NestedBelow(entries, rank, bound) && BuiltFrom(file, getBBT, rank, bound, entries) == Some(t)
    requires e.nid !in t.subtrees && e.nid !in t.datatrees && getBBT(e.bidData) == Some(root)
    requires InNest(rank, e.bidSub) && Built(file, getBBT, rank, e.bidSub) == Some(nested)
    ensures BuiltFrom(file, getBBT, rank, bound, entries + [e]) == Some(Added(t, e, nested, Some(root)))
  {
    hide SLEntriesAt, Acyclic;
    var all := entries + [e];
    assert all[..|all| - 1] == entries && e in all;
  }

  lemma RootResolved(file: seq<byte>, getBBT: GetBBT, root: BBTEntry, payload: seq<byte>)
    requires Readable(file, getBBT, root, payload)
    ensures getBBT(root.bref.bid) == Some(root)
  {
  }

  lemma NothingMirrored(file: seq<byte>, getBBT: GetBBT)
    ensures Mirrors(file, getBBT, SubNodeBTree(map[], map[]), [])
  {
  }

  lemma BuildsNested(d: Disk, nodes: seq<Node>, file: seq<byte>, getBBT: GetBBT, rank: Rank)
    returns (t: SubNodeBTree)
    requires NestFits(d, nodes) && |nodes| <= MAX_SL_ENTRIES && Acyclic(file, getBBT, rank)
    requires var (e, bid, blocks) := WriteNested(d, nodes);
      Prefix(e.file, file) && Refines(Lookup(e.index), getBBT) && forall b :: b in blocks ==> rank(b).Some?
    ensures var bid := WriteNested(d, nodes).1;
      && InNest(rank, bid) && Built(file, getBBT, rank, bid) == Some(t)
      && (bid != 0 <==> nodes != []) && Mirrors(file, getBBT, t, nodes)
    decreases nodes, 2
  {
    hide WriteSubNodeBlock, Refines, Prefix, Lookup, NestFits, Acyclic, Mirrors;
    if nodes == [] {
      NothingMirrored(file, getBBT);
      t := NO_SUBNODES;
    } else {
      t := BuildsBlock(d, nodes, file, getBBT, rank);
    }
  }

  lemma BuildsBlock(d: Disk, nodes: seq<Node>, file: seq<byte>, getBBT: GetBBT, rank: Rank)
    returns (t: SubNodeBTree)
    requires NestFits(d, nodes) && 0 < |nodes| <= MAX_SL_ENTRIES && Acyclic(file, getBBT, rank)
    requires var (e, bid, blocks) := WriteSubNodeBlock(d, nodes);
      Prefix(e.file, file) && Refines(Lookup(e.index), getBBT) && forall b :: b in blocks ==> rank(b).Some?
    ensures var bid := WriteSubNodeBlock(d, nodes).1;
      && bid != 0 && Built(file, getBBT, rank, bid) == Some(t) && Mirrors(file, getBBT, t, nodes)
    decreases nodes, 1
  {
    hide Append, Refines, Prefix, Lookup, SLEntriesAt, SLRaw, WriteSubNodes, Extends, Mirrors, BuiltFrom;
    var (e, entries, blocks) := WriteSubNodes(d, nodes);
    var (f, entry) := Append(e, SLRaw(entries), true);
    var bid := entry.bref.bid;
    AppendedSLBlock(e, entries, file, getBBT);
    AppendHolds(e, SLRaw(entries), true);
    EarlierKept(e, f, file, getBBT);
    assert bid in WriteSubNodeBlock(d, nodes).2;
    BuildsNodes(d, nodes, file, getBBT, rank, RankOf(rank, bid));
    t := BuiltFrom(file, getBBT, rank, RankOf(rank, bid), entries).value;
  }

  /**
   * Wherever a nest was written, whatever was written after it and whatever else the index lists: its references form
   * no cycle, and building from its root block gives the nest written.
   */
  lemma NestBuilds(d: Disk, nodes: seq<Node>, file: seq<byte>, getBBT: GetBBT) returns (t: SubNodeBTree)
    requires NestFits(d, nodes) && 0 < |nodes| <= MAX_SL_ENTRIES
    requires var e := WriteSubNodeBlock(d, nodes).0; Prefix(e.file, file) && Refines(Lookup(e.index), getBBT)
    ensures var (e, bid, blocks) := WriteSubNodeBlock(d, nodes);
      var rank := NestRank(blocks);
      && Acyclic(file, getBBT, rank) && InNest(rank, bid) && Built(file, getBBT, rank, bid) == Some(t)
      && Mirrors(file, getBBT, t, nodes)
  {
    hide WriteSubNodeBlock, NestHeld, Acyclic, Mirrors, Built, NestFits, Refines, Prefix, Lookup;
    var blocks := WriteSubNodeBlock(d, nodes).2;
    BlocksHeld(d, nodes, file, getBBT);
    HeldIsAcyclic(file, getBBT, blocks);
    t := BuildsBlock(d, nodes, file, getBBT, NestRank(blocks));
  }

  // ----- reading subnodes back

  function Find(nodes: seq<Node>, nid: uint32): (r: Option<Node>)
    ensures r.Some? ==> r.value.nid == nid && exists i :: 0 <= i < |nodes| && nodes[i] == r.value
    ensures r.None? ==> forall i :: 0 <= i < |nodes| ==> nodes[i].nid != nid
  {
    if nodes == [] then None
    else if nodes[|nodes| - 1].nid == nid then Some(nodes[|nodes| - 1])
    else Find(nodes[..|nodes| - 1], nid)
  }

  /** The subnode that a path of identifiers leads to. */
  function NodeAt(nodes: seq<Node>, path: seq<uint32>, nid: uint32): Option<Node>
    decreases |path|
  {
    if path == [] then Find(nodes, nid)
    else
      var node :- Find(nodes, path[0]);
      NodeAt(node.children, path[1..], nid)
  }

  lemma SameName(nodes: seq<Node>, i: nat, k: nat)
    requires Formed(nodes) && i < |nodes| && k < |nodes| && nodes[i].nid == nodes[k].nid
    ensures i == k && Formed(nodes[i].children)
  {
  }

  lemma FindFormed(nodes: seq<Node>, nid: uint32)
    requires Formed(nodes) && Find(nodes, nid).Some?
    ensures Formed(Find(nodes, nid).value.children)
  {
    var i :| 0 <= i < |nodes| && nodes[i] == Find(nodes, nid).value;
    SameName(nodes, i, i);
  }

  /** A name leads to the data and the subtree of the subnode with that name. */
  lemma MirrorsFind(file: seq<byte>, getBBT: GetBBT, t: SubNodeBTree, nodes: seq<Node>, nid: uint32)
    requires Formed(nodes) && Mirrors(file, getBBT, t, nodes)
    ensures var node := Find(nodes, nid);
      && (nid in t.datatrees <==> node.Some?)
      && (nid in t.datatrees ==> Readable(file, getBBT, t.datatrees[nid], node.value.payload))
      && (nid in t.subtrees ==> node.Some? && Mirrors(file, getBBT, t.subtrees[nid], node.value.children))
      && (node.Some? && nid !in t.subtrees ==> node.value.children == [])
  {
    hide Readable, Formed;
    var node := Find(nodes, nid);
    assert node.None? ==> !Names(nodes, nid) && !NamesNested(nodes, nid);
    if node.Some? {
      var i :| 0 <= i < |nodes| && nodes[i] == node.value;
      assert MirrorsNode(file, getBBT, t, nodes, i);
      assert Names(nodes, nid) && (nodes[i].children != [] ==> NamesNested(nodes, nid));
      if nid in t.subtrees {
        var k :| 0 <= k < |nodes| && nodes[k].nid == nid && nodes[k].children != [];
        SameName(nodes, i, k);
      }
    }
  }

  /** Whatever is found at a path in the tree is the data of the subnode that the path leads to in the nest. */
  lemma {:induction false} OccurrenceMirrors(file: seq<byte>, getBBT: GetBBT, t: SubNodeBTree, nodes: seq<Node>,
                                            path: seq<uint32>, nid: uint32, data: BBTEntry)
    requires Formed(nodes) && Mirrors(file, getBBT, t, nodes) && OccursAt(t, path, nid, data)
    ensures NodeAt(nodes, path, nid).Some?
    ensures Readable(file, getBBT, data, NodeAt(nodes, path, nid).value.payload)
    decreases |path|
  {
    hide Mirrors, Formed, Readable;
    if path == [] {
      MirrorsFind(file, getBBT, t, nodes, nid);
    } else {
      MirrorsFind(file, getBBT, t, nodes, path[0]);
      FindFormed(nodes, path[0]);
      OccurrenceMirrors(file, getBBT, t.subtrees[path[0]], Find(nodes, path[0]).value.children, path[1..], nid, data);
    }
  }

  /** And every subnode of the nest, at whatever path, is found there in the tree. */
  lemma {:induction false} NodeOccurs(file: seq<byte>, getBBT: GetBBT, t: SubNodeBTree, nodes: seq<Node>,
                                     path: seq<uint32>, nid: uint32) returns (data: BBTEntry)
    requires Formed(nodes) && Mirrors(file, getBBT, t, nodes) && NodeAt(nodes, path, nid).Some?
    ensures OccursAt(t, path, nid, data)
    decreases |path|
  {
    hide Mirrors, Formed, Readable;
    if path == [] {
      MirrorsFind(file, getBBT, t, nodes, nid);
      data := t.datatrees[nid];
    } else {
      MirrorsFind(file, getBBT, t, nodes, path[0]);
      FindFormed(nodes, path[0]);
      var node := Find(nodes, path[0]).value;
      if node.children == [] {
        NothingAt(path[1..], nid);
        assert false;
      }
      data := NodeOccurs(file, getBBT, t.subtrees[path[0]], node.children, path[1..], nid);
    }
  }

  lemma NothingAt(path: seq<uint32>, nid: uint32)
    ensures NodeAt([], path, nid).None?
  {
  }

  /** What a reader sees of a subnode with this payload. */
  ghost predicate Shows(found: Found, payload: seq<byte>, dispatch: Dispatch)
  {
    if Expectation(payload, dispatch).None? then found == LoadFails
    else found.LoadedTree? && Combined(found.blocks) == payload
  }

  lemma ReadableShows(file: seq<byte>, getBBT: GetBBT, data: BBTEntry, payload: seq<byte>, dispatch: Dispatch)
    requires Readable(file, getBBT, data, payload)
    ensures Shows(LoadResult(file, getBBT, data, dispatch), payload, dispatch)
  {
    hide LoadedBlocks;
    assert LoadedData(file, getBBT, data, dispatch) == Expectation(payload, dispatch);
  }

  /** An answer of the tree is the data of some subnode of the nest, and of its own level if that has one. */
  lemma AnswerShows(file: seq<byte>, getBBT: GetBBT, t: SubNodeBTree, nodes: seq<Node>, nid: uint32, data: BBTEntry,
                    dispatch: Dispatch) returns (path: seq<uint32>)
    requires Formed(nodes) && Mirrors(file, getBBT, t, nodes) && Answer(t, nid, data)
    ensures NodeAt(nodes, path, nid).Some?
    ensures Shows(LoadResult(file, getBBT, data, dispatch), NodeAt(nodes, path, nid).value.payload, dispatch)
    ensures Find(nodes, nid).Some? ==> path == []
  {
    hide Mirrors, Formed, Readable, Shows;
    MirrorsFind(file, getBBT, t, nodes, nid);
    path := AnswerOccurs(t, nid, data);
    if nid in t.datatrees {
      path := [];
    }
    OccurrenceMirrors(file, getBBT, t, nodes, path, nid, data);
    ReadableShows(file, getBBT, data, NodeAt(nodes, path, nid).value.payload, dispatch);
  }

  /** Some subnode of the nest has this identifier. */
  ghost predicate Holding(nodes: seq<Node>, nid: uint32)
  {
    exists path :: NodeAt(nodes, path, nid).Some?
  }

  lemma HeldIsAnswered(file: seq<byte>, getBBT: GetBBT, t: SubNodeBTree, nodes: seq<Node>, nid: uint32)
    requires Formed(nodes) && Mirrors(file, getBBT, t, nodes) && Holding(nodes, nid)
    ensures exists data :: Answer(t, nid, data)
  {
    hide Mirrors, Formed;
    var path :| NodeAt(nodes, path, nid).Some?;
    var data := NodeOccurs(file, getBBT, t, nodes, path, nid);
    var answer := OccurrenceAnswers(t, path, nid, data);
  }

  /**
   * What looking a subnode up should give: no tree exactly when the nest has no such subnode at any level; otherwise
   * the loaded data of one that has this identifier, of the first level if it is there.
   */
  ghost predicate ShowsSubNode(r: Found, nodes: seq<Node>, nid: uint32, dispatch: Dispatch)
  {
    && (r == NoTree <==> !Holding(nodes, nid))
    && (r != NoTree ==> exists path :: NodeAt(nodes, path, nid).Some?
                                       && Shows(r, NodeAt(nodes, path, nid).value.payload, dispatch))
    && (Find(nodes, nid).Some? ==> Shows(r, Find(nodes, nid).value.payload, dispatch))
  }

  /** `getDataTree` on a tree that mirrors a nest. */
  method FindSubNode(file: seq<byte>, getBBT: GetBBT, t: SubNodeBTree, ghost nodes: seq<Node>, nid: uint32,
                     dispatch: Dispatch)
    returns (r: Found)
    requires Formed(nodes) && Mirrors(file, getBBT, t, nodes)
    ensures ShowsSubNode(r, nodes, nid, dispatch)
  {
    hide Mirrors, Formed, LoadResult, Shows, Answer, Find;
    r := GetDataTree(file, getBBT, t, nid, dispatch);
    if r != NoTree {
      ghost var data :| Answer(t, nid, data) && r == LoadResult(file, getBBT, data, dispatch);
      ghost var path := AnswerShows(file, getBBT, t, nodes, nid, data, dispatch);
      assert NodeAt(nodes, path, nid).Some?;
    } else if Holding(nodes, nid) {
      HeldIsAnswered(file, getBBT, t, nodes, nid);
      assert false;
    } else {
      assert NodeAt(nodes, [], nid) == Find(nodes, nid);
    }
  }

  /** The constructor and `getDataTree` of the source, on a nest that was written. */
  method ReadBackSubNode(d: Disk, nodes: seq<Node>, file: seq<byte>, getBBT: GetBBT, nid: uint32, dispatch: Dispatch)
    returns (r: Found)
    requires NestFits(d, nodes) && 0 < |nodes| <= MAX_SL_ENTRIES
    requires var e := WriteSubNodeBlock(d, nodes).0; Prefix(e.file, file) && Refines(Lookup(e.index), getBBT)
    ensures ShowsSubNode(r, nodes, nid, dispatch)
  {
    hide WriteSubNodeBlock, Acyclic, Mirrors, Built, Formed, Refines, Prefix, Lookup, ShowsSubNode, Sound, NestRoom;
    var (_, bid, blocks) := WriteSubNodeBlock(d, nodes);
    ghost var nest := NestBuilds(d, nodes, file, getBBT);
    var built := SubNodes.InitSubNodeBTree(file, getBBT, NestRank(blocks), bid);
    r := FindSubNode(file, getBBT, built.value, nodes, nid, dispatch);
  }

  /** Such nests exist, with subnodes of subnodes: here node 2 is found under node 1, at the path [1]. */
  lemma NestExample(inner: Node, outer: Node)
    requires inner == Node(2, [], []) && outer == Node(1, [], [inner])
    ensures NestFits(EMPTY_DISK, [outer]) && NodeAt([outer], [1], 2) == Some(inner)
  {
    hide Room;
    RoomOfNothing();
    RoomParts([inner]);
    RoomParts([outer]);
    assert NestRoom([inner][..0]) == 0 && NestRoom([outer][..0]) == 0;
    assert Formed([]);
    assert FormedNode(inner) && Formed([inner]);
    assert FormedNode(outer) && Formed([outer]);
    assert Find([outer], 1) == Some(outer) && Find([inner], 2) == Some(inner);
    assert NodeAt([inner], [1][1..], 2) == Some(inner);
  }

  lemma RoomOfNothing()
    ensures Room([]) == 1023 && NestRoom([]) == 0
  {
  }
}
