/**
 * `SubNodeBTree` (`include/NDB.h`): the subnodes of a node, nested to any depth. The order in which a hash map is
 * walked is left open.
 */
module SubNodes {
  import opened Blocks
  import opened Bytes
  import opened Cipher
  import opened DataTrees
  import opened DataTreeTheory
  import opened Ids
  import opened Views

  // ----- SL blocks

  datatype SLEntry = SLEntry(nid: uint32, bidData: uint64, bidSub: uint64)

  /** A node identifier takes eight bytes here too, of which four are read. */
  function SLEntryOf(bytes: seq<byte>): SLEntry
    requires |bytes| == 24
  {
    SLEntry(U32At(bytes, 0), U64At(bytes, 8), U64At(bytes, 16))
  }

  function SLEntriesOf(raw: seq<seq<byte>>): (r: seq<SLEntry>)
    requires forall c :: c in raw ==> |c| == 24
    ensures |r| == |raw|
  {
    seq(|raw|, i requires 0 <= i < |raw| => assert raw[i] in raw; SLEntryOf(raw[i]))
  }

  /** `SLBlock::Init` */
  function SLBlockOf(bytes: seq<byte>, bref: BREF): Option<seq<SLEntry>>
  {
    if !IsInternal(bref.bid) then None
    else
      var trailer :- TrailerAtEnd(bytes, bref);
      Pow256Values();
      var btype, cLevel, cEnt := Field(bytes, 0, 1).value, Field(bytes, 1, 1).value, Field(bytes, 2, 2).value;
      var raw :- Chunks(bytes, 8, cEnt, 24);
      if btype == 0x02 && cLevel == 0x00 && cEnt != 0 then Some(SLEntriesOf(raw)) else None
  }

  /** `SubNodeBTree::calcBlockAlignedSize`, the second copy of this arithmetic, which asserts nothing. */
  function SubNodeBlockSize(dataSize: nat): nat
  {
    var totalBlockSizeWithoutPadding := dataSize + 16;
    var remainder := totalBlockSizeWithoutPadding % 64;
    totalBlockSizeWithoutPadding + (if remainder != 0 then 64 - remainder else 0)
  }

  /** The copies agree wherever the first does not stop, which is up to 8176 bytes; the second goes on beyond. */
  lemma BlockSizesAgree(size: nat)
    ensures CheckedSize(size)
            == if size <= 8176 then Some((SubNodeBlockSize(size), SubNodeBlockSize(size) - size - 16)) else None
    ensures SubNodeBlockSize(size) == AlignedSize(size).0
  {
    CheckedSizeExact(size);
  }

  /** The entries of the SL block that an identifier leads to. */
  function SLEntriesAt(file: seq<byte>, getBBT: GetBBT, bid: uint64): Option<seq<SLEntry>>
  {
    var bbt :- getBBT(bid);
    var bytes :- ReadBytes(file, bbt.bref.ib, SubNodeBlockSize(bbt.cb));
    if bytes[1] != 0x00 then None else SLBlockOf(bytes, bbt.bref)
  }

  /** An SL block is accepted exactly under these conditions; the CRC in its trailer is not among them. */
  lemma SLBlockAcceptedIff(bytes: seq<byte>, bref: BREF)
    requires |bytes| >= 16
    ensures SLBlockOf(bytes, bref).Some?
            <==> && bref.bid % 4 >= 2 && U16At(bytes, |bytes| - 14) == ComputeSig(bref.ib, bref.bid)
                 && bytes[0] == 2 && bytes[1] == 0 && U16At(bytes, 2) != 0 && 8 + 24 * U16At(bytes, 2) <= |bytes|
  {
    hide TrailerAtEnd, FromLE, Chunks, SLEntriesOf, ComputeSig;
    TrailerOnDisk(bytes, bref);
    InternalBit(bref.bid);
    FirstBytes(bytes);
    ChunksExist(bytes, 8, U16At(bytes, 2), 24);
  }

  /** Index and trailer of an accepted SL block agree exactly when two fields of the file say so. */
  lemma SLBlockAgreesIff(file: seq<byte>, getBBT: GetBBT, bid: uint64)
    requires SLEntriesAt(file, getBBT, bid).Some?
    ensures var entry := getBBT(bid).value;
      var trailer := TrailerIn(file, entry);
      && trailer.Some?
      && (trailer.value.cb == entry.cb <==> Field(file, TrailerPosition(entry), 2) == Some(entry.cb))
      && (trailer.value.bid == entry.bref.bid <==> Field(file, TrailerPosition(entry) + 8, 8) == Some(entry.bref.bid))
  {
    hide TrailerAtEnd;
    BlockSizesAgree(getBBT(bid).value.cb);
    TrailerInFile(file, getBBT(bid).value);
  }

  // ----- the constructors of the source

  /** The entry constructor: three slices of eight bytes; a node identifier takes the first four of its slice. */
  method InitSLEntry(bytes: seq<byte>) returns (r: SLEntry)
    requires |bytes| == 24
    ensures r == SLEntryOf(bytes)
  {
    Pow256Values();
    var view := new ByteView(bytes);
    var nidBytes := view.Read(8);
    var nidView := new ByteView(nidBytes.value);
    var nid := nidView.ReadInt(4);
    assert nidBytes.value[0..4] == bytes[0..4];
    var bidData := view.ReadInt(8);
    var bidSub := view.ReadInt(8);
    r := SLEntry(nid.value, bidData.value, bidSub.value);
  }

  method InitSLEntries(raw: seq<seq<byte>>) returns (r: seq<SLEntry>)
    requires forall c :: c in raw ==> |c| == 24
    ensures r == SLEntriesOf(raw)
  {
    r := [];
    for i := 0 to |raw|
      invariant |r| == i && forall k :: 0 <= k < i ==> r[k] == SLEntriesOf(raw)[k]
    {
      assert raw[i] in raw;
      var entry := InitSLEntry(raw[i]);
      r := r + [entry];
    }
  }

  method InitSLBlock(bytes: seq<byte>, bref: BREF) returns (r: Option<seq<SLEntry>>)
    ensures r == SLBlockOf(bytes, bref)
  {
    if !IsInternal(bref.bid) {
      return None;
    }
    var trailer := InitTrailer(bytes, bref);
    if trailer.None? {
      return None;
    }
    var btype, cLevel, cEnt, raw := ReadSLFields(bytes);
    if raw.None? || btype != 0x02 || cLevel != 0x00 || cEnt == 0 {
      return None;
    }
    var entries := InitSLEntries(raw.value);
    return Some(entries);
  }

  /** The fields of an SL block, read one after the other. */
  method ReadSLFields(bytes: seq<byte>)
    returns (btype: byte, cLevel: byte, cEnt: uint16, raw: Option<seq<seq<byte>>>)
    requires |bytes| >= 16
    ensures Field(bytes, 0, 1) == Some(btype) && Field(bytes, 1, 1) == Some(cLevel) && Field(bytes, 2, 2) == Some(cEnt)
    ensures raw == Chunks(bytes, 8, cEnt, 24)
  {
    Pow256Values();
    var view := new ByteView(bytes);
    var f0 := view.ReadInt(1);
    var f1 := view.ReadInt(1);
    var f2 := view.ReadInt(2);
    var dwPadding := view.ReadInt(4);
    btype, cLevel, cEnt := f0.value, f1.value, f2.value;
    raw := view.Entries(cEnt, 24);
  }

  /** Reading the block of an identifier, and the branch on its level byte. */
  method ReadSLEntries(file: seq<byte>, getBBT: GetBBT, bid: uint64) returns (r: Option<seq<SLEntry>>)
    ensures r == SLEntriesAt(file, getBBT, bid)
  {
    hide SLBlockOf;
    var bbt := getBBT(bid);
    if bbt.None? {
      return None;
    }
    var bytes := ReadBytes(file, bbt.value.bref.ib, SubNodeBlockSize(bbt.value.cb));
    if bytes.None? || bytes.value[1] != 0x00 {
      return None;
    }
    r := InitSLBlock(bytes.value, bbt.value.bref);
  }

  // ----- the tree

  /** By node identifier: nested subnode trees, and the entries that data trees are made from. */
  datatype SubNodeBTree = SubNodeBTree(subtrees: map<uint32, SubNodeBTree>, datatrees: map<uint32, BBTEntry>)

  const NO_SUBNODES: SubNodeBTree := SubNodeBTree(map[], map[])

  /** A rank for the identifiers of one nest; identifiers outside it have none. */
  type Rank = uint64 -> Option<nat>

  /**
   * The ranked identifiers are closed under the references from SL blocks to nested SL blocks, and these form no cycle:
   * each leads to a smaller rank. Nothing is asked of the rest of the file.
   */
  ghost predicate Acyclic(file: seq<byte>, getBBT: GetBBT, rank: Rank)
  {
    forall bid: uint64 :: rank(bid).Some? && SLEntriesAt(file, getBBT, bid).Some? ==>
                            NestedBelow(SLEntriesAt(file, getBBT, bid).value, rank, rank(bid).value)
  }

  ghost predicate NestedBelow(entries: seq<SLEntry>, rank: Rank, bound: nat)
  {
    forall e :: e in entries && e.bidSub != 0 ==> rank(e.bidSub).Some? && rank(e.bidSub).value < bound
  }

  predicate InNest(rank: Rank, bid: uint64)
  {
    bid == 0 || rank(bid).Some?
  }

  function RankOf(rank: Rank, bid: uint64): nat
  {
    if rank(bid).Some? then rank(bid).value else 0
  }

  /** The constructor. Identifier zero stands for no subnodes. */
  function Built(file: seq<byte>, getBBT: GetBBT, ghost rank: Rank, bid: uint64): Option<SubNodeBTree>
    requires Acyclic(file, getBBT, rank) && InNest(rank, bid)
    decreases RankOf(rank, bid), 1, 0
  {
    if bid == 0 then Some(NO_SUBNODES)
    else
      var entries :- SLEntriesAt(file, getBBT, bid);
      BuiltFrom(file, getBBT, rank, RankOf(rank, bid), entries)
  }

  /** The constructor's loop over the entries of the block. */
  function BuiltFrom(file: seq<byte>, getBBT: GetBBT, ghost rank: Rank, ghost bound: nat, entries: seq<SLEntry>)
    : Option<SubNodeBTree>
    requires Acyclic(file, getBBT, rank) && NestedBelow(entries, rank, bound)
    decreases bound, 0, |entries|
  {
    if entries == [] then Some(NO_SUBNODES)
    else
      var e := entries[|entries| - 1];
      var t :- BuiltFrom(file, getBBT, rank, bound, entries[..|entries| - 1]);
      if e.nid in t.subtrees || e.nid in t.datatrees then None
      else
        var nested :- if e.bidSub != 0 then Built(file, getBBT, rank, e.bidSub) else Some(NO_SUBNODES);
        Some(Added(t, e, nested, getBBT(e.bidData)))
  }

  /** One turn of the loop: what the two `emplace` calls add. */
  function Added(t: SubNodeBTree, e: SLEntry, nested: SubNodeBTree, data: Option<BBTEntry>): SubNodeBTree
  {
    SubNodeBTree(if e.bidSub != 0 then t.subtrees[e.nid := nested] else t.subtrees,
                 if data.Some? then t.datatrees[e.nid := data.value] else t.datatrees)
  }

  lemma {:induction false} BuiltFromPrefix(file: seq<byte>, getBBT: GetBBT, rank: Rank, bound: nat,
                                          entries: seq<SLEntry>, n: nat)
    requires Acyclic(file, getBBT, rank) && NestedBelow(entries, rank, bound) && n <= |entries|
    requires BuiltFrom(file, getBBT, rank, bound, entries[..n]).None?
    ensures BuiltFrom(file, getBBT, rank, bound, entries).None?
    decreases |entries| - n
  {
    if n < |entries| {
      assert entries[..n + 1][..n] == entries[..n];
      BuiltFromPrefix(file, getBBT, rank, bound, entries, n + 1);
    } else {
      assert entries[..n] == entries;
    }
  }

  /** The constructor as the source runs it. */
  method InitSubNodeBTree(file: seq<byte>, getBBT: GetBBT, ghost rank: Rank, bid: uint64)
    returns (r: Option<SubNodeBTree>)
    requires Acyclic(file, getBBT, rank) && InNest(rank, bid)
    ensures r == Built(file, getBBT, rank, bid)
    decreases RankOf(rank, bid)
  {
    if bid == 0 {
      return Some(NO_SUBNODES);
    }
    var read := ReadSLEntries(file, getBBT, bid);
    if read.None? {
      return None;
    }
    var entries := read.value;
    var t := NO_SUBNODES;
    assert entries[..0] == [];
    for i := 0 to |entries|
      invariant BuiltFrom(file, getBBT, rank, RankOf(rank, bid), entries[..i]) == Some(t)
    {
      var e := entries[i];
      assert e in entries && entries[..i + 1][..i] == entries[..i];
      if BuiltFrom(file, getBBT, rank, RankOf(rank, bid), entries[..i + 1]).None? {
        BuiltFromPrefix(file, getBBT, rank, RankOf(rank, bid), entries, i + 1);
      }
      if e.nid in t.subtrees || e.nid in t.datatrees {
        return None;
      }
      var subtrees, datatrees := t.subtrees, t.datatrees;
      if e.bidSub != 0 {
        var nested := InitSubNodeBTree(file, getBBT, rank, e.bidSub);
        if nested.None? {
          return None;
        }
        subtrees := subtrees[e.nid := nested.value];
      }
      var dataTreeBBT := getBBT(e.bidData);
      if dataTreeBBT.Some? {
        datatrees := datatrees[e.nid := dataTreeBBT.value];
      }
      t := SubNodeBTree(subtrees, datatrees);
    }
    assert entries[..|entries|] == entries;
    return Some(t);
  }

  // ----- lookup

  /** The data of node `nid` is `data` in the subtree that the node identifiers of `path` lead to. */
  ghost predicate OccursAt(t: SubNodeBTree, path: seq<uint32>, nid: uint32, data: BBTEntry)
    decreases |path|
  {
    if path == [] then nid in t.datatrees && t.datatrees[nid] == data
    else path[0] in t.subtrees && OccursAt(t.subtrees[path[0]], path[1..], nid, data)
  }

  /** A possible answer: the tree's own data if it has any, else an answer of some subtree. */
  ghost predicate Answer(t: SubNodeBTree, nid: uint32, data: BBTEntry)
    decreases t
  {
    if nid in t.datatrees then data == t.datatrees[nid]
    else exists k :: k in t.subtrees && Answer(t.subtrees[k], nid, data)
  }

  /** What a caller of `getDataTree` gets: no tree, a tree whose `load` fails, or a loaded tree. */
  datatype Found = NoTree | LoadFails | LoadedTree(blocks: seq<DataBlock>)

  /** What loading the data tree made from an entry gives. */
  function LoadResult(file: seq<byte>, getBBT: GetBBT, data: BBTEntry, dispatch: Dispatch): Found
  {
    var blocks := LoadedBlocks(file, getBBT, data.bref, data.cb, dispatch);
    if blocks.None? then LoadFails else LoadedTree(blocks.value)
  }

  method LoadDataTree(file: seq<byte>, getBBT: GetBBT, data: BBTEntry, dispatch: Dispatch) returns (r: Found)
    ensures r == LoadResult(file, getBBT, data, dispatch)
  {
    hide LoadedBlocks;
    var tree := new DataTree(file, getBBT, data.bref, data.cb, dispatch);
    var ok := tree.Load();
    if !ok {
      return LoadFails;
    }
    return LoadedTree(tree.dataBlocks);
  }

  /** `getDataTree`: which subtree is asked first is up to the hash map. */
  method GetDataTree(file: seq<byte>, getBBT: GetBBT, t: SubNodeBTree, nid: uint32, dispatch: Dispatch)
    returns (r: Found)
    ensures r == NoTree <==> forall data :: !Answer(t, nid, data)
    ensures r != NoTree ==> exists data :: Answer(t, nid, data) && r == LoadResult(file, getBBT, data, dispatch)
    decreases t
  {
    hide LoadResult;
    if nid in t.datatrees {
      assert Answer(t, nid, t.datatrees[nid]);
      r := LoadDataTree(file, getBBT, t.datatrees[nid], dispatch);
      LoadGivesTree(file, getBBT, t.datatrees[nid], dispatch);
      return;
    }
    var rest := t.subtrees.Keys;
    while rest != {}
      invariant rest <= t.subtrees.Keys
      invariant forall k, data :: k in t.subtrees && k !in rest ==> !Answer(t.subtrees[k], nid, data)
    {
      var k :| k in rest;
      r := GetDataTree(file, getBBT, t.subtrees[k], nid, dispatch);
      if r != NoTree {
        ghost var data :| Answer(t.subtrees[k], nid, data) && r == LoadResult(file, getBBT, data, dispatch);
        assert Answer(t, nid, data);
        return;
      }
      rest := rest - {k};
    }
    r := NoTree;
  }

  lemma LoadGivesTree(file: seq<byte>, getBBT: GetBBT, data: BBTEntry, dispatch: Dispatch)
    ensures LoadResult(file, getBBT, data, dispatch) != NoTree
  {
  }

  /** Every answer occurs somewhere in the nest. */
  lemma {:induction false} AnswerOccurs(t: SubNodeBTree, nid: uint32, data: BBTEntry) returns (path: seq<uint32>)
    requires Answer(t, nid, data)
    ensures OccursAt(t, path, nid, data)
    decreases t
  {
    if nid in t.datatrees {
      path := [];
    } else {
      var k :| k in t.subtrees && Answer(t.subtrees[k], nid, data);
      var rest := AnswerOccurs(t.subtrees[k], nid, data);
      path := [k] + rest;
      assert path[1..] == rest;
    }
  }

  /** If the node occurs anywhere in the nest, there is an answer. */
  lemma {:induction false} OccurrenceAnswers(t: SubNodeBTree, path: seq<uint32>, nid: uint32, data: BBTEntry)
    returns (answer: BBTEntry)
    requires OccursAt(t, path, nid, data)
    ensures Answer(t, nid, answer)
    decreases |path|
  {
    if nid in t.datatrees {
      answer := t.datatrees[nid];
    } else {
      answer := OccurrenceAnswers(t.subtrees[path[0]], path[1..], nid, data);
    }
  }

  /** A node that occurs once in the whole nest has one answer, so the order of the hash map does not matter. */
  lemma OrderIndependent(t: SubNodeBTree, nid: uint32, a: BBTEntry, b: BBTEntry)
    requires forall p, q, x, y :: OccursAt(t, p, nid, x) && OccursAt(t, q, nid, y) ==> p == q
    requires Answer(t, nid, a) && Answer(t, nid, b)
    ensures a == b
  {
    var p := AnswerOccurs(t, nid, a);
    var q := AnswerOccurs(t, nid, b);
    SamePlace(t, p, nid, a, b);
  }

  lemma {:induction false} SamePlace(t: SubNodeBTree, path: seq<uint32>, nid: uint32, a: BBTEntry, b: BBTEntry)
    requires OccursAt(t, path, nid, a) && OccursAt(t, path, nid, b)
    ensures a == b
    decreases |path|
  {
    if path == [] {
    } else {
      SamePlace(t.subtrees[path[0]], path[1..], nid, a, b);
    }
  }

  // ----- what is in the tree, in terms of the SL blocks of the file

  /** Some entry of the list gives node `nid` this data. */
  ghost predicate HasData(getBBT: GetBBT, entries: seq<SLEntry>, nid: uint32, data: BBTEntry)
  {
    exists e :: e in entries && e.nid == nid && getBBT(e.bidData) == Some(data)
  }

  /** Some entry of the list gives node `nid` this subtree. */
  ghost predicate HasNested(file: seq<byte>, getBBT: GetBBT, rank: Rank, entries: seq<SLEntry>, nid: uint32,
                            t: SubNodeBTree)
    requires Acyclic(file, getBBT, rank)
  {
    exists e :: e in entries && e.nid == nid && e.bidSub != 0 && rank(e.bidSub).Some?
                && Built(file, getBBT, rank, e.bidSub) == Some(t)
  }

  lemma {:induction false} BuiltFromContents(file: seq<byte>, getBBT: GetBBT, rank: Rank, bound: nat,
                                            entries: seq<SLEntry>)
    requires Acyclic(file, getBBT, rank) && NestedBelow(entries, rank, bound)
    requires BuiltFrom(file, getBBT, rank, bound, entries).Some?
    ensures var t := BuiltFrom(file, getBBT, rank, bound, entries).value;
      && (forall n, d :: n in t.datatrees && t.datatrees[n] == d <==> HasData(getBBT, entries, n, d))
      && (forall n, s :: n in t.subtrees && t.subtrees[n] == s <==> HasNested(file, getBBT, rank, entries, n, s))
    decreases |entries|
  {
    hide Built, SLEntriesAt;
    if entries == [] {
    } else {
      var init, e := entries[..|entries| - 1], entries[|entries| - 1];
      assert forall x :: x in entries <==> x in init || x == e;
      BuiltFromContents(file, getBBT, rank, bound, init);
      var before := BuiltFrom(file, getBBT, rank, bound, init).value;
      var t := BuiltFrom(file, getBBT, rank, bound, entries).value;
      forall n, d
        ensures n in t.datatrees && t.datatrees[n] == d <==> HasData(getBBT, entries, n, d)
      {
        DataOfLast(getBBT, init, e, entries, n, d);
        assert HasData(getBBT, init, n, d) ==> n in before.datatrees;
      }
      forall n, s
        ensures n in t.subtrees && t.subtrees[n] == s <==> HasNested(file, getBBT, rank, entries, n, s)
      {
        NestedOfLast(file, getBBT, rank, init, e, entries, n, s);
        assert HasNested(file, getBBT, rank, init, n, s) ==> n in before.subtrees;
      }
    }
  }

  /** The entry leaves a trace: a subtree, or data that the block index resolves. */
  predicate Contributes(getBBT: GetBBT, e: SLEntry)
  {
    e.bidSub != 0 || getBBT(e.bidData).Some?
  }

  /** An earlier entry with the same identifier that left a trace. */
  ghost predicate Repeats(getBBT: GetBBT, entries: seq<SLEntry>, i: int, j: int)
  {
    0 <= i < j < |entries| && entries[i].nid == entries[j].nid && Contributes(getBBT, entries[i])
  }

  lemma {:induction false} TracesAre(file: seq<byte>, getBBT: GetBBT, rank: Rank, bound: nat, entries: seq<SLEntry>)
    requires Acyclic(file, getBBT, rank) && NestedBelow(entries, rank, bound)
    requires BuiltFrom(file, getBBT, rank, bound, entries).Some?
    ensures var t := BuiltFrom(file, getBBT, rank, bound, entries).value;
      forall nid :: nid in t.subtrees || nid in t.datatrees
                    <==> exists i :: 0 <= i < |entries| && entries[i].nid == nid && Contributes(getBBT, entries[i])
  {
    hide Built, SLEntriesAt, Acyclic;
    if entries == [] {
    } else {
      var n := |entries| - 1;
      TracesAre(file, getBBT, rank, bound, entries[..n]);
      assert forall i :: 0 <= i < n ==> entries[..n][i] == entries[i];
      var t := BuiltFrom(file, getBBT, rank, bound, entries[..n]).value;
      var all := BuiltFrom(file, getBBT, rank, bound, entries).value;
      forall nid
        ensures nid in all.subtrees || nid in all.datatrees
                <==> exists i :: 0 <= i < |entries| && entries[i].nid == nid && Contributes(getBBT, entries[i])
      {
        if nid in t.subtrees || nid in t.datatrees {
          var i :| 0 <= i < n && entries[..n][i].nid == nid && Contributes(getBBT, entries[..n][i]);
          assert entries[i].nid == nid;
        }
        if i :| 0 <= i < |entries| && entries[i].nid == nid && Contributes(getBBT, entries[i]) {
          assert i < n ==> entries[..n][i] == entries[i];
        }
      }
    }
  }

  /**
   * The constructor's loop comes through exactly when every nested tree does and no entry repeats the identifier of an
   * earlier one that left a trace. Data that the index does not resolve is no failure.
   */
  lemma {:induction false} BuildsIff(file: seq<byte>, getBBT: GetBBT, rank: Rank, bound: nat, entries: seq<SLEntry>)
    requires Acyclic(file, getBBT, rank) && NestedBelow(entries, rank, bound)
    ensures BuiltFrom(file, getBBT, rank, bound, entries).Some?
            <==> && (forall i, j :: !Repeats(getBBT, entries, i, j))
                 && (forall e :: e in entries && e.bidSub != 0 ==> Built(file, getBBT, rank, e.bidSub).Some?)
  {
    hide Built, SLEntriesAt, Acyclic;
    if entries == [] {
    } else {
      var n := |entries| - 1;
      var init, e := entries[..n], entries[n];
      assert forall x :: x in entries <==> x in init || x == e;
      BuildsIff(file, getBBT, rank, bound, init);
      RepeatsLast(getBBT, entries);
      if BuiltFrom(file, getBBT, rank, bound, init).Some? {
        TracesAre(file, getBBT, rank, bound, init);
      }
    }
  }

  lemma RepeatsLast(getBBT: GetBBT, entries: seq<SLEntry>)
    requires entries != []
    ensures var n := |entries| - 1;
      (exists i, j :: Repeats(getBBT, entries, i, j))
      <==> || (exists i, j :: Repeats(getBBT, entries[..n], i, j))
           || exists i :: 0 <= i < |entries[..n]| && entries[..n][i].nid == entries[n].nid
                          && Contributes(getBBT, entries[..n][i])
  {
    var n := |entries| - 1;
    var init := entries[..n];
    if i, j :| Repeats(getBBT, entries, i, j) {
      assert init[i] == entries[i];
      if j < n {
        assert Repeats(getBBT, init, i, j);
      }
    }
    if i, j :| Repeats(getBBT, init, i, j) {
      assert Repeats(getBBT, entries, i, j);
    }
    if i :| 0 <= i < |init| && init[i].nid == entries[n].nid && Contributes(getBBT, init[i]) {
      assert Repeats(getBBT, entries, i, n);
    }
  }

  /** An identifier builds exactly when it is zero, or its SL block is accepted and the loop comes through. */
  lemma BuiltIff(file: seq<byte>, getBBT: GetBBT, rank: Rank, bid: uint64)
    requires Acyclic(file, getBBT, rank) && InNest(rank, bid)
    ensures Built(file, getBBT, rank, bid).Some?
            <==> bid == 0
                 || (&& SLEntriesAt(file, getBBT, bid).Some?
                     && var entries := SLEntriesAt(file, getBBT, bid).value;
                        && (forall i, j :: !Repeats(getBBT, entries, i, j))
                        && (forall e :: e in entries && e.bidSub != 0 ==> Built(file, getBBT, rank, e.bidSub).Some?))
  {
    hide SLEntriesAt, BuiltFrom;
    if bid != 0 && SLEntriesAt(file, getBBT, bid).Some? {
      BuildsIff(file, getBBT, rank, RankOf(rank, bid), SLEntriesAt(file, getBBT, bid).value);
    }
  }

  lemma DataOfLast(getBBT: GetBBT, init: seq<SLEntry>, e: SLEntry, entries: seq<SLEntry>, n: uint32, d: BBTEntry)
    requires forall x :: x in entries <==> x in init || x == e
    ensures HasData(getBBT, entries, n, d)
            <==> HasData(getBBT, init, n, d) || (e.nid == n && getBBT(e.bidData) == Some(d))
  {
  }

  lemma NestedOfLast(file: seq<byte>, getBBT: GetBBT, rank: Rank, init: seq<SLEntry>, e: SLEntry,
                     entries: seq<SLEntry>, n: uint32, s: SubNodeBTree)
    requires Acyclic(file, getBBT, rank) && forall x :: x in entries <==> x in init || x == e
    ensures HasNested(file, getBBT, rank, entries, n, s)
            <==> HasNested(file, getBBT, rank, init, n, s)
                 || (e.nid == n && e.bidSub != 0 && rank(e.bidSub).Some?
                     && Built(file, getBBT, rank, e.bidSub) == Some(s))
  {
  }

  /** Following `path` through the SL blocks of the file, from the block `bid`, leads to an entry with this data. */
  ghost predicate NestedEntry(file: seq<byte>, getBBT: GetBBT, bid: uint64, path: seq<uint32>, nid: uint32,
                              data: BBTEntry)
    decreases |path|
  {
    && bid != 0
    && var entries := SLEntriesAt(file, getBBT, bid);
       && entries.Some?
       && if path == [] then HasData(getBBT, entries.value, nid, data)
          else exists e :: e in entries.value && e.nid == path[0] && e.bidSub != 0
                           && NestedEntry(file, getBBT, e.bidSub, path[1..], nid, data)
  }

  /** The tree holds, at every path, exactly what the SL blocks hold there and the block index resolves. */
  lemma {:induction false} BuiltIsExact(file: seq<byte>, getBBT: GetBBT, rank: Rank, bid: uint64,
                                        path: seq<uint32>, nid: uint32, data: BBTEntry)
    requires Acyclic(file, getBBT, rank) && InNest(rank, bid) && Built(file, getBBT, rank, bid).Some?
    ensures OccursAt(Built(file, getBBT, rank, bid).value, path, nid, data)
            <==> NestedEntry(file, getBBT, bid, path, nid, data)
    decreases |path|
  {
    if bid == 0 {
    } else {
      hide SLEntriesAt;
      var entries := SLEntriesAt(file, getBBT, bid).value;
      var t := Built(file, getBBT, rank, bid).value;
      BuiltFromContents(file, getBBT, rank, RankOf(rank, bid), entries);
      if path != [] {
        NestedBuilt(file, getBBT, rank, RankOf(rank, bid), entries);
        NestedStep(file, getBBT, rank, entries, t, path, nid, data);
      }
    }
  }

  lemma {:induction false} NestedStep(file: seq<byte>, getBBT: GetBBT, rank: Rank, entries: seq<SLEntry>,
                                      t: SubNodeBTree, path: seq<uint32>, nid: uint32, data: BBTEntry)
    requires Acyclic(file, getBBT, rank) && path != []
    requires forall n, s :: n in t.subtrees && t.subtrees[n] == s <==> HasNested(file, getBBT, rank, entries, n, s)
    requires forall e :: e in entries && e.bidSub != 0 ==>
                           rank(e.bidSub).Some? && Built(file, getBBT, rank, e.bidSub).Some?
    ensures OccursAt(t, path, nid, data)
            <==> exists e :: e in entries && e.nid == path[0] && e.bidSub != 0
                             && NestedEntry(file, getBBT, e.bidSub, path[1..], nid, data)
    decreases |path|, 0
  {
    hide SLEntriesAt, Built;
    if OccursAt(t, path, nid, data) {
      var s := t.subtrees[path[0]];
      assert HasNested(file, getBBT, rank, entries, path[0], s);
      var e :| e in entries && e.nid == path[0] && e.bidSub != 0 && rank(e.bidSub).Some?
               && Built(file, getBBT, rank, e.bidSub) == Some(s);
      BuiltIsExact(file, getBBT, rank, e.bidSub, path[1..], nid, data);
    }
    forall e | e in entries && e.nid == path[0] && e.bidSub != 0
               && NestedEntry(file, getBBT, e.bidSub, path[1..], nid, data)
      ensures OccursAt(t, path, nid, data)
    {
      var s := Built(file, getBBT, rank, e.bidSub).value;
      assert HasNested(file, getBBT, rank, entries, path[0], s);
      BuiltIsExact(file, getBBT, rank, e.bidSub, path[1..], nid, data);
    }
  }

  /** Every nested block of a tree that was built could be built. */
  lemma {:induction false} NestedBuilt(file: seq<byte>, getBBT: GetBBT, rank: Rank, bound: nat,
                                       entries: seq<SLEntry>)
    requires Acyclic(file, getBBT, rank) && NestedBelow(entries, rank, bound)
    requires BuiltFrom(file, getBBT, rank, bound, entries).Some?
    ensures forall e :: e in entries && e.bidSub != 0 ==> Built(file, getBBT, rank, e.bidSub).Some?
    decreases |entries|
  {
    hide Built, SLEntriesAt;
    if entries == [] {
    } else {
      var init, e := entries[..|entries| - 1], entries[|entries| - 1];
      assert forall x :: x in entries <==> x in init || x == e;
      NestedBuilt(file, getBBT, rank, bound, init);
    }
  }

  lemma AnswerIsNested(file: seq<byte>, getBBT: GetBBT, rank: Rank, bid: uint64, nid: uint32, data: BBTEntry)
    returns (path: seq<uint32>)
    requires Acyclic(file, getBBT, rank) && InNest(rank, bid) && Built(file, getBBT, rank, bid).Some?
    requires Answer(Built(file, getBBT, rank, bid).value, nid, data)
    ensures NestedEntry(file, getBBT, bid, path, nid, data)
  {
    hide Built, NestedEntry, Answer;
    path := AnswerOccurs(Built(file, getBBT, rank, bid).value, nid, data);
    BuiltIsExact(file, getBBT, rank, bid, path, nid, data);
  }

  lemma NestedIsAnswered(file: seq<byte>, getBBT: GetBBT, rank: Rank, bid: uint64, path: seq<uint32>,
                         nid: uint32, data: BBTEntry)
    returns (answer: BBTEntry)
    requires Acyclic(file, getBBT, rank) && InNest(rank, bid) && Built(file, getBBT, rank, bid).Some?
    requires NestedEntry(file, getBBT, bid, path, nid, data)
    ensures Answer(Built(file, getBBT, rank, bid).value, nid, answer)
  {
    hide Built, NestedEntry, Answer;
    BuiltIsExact(file, getBBT, rank, bid, path, nid, data);
    answer := OccurrenceAnswers(Built(file, getBBT, rank, bid).value, path, nid, data);
  }

  /**
   * `getDataTree` on a tree built from a file finds a data tree exactly when, at some nesting level, an entry for the
   * node has a data block that the block index resolves.
   */
  lemma FoundIffNested(file: seq<byte>, getBBT: GetBBT, rank: Rank, bid: uint64, nid: uint32)
    requires Acyclic(file, getBBT, rank) && InNest(rank, bid) && Built(file, getBBT, rank, bid).Some?
    ensures (exists data :: Answer(Built(file, getBBT, rank, bid).value, nid, data))
            <==> exists path, data :: NestedEntry(file, getBBT, bid, path, nid, data)
  {
    hide Built, NestedEntry, Answer, Acyclic;
    if data :| Answer(Built(file, getBBT, rank, bid).value, nid, data) {
      var path := AnswerIsNested(file, getBBT, rank, bid, nid, data);
    }
    if path, data :| NestedEntry(file, getBBT, bid, path, nid, data) {
      var answer := NestedIsAnswered(file, getBBT, rank, bid, path, nid, data);
    }
  }

  // ----- when the constructor returns

  /** What the constructor does when it may only nest so deep: it may not have come to an end. */
  datatype Outcome = Unfinished | Fails | Made(t: SubNodeBTree)

  function Within(file: seq<byte>, getBBT: GetBBT, depth: nat, bid: uint64): Outcome
    decreases depth, 0, 0
  {
    if bid == 0 then Made(NO_SUBNODES)
    else if depth == 0 then Unfinished
    else
      var entries := SLEntriesAt(file, getBBT, bid);
      if entries.None? then Fails else FromWithin(file, getBBT, depth - 1, entries.value)
  }

  function FromWithin(file: seq<byte>, getBBT: GetBBT, depth: nat, entries: seq<SLEntry>): Outcome
    decreases depth, 1, |entries|
  {
    if entries == [] then Made(NO_SUBNODES)
    else
      var before, e := FromWithin(file, getBBT, depth, entries[..|entries| - 1]), entries[|entries| - 1];
      if !before.Made? then before
      else if e.nid in before.t.subtrees || e.nid in before.t.datatrees then Fails
      else
        var nested := Within(file, getBBT, depth, e.bidSub);
        if nested.Made? then Made(Added(before.t, e, nested.t, getBBT(e.bidData))) else nested
  }

  function Finished(r: Option<SubNodeBTree>): Outcome
  {
    if r.None? then Fails else Made(r.value)
  }

  /** Below a root without cycles some depth suffices, its rank for one, and the outcome is that of the constructor. */
  lemma {:induction false} AcyclicFinishes(file: seq<byte>, getBBT: GetBBT, rank: Rank, bid: uint64, depth: nat)
    requires Acyclic(file, getBBT, rank) && InNest(rank, bid) && RankOf(rank, bid) < depth
    ensures Within(file, getBBT, depth, bid) == Finished(Built(file, getBBT, rank, bid))
    decreases depth, 0, 0
  {
    hide SLEntriesAt;
    if bid == 0 {
    } else {
      var entries := SLEntriesAt(file, getBBT, bid);
      if entries.Some? {
        FromAcyclicFinishes(file, getBBT, rank, RankOf(rank, bid), entries.value, depth - 1);
      }
    }
  }

  lemma {:induction false} FromAcyclicFinishes(file: seq<byte>, getBBT: GetBBT, rank: Rank, bound: nat,
                                              entries: seq<SLEntry>, depth: nat)
    requires Acyclic(file, getBBT, rank) && NestedBelow(entries, rank, bound) && bound <= depth
    ensures FromWithin(file, getBBT, depth, entries) == Finished(BuiltFrom(file, getBBT, rank, bound, entries))
    decreases depth, 1, |entries|
  {
    hide SLEntriesAt, Acyclic, Within, Built;
    if entries == [] {
    } else {
      var n := |entries| - 1;
      var e := entries[n];
      assert e in entries;
      FromAcyclicFinishes(file, getBBT, rank, bound, entries[..n], depth);
      NoSubNodes(file, getBBT, rank, depth);
      if e.bidSub != 0 {
        AcyclicFinishes(file, getBBT, rank, e.bidSub, depth);
      }
    }
  }

  lemma NoSubNodes(file: seq<byte>, getBBT: GetBBT, rank: Rank, depth: nat)
    ensures Within(file, getBBT, depth, 0) == Made(NO_SUBNODES)
  {
  }

  /** A block whose first entry nests the block itself exhausts every depth: the constructor does not return. */
  lemma {:induction false} CycleNeverFinishes(file: seq<byte>, getBBT: GetBBT, bid: uint64, depth: nat)
    requires bid != 0 && SLEntriesAt(file, getBBT, bid).Some? && SLEntriesAt(file, getBBT, bid).value != []
    requires SLEntriesAt(file, getBBT, bid).value[0].bidSub == bid
    ensures Within(file, getBBT, depth, bid) == Unfinished
  {
    hide SLEntriesAt;
    if depth == 0 {
    } else {
      CycleNeverFinishes(file, getBBT, bid, depth - 1);
      FirstUnfinished(file, getBBT, depth - 1, SLEntriesAt(file, getBBT, bid).value);
    }
  }

  lemma {:induction false} FirstUnfinished(file: seq<byte>, getBBT: GetBBT, depth: nat, entries: seq<SLEntry>)
    requires entries != [] && Within(file, getBBT, depth, entries[0].bidSub) == Unfinished
    ensures FromWithin(file, getBBT, depth, entries) == Unfinished
  {
    hide Within;
    var n := |entries| - 1;
    if n == 0 {
      assert FromWithin(file, getBBT, depth, entries[..0]) == Made(NO_SUBNODES);
    } else {
      FirstUnfinished(file, getBBT, depth, entries[..n]);
    }
  }
}
