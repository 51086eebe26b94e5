/**
 * A writer for data trees, block after block in the documented layout, and the end-to-end theorem: loading what was
 * written gives the payload back, for every payload that the format can hold.
 */
module Writer {
  import opened Blocks
  import opened Bytes
  import opened Cipher
  import opened DataTrees
  import opened Ids
  import opened RoundTrip
  import opened Views

  // ----- splitting a payload

  function Split<T>(s: seq<T>, size: nat): (parts: seq<seq<T>>)
    requires size > 0
    ensures parts != [] && forall p :: p in parts ==> |p| <= size
    decreases |s|
  {
    if |s| <= size then [s] else [s[..size]] + Split(s[size..], size)
  }

  lemma {:induction false} SplitJoins<T>(s: seq<T>, size: nat)
    requires size > 0
    ensures Flatten(Split(s, size)) == s
    decreases |s|
  {
    var parts := Split(s, size);
    if |s| <= size {
      assert Flatten(parts) == parts[0] + Flatten(parts[1..]) == s;
    } else {
      SplitJoins(s[size..], size);
      assert parts[1..] == Split(s[size..], size);
    }
  }

  /** A sequence splits into at most `n` parts exactly when it is at most `n` times as long as a part. */
  lemma {:induction false} SplitCount<T>(s: seq<T>, size: nat, n: nat)
    requires size > 0 && n > 0
    ensures |Split(s, size)| <= n <==> |s| <= n * size
    decreases |s|
  {
    if |s| <= size {
      assert n * size >= size by {
        Times(n, size);
      }
    } else if n == 1 {
      assert |Split(s[size..], size)| >= 1;
    } else {
      SplitCount(s[size..], size, n - 1);
      Times(n, size);
    }
  }

  // ----- the file under construction

  /** File contents, block index, and how many blocks have been written. */
  datatype Disk = Disk(file: seq<byte>, index: map<uint64, BBTEntry>, count: nat)

  const MAX_BLOCKS: nat := 0x10_0000_0000

  ghost predicate Sound(d: Disk)
  {
    && d.count <= MAX_BLOCKS
    && |d.file| <= 8192 * d.count
    && forall bid :: bid in d.index ==> bid < 4 * d.count + 4 && d.index[bid].bref.bid == bid
  }

  function Lookup(index: map<uint64, BBTEntry>): GetBBT
  {
    bid => if bid in index then Some(index[bid]) else None
  }

  /** Everything that `d` holds is still where it was in `e`. */
  ghost predicate Extends(d: Disk, e: Disk)
  {
    && |d.file| <= |e.file| && e.file[..|d.file|] == d.file
    && (forall bid :: bid in d.index ==> bid in e.index && e.index[bid] == d.index[bid])
  }

  lemma ExtendsTransitive(d: Disk, e: Disk, f: Disk)
    requires Extends(d, e) && Extends(e, f)
    ensures Extends(d, f)
  {
    assert f.file[..|d.file|] == f.file[..|e.file|][..|d.file|];
  }

  lemma HoldsStable(d: Disk, e: Disk, ib: nat, bytes: seq<byte>)
    requires Extends(d, e) && Holds(d.file, ib, bytes)
    ensures Holds(e.file, ib, bytes)
  {
    assert e.file[ib..ib + |bytes|] == e.file[..|d.file|][ib..ib + |bytes|];
  }

  /** Where the next block goes; identifiers grow by four, with the second bit marking internal blocks. */
  function NextBref(d: Disk, internal: bool): (r: BREF)
    requires Sound(d) && d.count < MAX_BLOCKS
    ensures IsInternal(r.bid) == internal && r.bid !in d.index && r.bid < 4 * d.count + 8 && r.ib == |d.file|
    ensures 4 * d.count + 4 <= r.bid
  {
    var k := d.count + 1;
    if internal then
      assert (4 * k + 2) / 2 == 2 * k + 1;
      BREF(4 * k + 2, |d.file|)
    else
      assert (4 * k) / 2 == 2 * k;
      BREF(4 * k, |d.file|)
  }

  /** Appends one block. */
  function Append(d: Disk, raw: seq<byte>, internal: bool): (r: (Disk, BBTEntry))
    requires Sound(d) && d.count < MAX_BLOCKS && |raw| <= 8176
    ensures Sound(r.0) && Extends(d, r.0) && r.0.count == d.count + 1
  {
    var bref := NextBref(d, internal);
    CheckedSizeExact(|raw|);
    Appended(d, Disk(d.file + Stored(raw, bref), d.index[bref.bid := BBTEntry(bref, |raw|, 1, 0)], d.count + 1),
             BBTEntry(bref, |raw|, 1, 0), Stored(raw, bref));
    (Disk(d.file + Stored(raw, bref), d.index[bref.bid := BBTEntry(bref, |raw|, 1, 0)], d.count + 1),
     BBTEntry(bref, |raw|, 1, 0))
  }

  lemma Appended(d: Disk, e: Disk, entry: BBTEntry, block: seq<byte>)
    requires Sound(d) && d.count < MAX_BLOCKS && |block| <= 8192 && entry.bref.bid !in d.index
    requires entry.bref.bid < 4 * d.count + 8 && entry.bref.ib == |d.file|
    requires e == Disk(d.file + block, d.index[entry.bref.bid := entry], d.count + 1)
    ensures Sound(e) && Extends(d, e) && Holds(e.file, entry.bref.ib, block)
    ensures Lookup(e.index)(entry.bref.bid) == Some(entry)
  {
  }

  lemma AppendHolds(d: Disk, raw: seq<byte>, internal: bool)
    requires Sound(d) && d.count < MAX_BLOCKS && |raw| <= 8176
    ensures var (e, entry) := Append(d, raw, internal);
      && entry.cb == |raw| && IsInternal(entry.bref.bid) == internal && 4 * d.count + 4 <= entry.bref.bid
      && Lookup(e.index)(entry.bref.bid) == Some(entry)
      && Holds(e.file, entry.bref.ib, Stored(raw, entry.bref))
  {
    var bref := NextBref(d, internal);
    var entry := BBTEntry(bref, |raw|, 1, 0);
    CheckedSizeExact(|raw|);
    Appended(d, Append(d, raw, internal).0, entry, Stored(raw, bref));
  }

  // ----- data blocks, X blocks, XX blocks

  function WriteData(d: Disk, pieces: seq<seq<byte>>): (r: (Disk, seq<uint64>))
    requires Sound(d) && d.count + |pieces| <= MAX_BLOCKS && forall p :: p in pieces ==> |p| <= 8176
    ensures Sound(r.0) && Extends(d, r.0) && r.0.count == d.count + |pieces| && |r.1| == |pieces|
  {
    if pieces == [] then (d, [])
    else
      var n := |pieces| - 1;
      var (before, bids) := WriteData(d, pieces[..n]);
      assert pieces[n] in pieces;
      var (after, entry) := Append(before, Permuted(true, pieces[n]), false);
      ExtendsTransitive(d, before, after);
      (after, bids + [entry.bref.bid])
  }

  lemma PieceStable(d: Disk, e: Disk, bid: uint64, piece: seq<byte>)
    requires Extends(d, e) && HoldsPiece(d.file, Lookup(d.index), bid, piece)
    ensures HoldsPiece(e.file, Lookup(e.index), bid, piece)
  {
    var entry := d.index[bid];
    HoldsStable(d, e, entry.bref.ib, StoredData(piece, entry.bref));
  }

  lemma PiecesStable(d: Disk, e: Disk, bids: seq<uint64>, pieces: seq<seq<byte>>)
    requires Extends(d, e) && HoldsPieces(d.file, Lookup(d.index), bids, pieces)
    ensures HoldsPieces(e.file, Lookup(e.index), bids, pieces)
  {
    forall i | 0 <= i < |bids|
      ensures HoldsPiece(e.file, Lookup(e.index), bids[i], pieces[i])
    {
      PieceStable(d, e, bids[i], pieces[i]);
    }
  }

  lemma {:induction false} DataWritten(d: Disk, pieces: seq<seq<byte>>)
    requires Sound(d) && d.count + |pieces| <= MAX_BLOCKS && forall p :: p in pieces ==> |p| <= 8176
    ensures var (e, bids) := WriteData(d, pieces); HoldsPieces(e.file, Lookup(e.index), bids, pieces)
  {
    hide HoldsPiece, Append, Extends;
    if pieces == [] {
    } else {
      var n := |pieces| - 1;
      DataWritten(d, pieces[..n]);
      var (before, bids) := WriteData(d, pieces[..n]);
      assert pieces[n] in pieces;
      var (after, entry) := Append(before, Permuted(true, pieces[n]), false);
      PiecesStable(before, after, bids, pieces[..n]);
      PieceWritten(before, pieces[n]);
    }
  }

  lemma PieceWritten(d: Disk, piece: seq<byte>)
    requires Sound(d) && d.count < MAX_BLOCKS && |piece| <= 8176
    ensures var (e, entry) := Append(d, Permuted(true, piece), false);
      HoldsPiece(e.file, Lookup(e.index), entry.bref.bid, piece)
  {
    hide Stored, Permuted, Holds, Append;
    AppendHolds(d, Permuted(true, piece), false);
  }

  /** The total that an X or XX block records, in its 32-bit field. */
  function Total(pieces: seq<seq<byte>>): uint32
  {
    |Flatten(pieces)| % 0x1_0000_0000
  }

  function WriteX(d: Disk, pieces: seq<seq<byte>>): (r: (Disk, BBTEntry))
    requires Sound(d) && |pieces| <= 1021 && d.count + 1022 <= MAX_BLOCKS && forall p :: p in pieces ==> |p| <= 8176
    ensures Sound(r.0) && Extends(d, r.0) && r.0.count <= d.count + 1022
  {
    var (e, bids) := WriteData(d, pieces);
    var r := Append(e, XRaw(1, Total(pieces), bids), true);
    ExtendsTransitive(d, e, r.0);
    r
  }

  function GroupOf(d: Disk, pieces: seq<seq<byte>>): Group
    requires Sound(d) && |pieces| <= 1021 && d.count + 1022 <= MAX_BLOCKS && forall p :: p in pieces ==> |p| <= 8176
  {
    Group(Total(pieces), WriteData(d, pieces).1, pieces)
  }

  lemma XWritten(d: Disk, pieces: seq<seq<byte>>)
    requires Sound(d) && |pieces| <= 1021 && d.count + 1022 <= MAX_BLOCKS && forall p :: p in pieces ==> |p| <= 8176
    ensures var (e, entry) := WriteX(d, pieces);
      && Lookup(e.index)(entry.bref.bid) == Some(entry)
      && HoldsGroup(e.file, Lookup(e.index), entry.bref.bid, GroupOf(d, pieces))
  {
    hide Stored, XRaw, Holds, Append, Extends, HoldsPieces;
    var (e, bids) := WriteData(d, pieces);
    DataWritten(d, pieces);
    AppendHolds(e, XRaw(1, Total(pieces), bids), true);
    var (f, entry) := Append(e, XRaw(1, Total(pieces), bids), true);
    PiecesStable(e, f, bids, pieces);
  }

  predicate Writable(groups: seq<seq<seq<byte>>>)
  {
    |groups| <= 1021 && forall g :: g in groups ==> |g| <= 1021 && forall p :: p in g ==> |p| <= 8176
  }

  lemma WritableGroup(groups: seq<seq<seq<byte>>>, n: nat)
    requires Writable(groups) && n < |groups|
    ensures Writable(groups[..n]) && |groups[n]| <= 1021 && forall p :: p in groups[n] ==> |p| <= 8176
  {
    assert groups[n] in groups;
  }

  function WriteGroups(d: Disk, groups: seq<seq<seq<byte>>>): (r: (Disk, seq<uint64>))
    requires Sound(d) && Writable(groups) && d.count + 1022 * |groups| <= MAX_BLOCKS
    ensures Sound(r.0) && Extends(d, r.0) && r.0.count <= d.count + 1022 * |groups| && |r.1| == |groups|
  {
    if groups == [] then (d, [])
    else
      var n := |groups| - 1;
      WritableGroup(groups, n);
      var (before, bids) := WriteGroups(d, groups[..n]);
      var (after, entry) := WriteX(before, groups[n]);
      ExtendsTransitive(d, before, after);
      (after, bids + [entry.bref.bid])
  }

  lemma GroupStable(d: Disk, e: Disk, bid: uint64, group: Group)
    requires Extends(d, e) && HoldsGroup(d.file, Lookup(d.index), bid, group)
    ensures HoldsGroup(e.file, Lookup(e.index), bid, group)
  {
    var entry := d.index[bid];
    HoldsStable(d, e, entry.bref.ib, Stored(XRaw(1, group.lcbTotal, group.bids), entry.bref));
    PiecesStable(d, e, group.bids, group.pieces);
  }

  /** What the groups written are, as the loader will find them. */
  ghost predicate FindsGroups(d: Disk, bids: seq<uint64>, found: seq<Group>)
  {
    |found| == |bids| && forall i :: 0 <= i < |bids| ==> HoldsGroup(d.file, Lookup(d.index), bids[i], found[i])
  }

  lemma OneMoreGroup(d: Disk, bids: seq<uint64>, found: seq<Group>, pieces: seq<seq<byte>>)
    requires Sound(d) && |pieces| <= 1021 && d.count + 1022 <= MAX_BLOCKS && forall p :: p in pieces ==> |p| <= 8176
    requires FindsGroups(d, bids, found)
    ensures var (e, entry) := WriteX(d, pieces);
      FindsGroups(e, bids + [entry.bref.bid], found + [GroupOf(d, pieces)])
  {
    hide HoldsGroup, WriteX, Extends;
    var (e, entry) := WriteX(d, pieces);
    XWritten(d, pieces);
    forall i | 0 <= i < |bids|
      ensures HoldsGroup(e.file, Lookup(e.index), bids[i], found[i])
    {
      GroupStable(d, e, bids[i], found[i]);
    }
  }

  lemma OneMoreGroupPieces(found: seq<Group>, group: Group, groups: seq<seq<seq<byte>>>)
    requires groups != [] && group.pieces == groups[|groups| - 1]
    requires AllPieces(found) == Flatten(groups[..|groups| - 1])
    ensures AllPieces(found + [group]) == Flatten(groups)
  {
    hide Flatten, AllPieces;
    var n := |groups| - 1;
    AllPiecesSnoc(found, group);
    FlattenSnoc(groups[..n], groups[n]);
    assert groups == groups[..n] + [groups[n]];
  }

  lemma {:induction false} GroupsWritten(d: Disk, groups: seq<seq<seq<byte>>>) returns (found: seq<Group>)
    requires Sound(d) && Writable(groups) && d.count + 1022 * |groups| <= MAX_BLOCKS
    ensures var (e, bids) := WriteGroups(d, groups);
      FindsGroups(e, bids, found) && AllPieces(found) == Flatten(groups)
  {
    hide FindsGroups, WriteX, Extends, Sound, Writable, Total;
    if groups == [] {
      found := [];
      NoGroups(d);
    } else {
      var n := |groups| - 1;
      WritableGroup(groups, n);
      var before := GroupsWritten(d, groups[..n]);
      var (e, bids) := WriteGroups(d, groups[..n]);
      var group := GroupOf(e, groups[n]);
      found := before + [group];
      OneMoreGroup(e, bids, before, groups[n]);
      OneMoreGroupPieces(before, group, groups);
    }
  }

  lemma NoGroups(d: Disk)
    ensures FindsGroups(d, [], [])
  {
  }

  // ----- end to end

  /** Data bytes under a full X block, and under a full XX block. */
  const X_CAPACITY: nat := 1021 * 8176
  const XX_CAPACITY: nat := 1021 * (1021 * 8176)

  const EMPTY_DISK: Disk := Disk([], map[], 0)

  /** Blocks that a payload may take: a full X block for each group, and the XX block. */
  function Room(payload: seq<byte>): nat
  {
    1022 * |Split(Split(payload, 8176), 1021)| + 1
  }

  ghost predicate Fits(d: Disk, payload: seq<byte>)
  {
    Sound(d) && |payload| <= XX_CAPACITY && d.count + Room(payload) <= MAX_BLOCKS
  }

  lemma EmptyDiskFits(payload: seq<byte>)
    requires |payload| <= XX_CAPACITY
    ensures Fits(EMPTY_DISK, payload)
  {
    PiecesFit(payload);
  }

  /** Writes the blocks of a payload after whatever is there; the second result is the entry of its root. */
  function Written(d: Disk, payload: seq<byte>): (r: (Disk, BBTEntry))
    requires Fits(d, payload)
    ensures Sound(r.0) && Extends(d, r.0) && r.0.count <= d.count + Room(payload)
  {
    var pieces := Split(payload, 8176);
    PiecesFit(payload);
    if |pieces| == 1 then
      Append(d, Permuted(true, payload), false)
    else if |pieces| <= 1021 then
      WriteX(d, pieces)
    else
      var groups := Split(pieces, 1021);
      var (e, bids) := WriteGroups(d, groups);
      var r := Append(e, XRaw(2, Total(pieces), bids), true);
      ExtendsTransitive(d, e, r.0);
      r
  }

  lemma PiecesFit(payload: seq<byte>)
    requires |payload| <= XX_CAPACITY
    ensures var pieces := Split(payload, 8176);
      && Writable(Split(pieces, 1021))
      && (|pieces| == 1 <==> |payload| <= 8176)
      && (|pieces| <= 1021 <==> |payload| <= X_CAPACITY)
  {
    var pieces := Split(payload, 8176);
    SplitCount(payload, 8176, 1);
    SplitCount(payload, 8176, 1021);
    SplitCount(payload, 8176, 1021 * 1021);
    SplitCount(pieces, 1021, 1021);
    SplitJoins(pieces, 1021);
    PartsWithin(Split(pieces, 1021), pieces);
  }

  /** Elements of the parts are elements of the whole. */
  lemma {:induction false} PartsWithin<T>(parts: seq<seq<T>>, whole: seq<T>)
    requires Flatten(parts) == whole
    ensures forall g, p :: g in parts && p in g ==> p in whole
  {
    if parts == [] {
    } else {
      PartsWithin(parts[1..], Flatten(parts[1..]));
    }
  }

  /** What loading the written payload gives. */
  function Reloaded(d: Disk, payload: seq<byte>, dispatch: Dispatch): Option<seq<byte>>
    requires Fits(d, payload)
  {
    var (e, root) := Written(d, payload);
    var blocks :- LoadedBlocks(e.file, Lookup(e.index), root.bref, root.cb, dispatch);
    Some(Combined(blocks))
  }

  /** The root is listed under its own identifier. */
  lemma RootListed(d: Disk, payload: seq<byte>)
    requires Fits(d, payload)
    ensures var (e, root) := Written(d, payload); Lookup(e.index)(root.bref.bid) == Some(root)
  {
    hide Append, WriteGroups, WriteX, WriteData, Stored, Holds;
    PiecesFit(payload);
    var pieces := Split(payload, 8176);
    if |pieces| == 1 {
      AppendHolds(d, Permuted(true, payload), false);
    } else if |pieces| <= 1021 {
      XWritten(d, pieces);
    } else {
      var (e, bids) := WriteGroups(d, Split(pieces, 1021));
      AppendHolds(e, XRaw(2, Total(pieces), bids), true);
    }
  }

  lemma SmallReload(d: Disk, payload: seq<byte>, dispatch: Dispatch)
    requires Fits(d, payload) && |payload| <= 8176
    ensures Reloaded(d, payload, dispatch) == Some(payload)
  {
    hide LoadedBlocks, Append;
    PiecesFit(payload);
    AppendHolds(d, Permuted(true, payload), false);
    var (e, root) := Append(d, Permuted(true, payload), false);
    SingleBlockRoundTrip(e.file, Lookup(e.index), root, payload, dispatch);
  }

  lemma MediumReload(d: Disk, payload: seq<byte>, dispatch: Dispatch)
    requires Fits(d, payload) && 8176 < |payload| <= X_CAPACITY
    ensures Reloaded(d, payload, dispatch) == Some(payload)
  {
    hide LoadedBlocks, WriteX, HoldsX, HoldsPieces;
    PiecesFit(payload);
    SplitJoins(payload, 8176);
    var pieces := Split(payload, 8176);
    XWritten(d, pieces);
    var (e, root) := WriteX(d, pieces);
    var group := GroupOf(d, pieces);
    XBlockTreeRoundTrip(e.file, Lookup(e.index), root.bref, root.cb, group.lcbTotal, group.bids, group.pieces,
                        dispatch);
  }

  lemma LargeReload(d: Disk, payload: seq<byte>)
    requires Fits(d, payload) && X_CAPACITY < |payload|
    ensures Reloaded(d, payload, ByLevel) == Some(payload)
    ensures Reloaded(d, payload, AsWritten) == None
  {
    hide LoadedBlocks, Append, WriteGroups, HoldsX, HoldsGroup, Writable;
    PiecesFit(payload);
    SplitJoins(payload, 8176);
    var pieces := Split(payload, 8176);
    SplitJoins(pieces, 1021);
    var e, root, bids, found := XXWritten(d, Split(pieces, 1021), Total(pieces));
    XXBlockTreeRoundTrip(e.file, Lookup(e.index), root.bref, root.cb, Total(pieces), bids, found);
  }

  /** The file after an XX block has been appended to its groups, as the loader will find it. */
  lemma XXWritten(d: Disk, groups: seq<seq<seq<byte>>>, total: uint32)
    returns (e: Disk, root: BBTEntry, bids: seq<uint64>, found: seq<Group>)
    requires Sound(d) && Writable(groups) && d.count + 1022 * |groups| < MAX_BLOCKS
    ensures var (before, written) := WriteGroups(d, groups);
      bids == written && (e, root) == Append(before, XRaw(2, total, bids), true)
    ensures HoldsX(e.file, root.bref, root.cb, 2, total, bids)
    ensures |bids| == |found| && AllPieces(found) == Flatten(groups)
    ensures forall i :: 0 <= i < |bids| ==> HoldsGroup(e.file, Lookup(e.index), bids[i], found[i])
  {
    hide HoldsGroup, Append, WriteGroups, Holds, Extends, Stored, XRaw;
    var before := WriteGroups(d, groups).0;
    bids := WriteGroups(d, groups).1;
    found := GroupsWritten(d, groups);
    AppendHolds(before, XRaw(2, total, bids), true);
    e, root := Append(before, XRaw(2, total, bids), true).0, Append(before, XRaw(2, total, bids), true).1;
    forall i | 0 <= i < |bids|
      ensures HoldsGroup(e.file, Lookup(e.index), bids[i], found[i])
    {
      GroupStable(before, e, bids[i], found[i]);
    }
  }

  /**
   * Every payload that the format can hold comes back, wherever its blocks are written, when the kind of the root is
   * read from `cLevel`.
   */
  lemma WriteThenLoad(d: Disk, payload: seq<byte>)
    requires Fits(d, payload)
    ensures Reloaded(d, payload, ByLevel) == Some(payload)
  {
    if |payload| <= 8176 {
      SmallReload(d, payload, ByLevel);
    } else if |payload| <= X_CAPACITY {
      MediumReload(d, payload, ByLevel);
    } else {
      LargeReload(d, payload);
    }
  }

  /** In particular on an empty disk, where there is room for every such payload. */
  lemma EveryPayloadReloads(payload: seq<byte>)
    requires |payload| <= XX_CAPACITY
    ensures Fits(EMPTY_DISK, payload) && Reloaded(EMPTY_DISK, payload, ByLevel) == Some(payload)
  {
    hide Reloaded, Fits;
    EmptyDiskFits(payload);
    WriteThenLoad(EMPTY_DISK, payload);
  }

  /** As the source decides, a payload comes back exactly when no XX block was needed to write it. */
  lemma WriteThenLoadAsWritten(d: Disk, payload: seq<byte>)
    requires Fits(d, payload)
    ensures Reloaded(d, payload, AsWritten) == Some(payload) <==> |payload| <= X_CAPACITY
  {
    if |payload| <= 8176 {
      SmallReload(d, payload, AsWritten);
    } else if |payload| <= X_CAPACITY {
      MediumReload(d, payload, AsWritten);
    } else {
      LargeReload(d, payload);
    }
  }
}
