/**
 * A writer for the pages of a node or block B-tree, subtree after subtree in the documented layout (section 2.2.2.7.7
 * of [MS-PST]), and the theorem that loading what was written gives a sorted tree with exactly the entries written.
 */
module BTWriter {
  import opened Blocks
  import opened BTPages
  import opened BTSearch
  import opened Bytes
  import opened DataTrees
  import opened Ids
  import opened Ndb
  import opened PageLayout
  import opened Views
  import opened Writer

  // ----- entries to be listed

  /** An entry that its first `size` bytes determine, and that is searched for by the key that its page sorts by. */
  predicate Printed(kind: IndexKind, size: nat, e: Entry)
    requires size <= ENTRY_MAX_SIZE
  {
    EntryOf(e.data[..size]) == Some(e) && KeyOf(kind, e) == e.btkey
  }

  ghost predicate Ordered(entries: seq<Entry>)
  {
    forall i, j :: 0 <= i < j < |entries| ==> entries[i].btkey < entries[j].btkey
  }

  ghost predicate Listable(kind: IndexKind, size: nat, entries: seq<Entry>)
  {
    8 <= size <= ENTRY_MAX_SIZE && Ordered(entries) && forall e :: e in entries ==> Printed(kind, size, e)
  }

  function RawBytes(entries: seq<Entry>, size: nat): (raw: seq<seq<byte>>)
    requires size <= ENTRY_MAX_SIZE
    ensures |raw| == |entries| && forall c :: c in raw ==> |c| == size
  {
    seq(|entries|, i requires 0 <= i < |entries| => entries[i].data[..size])
  }

  lemma RawBytesSnoc(entries: seq<Entry>, size: nat)
    requires size <= ENTRY_MAX_SIZE && entries != []
    ensures var n := |entries| - 1; RawBytes(entries, size) == RawBytes(entries[..n], size) + [entries[n].data[..size]]
  {
  }

  lemma {:induction false} RawBytesRead(entries: seq<Entry>, size: nat)
    requires size <= ENTRY_MAX_SIZE && forall e :: e in entries ==> EntryOf(e.data[..size]) == Some(e)
    ensures EntriesOf(RawBytes(entries, size)) == Some(entries)
  {
    hide EntryOf, EntriesOf, RawBytes;
    if entries == [] {
      NoEntries();
      assert RawBytes(entries, size) == [];
    } else {
      var n := |entries| - 1;
      assert entries[n] in entries;
      RawBytesRead(entries[..n], size);
      EntriesSnoc(RawBytes(entries[..n], size), entries[n].data[..size]);
      RawBytesSnoc(entries, size);
      assert entries == entries[..n] + [entries[n]];
    }
  }

  // ----- pages

  /** Entries that fit the 488 bytes of a page. */
  function PerPage(size: nat): (n: nat)
    requires 8 <= size <= ENTRY_MAX_SIZE
    ensures 0 < n <= 61 && n * size <= ENTRIES_SIZE
  {
    ENTRIES_SIZE / size
  }

  function PTypeOf(kind: IndexKind): byte {
    if kind == NodeIndex then PTYPE_NBT else PTYPE_BBT
  }

  lemma TimesMonotone(m: nat, n: nat, size: nat)
    requires m <= n
    ensures m * size <= n * size
  {
  }

  function PageFor(kind: IndexKind, raw: seq<seq<byte>>, size: nat, cLevel: byte): (p: PrintedPage)
    requires 8 <= size <= ENTRY_MAX_SIZE && |raw| <= PerPage(size) && forall c :: c in raw ==> |c| == size
    ensures Printable(p)
  {
    FlattenSize(raw, size);
    TimesMonotone(|raw|, PerPage(size), size);
    PrintedPage(raw, PerPage(size), size, cLevel, PTypeOf(kind), 0, 0)
  }

  /** A page with the CRC of the bytes before its trailer, at the end of the file. */
  function AppendPage(file: seq<byte>, p: PrintedPage): (r: (seq<byte>, BREF))
    requires Printable(p) && |file| < 0x1_0000_0000_0000_0000
    ensures |r.0| == |file| + PAGE_SIZE && Prefix(file, r.0) && r.1.ib == |file|
  {
    var bref := BREF(|file|, |file|);
    (file + PageBytes(Sealed(p, bref), bref), bref)
  }

  function Sealed(p: PrintedPage, bref: BREF): (q: PrintedPage)
    requires Printable(p)
    ensures Printable(q)
  {
    p.(dwCRC := CrcOf(PageBytes(p, bref)[..PAGE_SIZE - 16]), bid := bref.bid)
  }

  lemma AppendedPageReads(file: seq<byte>, p: PrintedPage, whole: seq<byte>, parentCLevel: int)
    requires Printable(p) && |file| < 0x1_0000_0000_0000_0000 && Prefix(AppendPage(file, p).0, whole)
    requires parentCLevel == -1 || parentCLevel == p.cLevel as int + 1
    ensures EntriesOf(p.raw).Some?
    ensures var page := PageAt(whole, AppendPage(file, p).1, parentCLevel);
      && page.Some? && page.value.cLevel == p.cLevel && page.value.trailer.ptype == p.ptype
      && page.value.rgentries == EntriesOf(p.raw).value
  {
    hide PageBytes, PageAt, EntriesOf;
    var (f, bref) := AppendPage(file, p);
    var q := Sealed(p, bref);
    assert f[|file|..] == PageBytes(q, bref);
    assert whole[|file|..|f|] == f[|file|..];
    PageRoundTrip(whole, q, bref, parentCLevel);
  }

  // ----- trees

  const FANOUT: nat := 20

  /** Entries under a full page of a level. */
  function Capacity(size: nat, level: nat): (n: nat)
    requires 8 <= size <= ENTRY_MAX_SIZE
    ensures n > 0
  {
    if level == 0 then PerPage(size) else FANOUT * Capacity(size, level - 1)
  }

  /** Bytes that a full page of a level and everything under it take. */
  function TreeBytes(level: nat): nat
  {
    if level == 0 then PAGE_SIZE else FANOUT * TreeBytes(level - 1) + PAGE_SIZE
  }

  const FILE_LIMIT: nat := 0x1_0000_0000_0000_0000

  predicate TreeFits(file: seq<byte>, entries: seq<Entry>, size: nat, level: byte)
  {
    && 8 <= size <= ENTRY_MAX_SIZE && |entries| <= Capacity(size, level)
    && |file| + TreeBytes(level) <= FILE_LIMIT
  }

  predicate ChildrenFit(file: seq<byte>, chunks: seq<seq<Entry>>, size: nat, level: byte)
  {
    && 8 <= size <= ENTRY_MAX_SIZE && |chunks| <= FANOUT
    && (forall c :: c in chunks ==> |c| <= Capacity(size, level))
    && |file| + |chunks| * TreeBytes(level) + PAGE_SIZE <= FILE_LIMIT
  }

  function FirstKey(entries: seq<Entry>): uint64 {
    if entries == [] then 0 else entries[0].btkey
  }

  /** The entries of an inner page: for each child, its first key and where it is. */
  function InnerRaw(chunks: seq<seq<Entry>>, brefs: seq<BREF>): (raw: seq<seq<byte>>)
    requires |chunks| == |brefs|
    ensures |raw| == |chunks| && forall c :: c in raw ==> |c| == 24
  {
    seq(|chunks|, i requires 0 <= i < |chunks| => BTEntryBytes(BTEntry(FirstKey(chunks[i]), brefs[i])))
  }

  lemma ChunksFit(file: seq<byte>, entries: seq<Entry>, size: nat, level: byte)
    requires TreeFits(file, entries, size, level) && level > 0
    ensures ChildrenFit(file, Split(entries, Capacity(size, level - 1)), size, level - 1)
  {
    var chunks := Split(entries, Capacity(size, level - 1));
    SplitCount(entries, Capacity(size, level - 1), FANOUT);
    TimesMonotone(|chunks|, FANOUT, TreeBytes(level - 1));
  }

  lemma ChildFits(file: seq<byte>, chunks: seq<seq<Entry>>, size: nat, level: byte, grown: nat)
    requires ChildrenFit(file, chunks, size, level) && chunks != []
    requires grown <= |file| + (|chunks| - 1) * TreeBytes(level)
    ensures ChildrenFit(file, chunks[..|chunks| - 1], size, level)
    ensures grown + TreeBytes(level) <= |file| + |chunks| * TreeBytes(level) <= FILE_LIMIT
    ensures |chunks[|chunks| - 1]| <= Capacity(size, level)
  {
    assert chunks[|chunks| - 1] in chunks;
    Times(|chunks|, TreeBytes(level));
  }

  /** Writes a tree of the given level: its subtrees first, then its root page. */
  function WriteTree(kind: IndexKind, file: seq<byte>, entries: seq<Entry>, size: nat, level: byte)
    : (r: (seq<byte>, BREF))
    requires TreeFits(file, entries, size, level)
    ensures Prefix(file, r.0) && |r.0| <= |file| + TreeBytes(level)
    decreases level, 1, 0
  {
    if level == 0 then AppendPage(file, PageFor(kind, RawBytes(entries, size), size, 0))
    else
      var chunks := Split(entries, Capacity(size, level - 1));
      ChunksFit(file, entries, size, level);
      var (f, brefs) := WriteChildren(kind, file, chunks, size, level - 1);
      TimesMonotone(|chunks|, FANOUT, TreeBytes(level - 1));
      var r := AppendPage(f, PageFor(kind, InnerRaw(chunks, brefs), 24, level));
      PrefixTransitive(file, f, r.0);
      r
  }

  function WriteChildren(kind: IndexKind, file: seq<byte>, chunks: seq<seq<Entry>>, size: nat, level: byte)
    : (r: (seq<byte>, seq<BREF>))
    requires ChildrenFit(file, chunks, size, level)
    ensures Prefix(file, r.0) && |r.0| <= |file| + |chunks| * TreeBytes(level) && |r.1| == |chunks|
    decreases level, 2, |chunks|
  {
    if chunks == [] then (file, [])
    else
      var n := |chunks| - 1;
      ChildFits(file, chunks, size, level, |file|);
      var (f, brefs) := WriteChildren(kind, file, chunks[..n], size, level);
      ChildFits(file, chunks, size, level, |f|);
      var (g, bref) := WriteTree(kind, f, chunks[n], size, level);
      PrefixTransitive(file, f, g);
      (g, brefs + [bref])
  }

  // ----- order

  lemma OrderedParts(a: seq<Entry>, b: seq<Entry>)
    requires Ordered(a + b)
    ensures Ordered(a) && Ordered(b)
    ensures forall x, y :: x in a && y in b ==> x.btkey < y.btkey
  {
    forall i, j | 0 <= i < j < |a|
      ensures a[i].btkey < a[j].btkey
    {
      assert (a + b)[i] == a[i] && (a + b)[j] == a[j];
    }
    forall i, j | 0 <= i < j < |b|
      ensures b[i].btkey < b[j].btkey
    {
      assert (a + b)[|a| + i] == b[i] && (a + b)[|a| + j] == b[j];
    }
    forall x, y | x in a && y in b
      ensures x.btkey < y.btkey
    {
      var i :| 0 <= i < |a| && a[i] == x;
      var j :| 0 <= j < |b| && b[j] == y;
      assert (a + b)[i] == x && (a + b)[|a| + j] == y;
    }
  }

  ghost predicate Before(a: seq<Entry>, b: seq<Entry>)
  {
    forall x, y :: x in a && y in b ==> x.btkey < y.btkey
  }

  lemma {:induction false} OrderedChunks(chunks: seq<seq<Entry>>)
    requires Ordered(Flatten(chunks))
    ensures forall i :: 0 <= i < |chunks| ==> Ordered(chunks[i])
    ensures forall i, j :: 0 <= i < j < |chunks| ==> Before(chunks[i], chunks[j])
  {
    hide Ordered;
    if chunks == [] {
    } else {
      var rest := chunks[1..];
      OrderedParts(chunks[0], Flatten(rest));
      OrderedChunks(rest);
      PartsWithin(rest, Flatten(rest));
      forall i, j | 0 <= i < j < |chunks|
        ensures Before(chunks[i], chunks[j])
      {
        assert chunks[j] == rest[j - 1];
        if i > 0 {
          assert chunks[i] == rest[i - 1];
        }
      }
    }
  }

  lemma {:induction false} SplitNonEmpty<T>(s: seq<T>, size: nat)
    requires size > 0
    ensures s != [] ==> forall p :: p in Split(s, size) ==> p != []
    ensures s == [] ==> |Split(s, size)| == 1
    decreases |s|
  {
    if |s| <= size {
    } else {
      SplitNonEmpty(s[size..], size);
    }
  }

  /** What splitting a listable sequence gives: listable parts, in order, none empty unless it is the only one. */
  ghost predicate GoodChunks(kind: IndexKind, size: nat, chunks: seq<seq<Entry>>)
  {
    && (forall i :: 0 <= i < |chunks| ==> Listable(kind, size, chunks[i]))
    && (forall i, j :: 0 <= i < j < |chunks| ==> Before(chunks[i], chunks[j]))
    && (|chunks| > 1 ==> forall i :: 0 <= i < |chunks| ==> chunks[i] != [])
  }

  lemma SplitIsGood(kind: IndexKind, size: nat, entries: seq<Entry>, n: nat)
    requires Listable(kind, size, entries) && n > 0
    ensures GoodChunks(kind, size, Split(entries, n)) && Flatten(Split(entries, n)) == entries
  {
    hide Printed, Ordered, Before;
    var chunks := Split(entries, n);
    SplitJoins(entries, n);
    SplitNonEmpty(entries, n);
    OrderedChunks(chunks);
    PartsWithin(chunks, entries);
    forall i | 0 <= i < |chunks|
      ensures Listable(kind, size, chunks[i]) && (|chunks| > 1 ==> chunks[i] != [])
    {
      assert chunks[i] in chunks;
    }
  }

  // ----- loading what was written

  /** The reference leads to a sorted tree of this kind and level, with exactly these leaf entries. */
  ghost predicate LoadsAs(kind: IndexKind, file: seq<byte>, bref: BREF, parentCLevel: int, level: byte,
                          entries: seq<Entry>)
    requires parentCLevel >= -1
  {
    var page := LoadedPage(file, bref, parentCLevel);
    && page.Some? && page.value.cLevel == level && page.value.trailer.ptype == PTypeOf(kind)
    && LeafEntries(kind, page.value) == entries && Sorted(kind, page.value)
  }

  lemma LeafLoads(kind: IndexKind, file: seq<byte>, entries: seq<Entry>, size: nat, whole: seq<byte>, parentCLevel: int)
    requires TreeFits(file, entries, size, 0) && Listable(kind, size, entries)
    requires Prefix(WriteTree(kind, file, entries, size, 0).0, whole) && (parentCLevel == -1 || parentCLevel == 1)
    ensures LoadsAs(kind, whole, WriteTree(kind, file, entries, size, 0).1, parentCLevel, 0, entries)
  {
    hide AppendPage, PageAt, EntriesOf, EntryOf;
    RawBytesRead(entries, size);
    var p := PageFor(kind, RawBytes(entries, size), size, 0);
    AppendedPageReads(file, p, whole, parentCLevel);
  }

  /** The sub-pages load if every child does, and then they are the children. */
  lemma {:induction false} SubPagesLoad(file: seq<byte>, rgentries: seq<Entry>, cLevel: byte)
    requires cLevel > 0
    requires forall i :: 0 <= i < |rgentries| ==> LoadedPage(file, ChildOf(rgentries[i]), cLevel).Some?
    ensures LoadedSubPages(file, rgentries, cLevel).Some?
    ensures forall i :: 0 <= i < |rgentries| ==>
                          Some(LoadedSubPages(file, rgentries, cLevel).value[i])
                          == LoadedPage(file, ChildOf(rgentries[i]), cLevel)
  {
    hide LoadedPage, ChildOf;
    if rgentries == [] {
    } else {
      var n := |rgentries| - 1;
      SubPagesLoad(file, rgentries[..n], cLevel);
    }
  }

  lemma {:induction false} LeavesAreChunks(kind: IndexKind, page: BTPage, chunks: seq<seq<Entry>>, i: nat)
    requires Shaped(page) && page.cLevel > 0 && |chunks| == |page.rgentries| && i <= |chunks|
    requires forall k :: 0 <= k < |chunks| ==> LeafEntries(kind, page.subPages[k]) == chunks[k]
    ensures LeavesFrom(kind, page, i) == Flatten(chunks[i..])
    decreases |chunks| - i
  {
    if i == |chunks| {
    } else {
      LeavesAreChunks(kind, page, chunks, i + 1);
      assert chunks[i..][1..] == chunks[i + 1..];
    }
  }

  lemma InnerEntryRead(bt: BTEntry)
    ensures EntryOf(BTEntryBytes(bt)).Some?
    ensures var e := EntryOf(BTEntryBytes(bt)).value; e.btkey == bt.btkey && ChildOf(e) == bt.bref
  {
    hide EntryOf, BTEntryBytes, AsBTEntry;
    assert BTEntryBytes(bt) + [] == BTEntryBytes(bt);
    BTEntryRoundTrip(bt, []);
  }

  lemma InnerRawSnoc(chunks: seq<seq<Entry>>, brefs: seq<BREF>)
    requires |chunks| == |brefs| && chunks != []
    ensures var n := |chunks| - 1;
      InnerRaw(chunks, brefs)
      == InnerRaw(chunks[..n], brefs[..n]) + [BTEntryBytes(BTEntry(FirstKey(chunks[n]), brefs[n]))]
  {
    hide BTEntryBytes, FirstKey;
  }

  /** The entries of an inner page, read back. */
  lemma {:induction false} InnerRead(chunks: seq<seq<Entry>>, brefs: seq<BREF>)
    requires |chunks| == |brefs|
    ensures EntriesOf(InnerRaw(chunks, brefs)).Some?
    ensures var es := EntriesOf(InnerRaw(chunks, brefs)).value;
      forall i :: 0 <= i < |es| ==> es[i].btkey == FirstKey(chunks[i]) && ChildOf(es[i]) == brefs[i]
  {
    hide EntryOf, BTEntryBytes, ChildOf, EntriesOf, FirstKey, InnerRaw;
    if chunks == [] {
      assert InnerRaw(chunks, brefs) == [];
      NoEntries();
    } else {
      var n := |chunks| - 1;
      var bt := BTEntry(FirstKey(chunks[n]), brefs[n]);
      InnerRead(chunks[..n], brefs[..n]);
      InnerEntryRead(bt);
      var raw := InnerRaw(chunks[..n], brefs[..n]);
      EntriesSnoc(raw, BTEntryBytes(bt));
      InnerRawSnoc(chunks, brefs);
    }
  }

  /** A page over loaded children in order is sorted. */
  lemma PageSorted(kind: IndexKind, size: nat, page: BTPage, chunks: seq<seq<Entry>>)
    requires Shaped(page) && page.cLevel > 0 && |chunks| == |page.rgentries| && GoodChunks(kind, size, chunks)
    requires forall k :: 0 <= k < |chunks| ==> page.rgentries[k].btkey == FirstKey(chunks[k])
    requires forall k :: 0 <= k < |chunks| ==>
                           LeafEntries(kind, page.subPages[k]) == chunks[k] && Sorted(kind, page.subPages[k])
    ensures Sorted(kind, page)
  {
    hide Shaped, LeafEntries;
    forall i, j | 0 <= i < j < |chunks|
      ensures FirstKey(chunks[i]) < FirstKey(chunks[j])
    {
      assert Before(chunks[i], chunks[j]) && chunks[i][0] in chunks[i] && chunks[j][0] in chunks[j];
    }
    forall i | 0 <= i < |chunks|
      ensures SortedChild(kind, page, i)
    {
      assert Listable(kind, size, chunks[i]);
      ChildBounds(kind, size, chunks, i);
    }
  }

  lemma ChildBounds(kind: IndexKind, size: nat, chunks: seq<seq<Entry>>, i: nat)
    requires GoodChunks(kind, size, chunks) && i < |chunks|
    ensures AllAtLeast(kind, chunks[i], FirstKey(chunks[i]))
    ensures i + 1 < |chunks| ==> AllBelow(kind, chunks[i], FirstKey(chunks[i + 1]))
  {
    hide EntryOf;
    forall e | e in chunks[i]
      ensures KeyOf(kind, e) >= FirstKey(chunks[i])
      ensures i + 1 < |chunks| ==> KeyOf(kind, e) < FirstKey(chunks[i + 1])
    {
      assert Listable(kind, size, chunks[i]) && Printed(kind, size, e);
      var k :| 0 <= k < |chunks[i]| && chunks[i][k] == e;
      if i + 1 < |chunks| {
        assert Before(chunks[i], chunks[i + 1]) && chunks[i + 1][0] in chunks[i + 1];
      }
    }
  }

  /** An inner page over children that load loads as their concatenation. */
  lemma InnerLoads(kind: IndexKind, size: nat, whole: seq<byte>, bref: BREF, parentCLevel: int, level: byte,
                   chunks: seq<seq<Entry>>, brefs: seq<BREF>)
    requires level > 0 && parentCLevel >= -1 && |chunks| == |brefs| && GoodChunks(kind, size, chunks)
    requires EntriesOf(InnerRaw(chunks, brefs)).Some?
    requires var page := PageAt(whole, bref, parentCLevel);
      && page.Some? && page.value.cLevel == level && page.value.trailer.ptype == PTypeOf(kind)
      && page.value.rgentries == EntriesOf(InnerRaw(chunks, brefs)).value
    requires forall i :: 0 <= i < |chunks| ==> LoadsAs(kind, whole, brefs[i], level, level - 1, chunks[i])
    ensures LoadsAs(kind, whole, bref, parentCLevel, level, Flatten(chunks))
  {
    hide PageAt, EntriesOf, InnerRaw, ChildOf, LoadedSubPages, GoodChunks, Sorted;
    InnerRead(chunks, brefs);
    var es := EntriesOf(InnerRaw(chunks, brefs)).value;
    forall i | 0 <= i < |es|
      ensures LoadedPage(whole, ChildOf(es[i]), level).Some?
    {
      assert LoadsAs(kind, whole, brefs[i], level, level - 1, chunks[i]);
    }
    SubPagesLoad(whole, es, level);
    var page := LoadedPage(whole, bref, parentCLevel).value;
    forall i | 0 <= i < |chunks|
      ensures LeafEntries(kind, page.subPages[i]) == chunks[i] && Sorted(kind, page.subPages[i])
    {
      assert LoadsAs(kind, whole, brefs[i], level, level - 1, chunks[i]);
    }
    LeavesAreChunks(kind, page, chunks, 0);
    PageSorted(kind, size, page, chunks);
    assert chunks[0..] == chunks;
  }

  /**
   * Loading the pages that were written, from any file that contains them, gives a sorted tree of the level asked for
   * whose leaves hold exactly the entries written, in order.
   */
  lemma {:induction false} TreeLoads(kind: IndexKind, file: seq<byte>, entries: seq<Entry>, size: nat, level: byte,
                                     whole: seq<byte>, parentCLevel: int)
    requires TreeFits(file, entries, size, level) && Listable(kind, size, entries)
    requires Prefix(WriteTree(kind, file, entries, size, level).0, whole)
    requires parentCLevel == -1 || parentCLevel == level as int + 1
    ensures LoadsAs(kind, whole, WriteTree(kind, file, entries, size, level).1, parentCLevel, level, entries)
    decreases level, 1, 0
  {
    if level == 0 {
      LeafLoads(kind, file, entries, size, whole, parentCLevel);
    } else {
      hide AppendPage, PageAt, EntriesOf, LoadsAs, GoodChunks, InnerRaw, Listable;
      var chunks := Split(entries, Capacity(size, level - 1));
      ChunksFit(file, entries, size, level);
      SplitIsGood(kind, size, entries, Capacity(size, level - 1));
      var (f, brefs) := WriteChildren(kind, file, chunks, size, level - 1);
      TimesMonotone(|chunks|, FANOUT, TreeBytes(level - 1));
      var p := PageFor(kind, InnerRaw(chunks, brefs), 24, level);
      PrefixTransitive(f, AppendPage(f, p).0, whole);
      AppendedPageReads(f, p, whole, parentCLevel);
      ChildrenLoad(kind, file, chunks, size, level - 1, whole);
      InnerLoads(kind, size, whole, AppendPage(f, p).1, parentCLevel, level, chunks, brefs);
    }
  }

  lemma {:induction false} ChildrenLoad(kind: IndexKind, file: seq<byte>, chunks: seq<seq<Entry>>, size: nat,
                                        level: byte, whole: seq<byte>)
    requires ChildrenFit(file, chunks, size, level) && GoodChunks(kind, size, chunks) && level < 255
    requires Prefix(WriteChildren(kind, file, chunks, size, level).0, whole)
    ensures var brefs := WriteChildren(kind, file, chunks, size, level).1;
      forall i :: 0 <= i < |chunks| ==> LoadsAs(kind, whole, brefs[i], level + 1, level, chunks[i])
    decreases level, 2, |chunks|
  {
    hide LoadsAs, WriteTree, Listable;
    if chunks == [] {
    } else {
      var n := |chunks| - 1;
      ChildFits(file, chunks, size, level, |file|);
      var (f, brefs) := WriteChildren(kind, file, chunks[..n], size, level);
      ChildFits(file, chunks, size, level, |f|);
      var (g, bref) := WriteTree(kind, f, chunks[n], size, level);
      PrefixTransitive(f, g, whole);
      ChildrenLoad(kind, file, chunks[..n], size, level, whole);
      TreeLoads(kind, f, chunks[n], size, level, whole, level + 1);
    }
  }
}
