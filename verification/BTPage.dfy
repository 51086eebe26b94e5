/**
 * Pages of the node and block B-trees (`BTPage` and `Entry` in `include/NDB.h`): parsing, and recursive loading from a
 * file whose page references may form any graph.
 */
module BTPages {
  import opened Blocks
  import opened Bytes
  import opened Cipher
  import opened DataTrees
  import opened Ids
  import opened Views

  // ----- page trailers

  const PTYPE_BBT: byte := 0x80
  const PTYPE_NBT: byte := 0x81

  /** The codes that `getPType` accepts. */
  predicate IsPType(code: byte) {
    0x80 <= code <= 0x86
  }

  datatype PageTrailer = PageTrailer(ptype: byte, wSig: uint16, dwCRC: uint32, bid: uint64)

  function PageTrailerOf(bytes: seq<byte>, bref: BREF): Option<PageTrailer>
    requires |bytes| == 16
  {
    Pow256Values();
    var ptype, ptypeRepeat := Field(bytes, 0, 1).value, Field(bytes, 1, 1).value;
    var wSig := Field(bytes, 2, 2).value;
    if !IsPType(ptype) || !IsPType(ptypeRepeat) || ptype != ptypeRepeat then None
    else if (ptype == PTYPE_NBT || ptype == PTYPE_BBT) && wSig != ComputeSig(bref.ib, bref.bid) then None
    else Some(PageTrailer(ptype, wSig, Field(bytes, 4, 4).value, Field(bytes, 8, 8).value))
  }

  // ----- entries

  const ENTRY_MAX_SIZE: nat := 32

  /** The 32 bytes of an entry, with its first eight bytes decoded once and for all in the three ways a key is used. */
  datatype RawEntry = Entry(data: seq<byte>, nid: uint32, bid: uint64, btkey: uint64)

  /** Entries as their constructor leaves them; nothing changes them afterwards. */
  type Entry = e: RawEntry | CachesItsKeys(e) witness BlankEntry()

  predicate CachesItsKeys(e: RawEntry)
  {
    && |e.data| == ENTRY_MAX_SIZE
    && e.btkey == U64At(e.data, 0) && e.bid == e.btkey && e.nid == AsNid(e.btkey)
  }

  function BlankEntry(): (e: RawEntry)
    ensures CachesItsKeys(e)
  {
    FromLEZeros(8);
    assert Zeros(ENTRY_MAX_SIZE)[0..8] == Zeros(8);
    Entry(Zeros(ENTRY_MAX_SIZE), 0, 0, 0)
  }

  datatype BTEntry = BTEntry(btkey: uint64, bref: BREF)

  datatype NBTEntry = NBTEntry(nid: uint32, nidParent: uint32, bidData: uint64, bidSub: uint64, dwPadding: uint32)

  /** A node identifier is the low half of the eight bytes stored for it. */
  function AsNid(n: uint64): uint32 {
    n % 0x1_0000_0000
  }

  /** The entry constructor: a fixed array of 32 bytes, zero where the page gave fewer; more do not fit it. */
  function EntryOf(bytes: seq<byte>): Option<Entry>
  {
    if |bytes| > ENTRY_MAX_SIZE then None
    else
      var data := bytes + Zeros(ENTRY_MAX_SIZE - |bytes|);
      var key := U64At(data, 0);
      Some(Entry(data, AsNid(key), key, key))
  }

  function AsBTEntry(entry: Entry): BTEntry
  {
    BTEntry(U64At(entry.data, 0), BREF(U64At(entry.data, 8), U64At(entry.data, 16)))
  }

  function AsBBTEntry(entry: Entry): BBTEntry
  {
    BBTEntry(BREF(U64At(entry.data, 0), U64At(entry.data, 8)), U16At(entry.data, 16), U16At(entry.data, 18),
             U32At(entry.data, 20))
  }

  function AsNBTEntry(entry: Entry): NBTEntry
  {
    NBTEntry(AsNid(U64At(entry.data, 0)), U32At(entry.data, 24), U64At(entry.data, 8), U64At(entry.data, 16),
             U32At(entry.data, 28))
  }

  /** Where an inner entry leads. */
  function ChildOf(entry: Entry): BREF
  {
    AsBTEntry(entry).bref
  }

  /** The moving `ArrayView` of `asBTEntry` reads the fields at those offsets. */
  method ReadBTEntry(entry: Entry) returns (r: BTEntry)
    ensures r == AsBTEntry(entry)
  {
    Pow256Values();
    var view := new ArrayView(entry.data, 0);
    var btkey := view.To(8);
    var bid := view.To(8);
    var ib := view.To(8);
    r := BTEntry(btkey, BREF(bid, ib));
  }

  method ReadBBTEntry(entry: Entry) returns (r: BBTEntry)
    ensures r == AsBBTEntry(entry)
  {
    Pow256Values();
    var view := new ArrayView(entry.data, 0);
    var bid := view.To(8);
    var ib := view.To(8);
    var cb := view.To(2);
    var cRef := view.To(2);
    var dwPadding := view.To(4);
    r := BBTEntry(BREF(bid, ib), cb, cRef, dwPadding);
  }

  method ReadNBTEntry(entry: Entry) returns (r: NBTEntry)
    ensures r == AsNBTEntry(entry)
  {
    Pow256Values();
    var view := new ArrayView(entry.data, 0);
    var nid := view.To(8);
    var bidData := view.To(8);
    var bidSub := view.To(8);
    var nidParent := view.To(4);
    var dwPadding := view.To(4);
    r := NBTEntry(AsNid(nid), nidParent, bidData, bidSub, dwPadding);
  }

  /** The cached keys of an entry are the keys that decoding it gives, wherever the entry is. */
  lemma CachedKeys(entry: Entry)
    ensures entry.nid == AsNBTEntry(entry).nid
    ensures entry.bid == AsBBTEntry(entry).bref.bid
    ensures entry.btkey == AsBTEntry(entry).btkey
  {
  }

  // ----- pages

  const PAGE_SIZE: nat := 512
  const ENTRIES_SIZE: nat := 488

  datatype BTPage = BTPage(subPages: seq<BTPage>, rgentries: seq<Entry>, nEntries: byte, maxNEntries: byte,
                           singleEntrySize: byte, cLevel: byte, trailer: PageTrailer)

  function EntriesOf(raw: seq<seq<byte>>): (r: Option<seq<Entry>>)
    ensures r.Some? ==> |r.value| == |raw|
  {
    if raw == [] then Some([])
    else
      var before :- EntriesOf(raw[..|raw| - 1]);
      var entry :- EntryOf(raw[|raw| - 1]);
      Some(before + [entry])
  }

  lemma NoEntries()
    ensures EntriesOf([]) == Some([])
  {
  }

  lemma EntriesSnoc(raw: seq<seq<byte>>, c: seq<byte>)
    requires EntriesOf(raw).Some? && EntryOf(c).Some?
    ensures EntriesOf(raw + [c]) == Some(EntriesOf(raw).value + [EntryOf(c).value])
  {
    hide EntryOf;
    assert (raw + [c])[..|raw|] == raw;
  }

  /** `setup`: a page without its sub-pages. `parentCLevel` is -1 at the root. */
  function ParsedPage(bytes: seq<byte>, trailer: PageTrailer, parentCLevel: int): (r: Option<BTPage>)
    requires |bytes| == PAGE_SIZE
    ensures r.Some? ==> r.value.subPages == [] && |r.value.rgentries| == r.value.nEntries
    ensures r.Some? ==> r.value.trailer.ptype == PTYPE_BBT || r.value.trailer.ptype == PTYPE_NBT
    ensures r.Some? && parentCLevel != -1 ==> r.value.cLevel == parentCLevel - 1
  {
    Pow256Values();
    var nEntries, maxNEntries := Field(bytes, 488, 1).value, Field(bytes, 489, 1).value;
    var singleEntrySize, cLevel := Field(bytes, 490, 1).value, Field(bytes, 491, 1).value;
    var dwPadding := Field(bytes, 492, 4).value;
    var raw :- Chunks(bytes, 0, nEntries, singleEntrySize);
    var rgentries :- EntriesOf(raw);
    if (trailer.ptype == PTYPE_BBT || trailer.ptype == PTYPE_NBT) && nEntries <= maxNEntries && dwPadding == 0
       && (parentCLevel != -1 ==> parentCLevel - 1 == cLevel)
    then Some(BTPage([], rgentries, nEntries, maxNEntries, singleEntrySize, cLevel, trailer))
    else None
  }

  /** Reading, trailer and `setup` of the page that a reference leads to. */
  function PageAt(file: seq<byte>, bref: BREF, parentCLevel: int): (r: Option<BTPage>)
    ensures r.Some? ==> r.value.subPages == [] && |r.value.rgentries| == r.value.nEntries
    ensures r.Some? ==> r.value.trailer.ptype == PTYPE_BBT || r.value.trailer.ptype == PTYPE_NBT
    ensures r.Some? && parentCLevel != -1 ==> r.value.cLevel == parentCLevel - 1
  {
    var bytes :- ReadBytes(file, bref.ib, PAGE_SIZE);
    var trailer :- PageTrailerOf(bytes[PAGE_SIZE - 16..], bref);
    ParsedPage(bytes, trailer, parentCLevel)
  }

  // ----- the shape of a loaded tree

  /** Every inner page has one sub-page, one level down, for each of its entries; leaves are at level 0. */
  ghost predicate Shaped(page: BTPage)
  {
    && (page.trailer.ptype == PTYPE_BBT || page.trailer.ptype == PTYPE_NBT)
    && |page.rgentries| == page.nEntries
    && (if page.cLevel == 0 then page.subPages == []
        else
          && |page.subPages| == |page.rgentries|
          && forall i :: 0 <= i < |page.subPages| ==>
                           page.subPages[i].cLevel == page.cLevel - 1 && Shaped(page.subPages[i]))
  }

  ghost predicate AllShaped(pages: seq<BTPage>, cLevel: byte)
  {
    forall i :: 0 <= i < |pages| ==> pages[i].cLevel == cLevel && Shaped(pages[i])
  }

  lemma AllShapedSnoc(pages: seq<BTPage>, page: BTPage, cLevel: byte)
    requires AllShaped(pages, cLevel) && page.cLevel == cLevel && Shaped(page)
    ensures AllShaped(pages + [page], cLevel)
  {
  }

  /** The levels still below a page whose parent has this level. */
  function Height(parentCLevel: int): nat
    requires parentCLevel >= -1
  {
    if parentCLevel == -1 then 256 else parentCLevel
  }

  /**
   * A page with everything below it. Each step down lowers the level, so any reference graph, cycles included, is
   * loaded or refused; and whatever the file holds, what is loaded is a tree of uniform depth, the level of its root.
   */
  function LoadedPage(file: seq<byte>, bref: BREF, parentCLevel: int): (r: Option<BTPage>)
    requires parentCLevel >= -1
    ensures r.Some? ==> Shaped(r.value)
    ensures r.Some? && parentCLevel != -1 ==> r.value.cLevel == parentCLevel - 1
    decreases Height(parentCLevel), 1, 0
  {
    var page :- PageAt(file, bref, parentCLevel);
    if page.cLevel == 0 then Some(page)
    else
      var subPages :- LoadedSubPages(file, page.rgentries, page.cLevel);
      Some(page.(subPages := subPages))
  }

  function LoadedSubPages(file: seq<byte>, rgentries: seq<Entry>, cLevel: byte): (r: Option<seq<BTPage>>)
    requires cLevel > 0
    ensures r.Some? ==> |r.value| == |rgentries| && AllShaped(r.value, cLevel - 1)
    decreases cLevel, 2, |rgentries|
  {
    if rgentries == [] then Some([])
    else
      var before :- LoadedSubPages(file, rgentries[..|rgentries| - 1], cLevel);
      var page :- LoadedPage(file, ChildOf(rgentries[|rgentries| - 1]), cLevel);
      AllShapedSnoc(before, page, cLevel - 1);
      Some(before + [page])
  }

  // ----- the constructors of the source

  method InitEntry(bytes: seq<byte>) returns (r: Option<Entry>)
    ensures r == EntryOf(bytes)
  {
    if |bytes| > ENTRY_MAX_SIZE {
      return None;
    }
    Pow256Values();
    var data := Pad(bytes, ENTRY_MAX_SIZE - |bytes|);
    var view := new ArrayView(data, 0);
    view.SetStart(0);
    var nid := view.To(8);
    view.SetStart(0);
    var bid := view.To(8);
    view.SetStart(0);
    var btkey := view.To(8);
    return Some(Entry(data, AsNid(nid), bid, btkey));
  }

  lemma {:induction false} EntriesOfPrefix(raw: seq<seq<byte>>, n: nat)
    requires n <= |raw| && EntriesOf(raw[..n]).None?
    ensures EntriesOf(raw).None?
    decreases |raw| - n
  {
    if n < |raw| {
      assert raw[..n + 1][..n] == raw[..n];
      EntriesOfPrefix(raw, n + 1);
    } else {
      assert raw[..n] == raw;
    }
  }

  method InitEntries(raw: seq<seq<byte>>) returns (r: Option<seq<Entry>>)
    ensures r == EntriesOf(raw)
  {
    var res: seq<Entry> := [];
    assert raw[..0] == [];
    for i := 0 to |raw|
      invariant EntriesOf(raw[..i]) == Some(res)
    {
      assert raw[..i + 1][..i] == raw[..i];
      if EntriesOf(raw[..i + 1]).None? {
        EntriesOfPrefix(raw, i + 1);
      }
      var entry := InitEntry(raw[i]);
      if entry.None? {
        return None;
      }
      res := res + [entry.value];
    }
    assert raw[..|raw|] == raw;
    return Some(res);
  }

  /** The counts, sizes and level that follow the entries of a page. */
  method ReadPageFields(view: ByteView)
    returns (nEntries: byte, maxNEntries: byte, singleEntrySize: byte, cLevel: byte, dwPadding: uint32)
    requires |view.bytes| == PAGE_SIZE && view.start == ENTRIES_SIZE
    modifies view
    ensures Field(view.bytes, 488, 1) == Some(nEntries) && Field(view.bytes, 489, 1) == Some(maxNEntries)
    ensures Field(view.bytes, 490, 1) == Some(singleEntrySize) && Field(view.bytes, 491, 1) == Some(cLevel)
    ensures Field(view.bytes, 492, 4) == Some(dwPadding)
  {
    Pow256Values();
    var f0 := view.ReadInt(1);
    var f1 := view.ReadInt(1);
    var f2 := view.ReadInt(1);
    var f3 := view.ReadInt(1);
    var f4 := view.ReadInt(4);
    nEntries, maxNEntries, singleEntrySize, cLevel, dwPadding := f0.value, f1.value, f2.value, f3.value, f4.value;
  }

  /** `setup`: skip the entries, read what follows them, go back and read the entries. */
  method Setup(bytes: seq<byte>, trailer: PageTrailer, parentCLevel: int) returns (r: Option<BTPage>)
    requires |bytes| == PAGE_SIZE
    ensures r == ParsedPage(bytes, trailer, parentCLevel)
  {
    hide Chunks, EntriesOf;
    var view := new ByteView(bytes);
    view.Skip(ENTRIES_SIZE);
    var nEntries, maxNEntries, singleEntrySize, cLevel, dwPadding := ReadPageFields(view);
    view.SetStart(0);
    var raw := view.Entries(nEntries, singleEntrySize);
    if raw.None? {
      return None;
    }
    var rgentries := InitEntries(raw.value);
    if rgentries.None? {
      return None;
    }
    if (trailer.ptype != PTYPE_BBT && trailer.ptype != PTYPE_NBT) || nEntries > maxNEntries || dwPadding != 0
       || nEntries != |rgentries.value| || (parentCLevel != -1 && parentCLevel - 1 != cLevel) {
      return None;
    }
    return Some(BTPage([], rgentries.value, nEntries, maxNEntries, singleEntrySize, cLevel, trailer));
  }

  method InitPageTrailer(bytes: seq<byte>, bref: BREF) returns (r: Option<PageTrailer>)
    requires |bytes| == 16
    ensures r == PageTrailerOf(bytes, bref)
  {
    hide ComputeSig;
    Pow256Values();
    var view := new ByteView(bytes);
    var ptype := view.ReadInt(1);
    var ptypeRepeat := view.ReadInt(1);
    var wSig := view.ReadInt(2);
    var dwCRC := view.ReadInt(4);
    var bid := view.ReadInt(8);
    if !IsPType(ptype.value) || !IsPType(ptypeRepeat.value) || ptype.value != ptypeRepeat.value {
      return None;
    }
    if (ptype.value == PTYPE_NBT || ptype.value == PTYPE_BBT) && wSig.value != ComputeSig(bref.ib, bref.bid) {
      return None;
    }
    return Some(PageTrailer(ptype.value, wSig.value, dwCRC.value, bid.value));
  }

  lemma {:induction false} SubPagesPrefix(file: seq<byte>, rgentries: seq<Entry>, cLevel: byte, n: nat)
    requires cLevel > 0 && n <= |rgentries| && LoadedSubPages(file, rgentries[..n], cLevel).None?
    ensures LoadedSubPages(file, rgentries, cLevel).None?
    decreases |rgentries| - n
  {
    if n < |rgentries| {
      assert rgentries[..n + 1][..n] == rgentries[..n];
      SubPagesPrefix(file, rgentries, cLevel, n + 1);
    } else {
      assert rgentries[..n] == rgentries;
    }
  }

  lemma SubPagesStep(file: seq<byte>, rgentries: seq<Entry>, cLevel: byte, n: nat)
    requires cLevel > 0 && n < |rgentries|
    ensures var before := LoadedSubPages(file, rgentries[..n], cLevel);
      var page := LoadedPage(file, ChildOf(rgentries[n]), cLevel);
      && (before.Some? && page.Some? ==>
            LoadedSubPages(file, rgentries[..n + 1], cLevel) == Some(before.value + [page.value]))
      && (page.None? ==> LoadedSubPages(file, rgentries, cLevel).None?)
  {
    assert rgentries[..n + 1][..n] == rgentries[..n];
    if LoadedPage(file, ChildOf(rgentries[n]), cLevel).None? {
      SubPagesPrefix(file, rgentries, cLevel, n + 1);
    }
  }

  method InitPageWithoutSubPages(file: seq<byte>, bref: BREF, parentCLevel: int) returns (r: Option<BTPage>)
    ensures r == PageAt(file, bref, parentCLevel)
  {
    hide ParsedPage, PageTrailerOf;
    var bytes := ReadBytes(file, bref.ib, PAGE_SIZE);
    if bytes.None? {
      return None;
    }
    var view := new ByteView(bytes.value);
    var last := view.TakeLast(16);
    assert bytes.value[PAGE_SIZE - 16..PAGE_SIZE] == bytes.value[PAGE_SIZE - 16..];
    var trailer := InitPageTrailer(last.value, bref);
    if trailer.None? {
      return None;
    }
    r := Setup(bytes.value, trailer.value, parentCLevel);
  }

  /** `BTPage::Init` with a file: the constructor that loads every sub-page. */
  method InitPage(file: seq<byte>, bref: BREF, parentCLevel: int) returns (r: Option<BTPage>)
    requires parentCLevel >= -1
    ensures r == LoadedPage(file, bref, parentCLevel)
    decreases Height(parentCLevel)
  {
    var page := InitPageWithoutSubPages(file, bref, parentCLevel);
    if page.None? || page.value.cLevel == 0 {
      return page;
    }
    var rgentries, cLevel := page.value.rgentries, page.value.cLevel;
    var subPages: seq<BTPage> := [];
    assert rgentries[..0] == [];
    for i := 0 to |rgentries|
      invariant LoadedSubPages(file, rgentries[..i], cLevel) == Some(subPages)
    {
      SubPagesStep(file, rgentries, cLevel, i);
      var bt := ReadBTEntry(rgentries[i]);
      var sub := InitPage(file, bt.bref, cLevel);
      if sub.None? {
        return None;
      }
      subPages := subPages + [sub.value];
    }
    assert rgentries[..|rgentries|] == rgentries;
    return Some(page.value.(subPages := subPages));
  }
}
