/** The documented layout of B-tree pages (section 2.2.2.7.7 of [MS-PST]), and parsing as its left inverse. */
module PageLayout {
  import opened Blocks
  import opened BTPages
  import opened Bytes
  import opened Cipher
  import opened DataTrees
  import opened Ids
  import opened RoundTrip
  import opened Views

  // ----- entries

  function BTEntryBytes(e: BTEntry): (r: seq<byte>)
    ensures |r| == 24
  {
    ToLE(e.btkey, 8) + ToLE(e.bref.bid, 8) + ToLE(e.bref.ib, 8)
  }

  function BBTEntryBytes(e: BBTEntry): (r: seq<byte>)
    ensures |r| == 24
  {
    ToLE(e.bref.bid, 8) + ToLE(e.bref.ib, 8) + ToLE(e.cb, 2) + ToLE(e.cRef, 2) + ToLE(e.dwPadding, 4)
  }

  function NBTEntryBytes(e: NBTEntry): (r: seq<byte>)
    ensures |r| == 32
  {
    ToLE(e.nid, 8) + ToLE(e.bidData, 8) + ToLE(e.bidSub, 8) + ToLE(e.nidParent, 4) + ToLE(e.dwPadding, 4)
  }

  /** An inner entry with any bytes after it, up to the entry size of the page. */
  lemma BTEntryRoundTrip(e: BTEntry, tail: seq<byte>)
    requires |tail| <= 8
    ensures EntryOf(BTEntryBytes(e) + tail).Some?
    ensures var entry := EntryOf(BTEntryBytes(e) + tail).value; AsBTEntry(entry) == e && entry.btkey == e.btkey
  {
    Pow256Values();
    var data := EntryOf(BTEntryBytes(e) + tail).value.data;
    assert data[0..8] == ToLE(e.btkey, 8) && data[8..16] == ToLE(e.bref.bid, 8) && data[16..24] == ToLE(e.bref.ib, 8);
    DecodeEncode(e.btkey, 8);
    DecodeEncode(e.bref.bid, 8);
    DecodeEncode(e.bref.ib, 8);
  }

  lemma BBTEntryRoundTrip(e: BBTEntry, tail: seq<byte>)
    requires |tail| <= 8
    ensures EntryOf(BBTEntryBytes(e) + tail).Some?
    ensures var entry := EntryOf(BBTEntryBytes(e) + tail).value; AsBBTEntry(entry) == e && entry.bid == e.bref.bid
  {
    Pow256Values();
    var data := EntryOf(BBTEntryBytes(e) + tail).value.data;
    assert data[0..8] == ToLE(e.bref.bid, 8) && data[8..16] == ToLE(e.bref.ib, 8);
    assert data[16..18] == ToLE(e.cb, 2) && data[18..20] == ToLE(e.cRef, 2) && data[20..24] == ToLE(e.dwPadding, 4);
    DecodeEncode(e.bref.bid, 8);
    DecodeEncode(e.bref.ib, 8);
    DecodeEncode(e.cb, 2);
    DecodeEncode(e.cRef, 2);
    DecodeEncode(e.dwPadding, 4);
  }

  lemma NBTFields(e: NBTEntry, data: seq<byte>)
    requires data == NBTEntryBytes(e)
    ensures U64At(data, 0) == e.nid && U64At(data, 8) == e.bidData && U64At(data, 16) == e.bidSub
    ensures U32At(data, 24) == e.nidParent && U32At(data, 28) == e.dwPadding
  {
    Pow256Values();
    var a, b, c := ToLE(e.nid, 8), ToLE(e.bidData, 8), ToLE(e.bidSub, 8);
    var d, f := ToLE(e.nidParent, 4), ToLE(e.dwPadding, 4);
    assert data == a + b + c + d + f;
    assert data[0..8] == a;
    assert data[8..16] == b;
    assert data[16..24] == c;
    assert data[24..28] == d;
    assert data[28..32] == f;
    DecodeEncode(e.nid, 8);
    DecodeEncode(e.bidData, 8);
    DecodeEncode(e.bidSub, 8);
    DecodeEncode(e.nidParent, 4);
    DecodeEncode(e.dwPadding, 4);
  }

  lemma NBTEntryRoundTrip(e: NBTEntry)
    ensures EntryOf(NBTEntryBytes(e)).Some?
    ensures var entry := EntryOf(NBTEntryBytes(e)).value; AsNBTEntry(entry) == e && entry.nid == e.nid
  {
    hide NBTEntryBytes;
    var data := NBTEntryBytes(e);
    NBTFields(e, data);
    assert data + Zeros(0) == data;
  }

  // ----- pages

  /** A page as it is printed: its trailer fields, its level and sizes, and the bytes of its entries. */
  datatype PrintedPage = PrintedPage(raw: seq<seq<byte>>, maxNEntries: byte, singleEntrySize: byte, cLevel: byte,
                                     ptype: byte, dwCRC: uint32, bid: uint64)

  /** What the format allows: a tree page, with as many entries as are counted, inside the 488 bytes for them. */
  predicate Printable(p: PrintedPage)
  {
    && (p.ptype == PTYPE_BBT || p.ptype == PTYPE_NBT)
    && |p.raw| <= p.maxNEntries && p.singleEntrySize <= 32
    && (forall c :: c in p.raw ==> |c| == p.singleEntrySize)
    && |Flatten(p.raw)| <= ENTRIES_SIZE
  }

  function PageTrailerBytes(p: PrintedPage, bref: BREF): (r: seq<byte>)
    ensures |r| == 16
  {
    [p.ptype, p.ptype] + ToLE(ComputeSig(bref.ib, bref.bid), 2) + ToLE(p.dwCRC, 4) + ToLE(p.bid, 8)
  }

  function PageFields(p: PrintedPage): (r: seq<byte>)
    requires Printable(p)
    ensures |r| == 8
  {
    [|p.raw|, p.maxNEntries, p.singleEntrySize, p.cLevel] + ToLE(0, 4)
  }

  function PageBytes(p: PrintedPage, bref: BREF): (r: seq<byte>)
    requires Printable(p)
    ensures |r| == PAGE_SIZE
  {
    Flatten(p.raw) + Zeros(ENTRIES_SIZE - |Flatten(p.raw)|) + PageFields(p) + PageTrailerBytes(p, bref)
  }

  lemma OneByteField(s: seq<byte>, at: nat)
    requires at < |s|
    ensures Field(s, at, 1) == Some(s[at])
  {
    FromLEUnfold(s[at..at + 1]);
  }

  lemma PageFieldsRead(p: PrintedPage, bref: BREF)
    requires Printable(p)
    ensures var s := PageBytes(p, bref);
      && Field(s, 488, 1) == Some(|p.raw|) && Field(s, 489, 1) == Some(p.maxNEntries)
      && Field(s, 490, 1) == Some(p.singleEntrySize) && Field(s, 491, 1) == Some(p.cLevel)
      && Field(s, 492, 4) == Some(0)
  {
    var s := PageBytes(p, bref);
    FieldsPart(p, bref);
    PageFieldsValues(p);
    hide PageBytes, PageFields, FromLE, Field;
    FieldInSlice(s, 488, 8, 0, 1);
    FieldInSlice(s, 488, 8, 1, 1);
    FieldInSlice(s, 488, 8, 2, 1);
    FieldInSlice(s, 488, 8, 3, 1);
    FieldInSlice(s, 488, 8, 4, 4);
  }

  lemma FieldsPart(p: PrintedPage, bref: BREF)
    requires Printable(p)
    ensures PageBytes(p, bref)[488..496] == PageFields(p)
  {
    hide Flatten, PageFields, PageTrailerBytes;
  }

  lemma PageFieldsValues(p: PrintedPage)
    requires Printable(p)
    ensures var s := PageFields(p);
      && Field(s, 0, 1) == Some(|p.raw|) && Field(s, 1, 1) == Some(p.maxNEntries)
      && Field(s, 2, 1) == Some(p.singleEntrySize) && Field(s, 3, 1) == Some(p.cLevel) && Field(s, 4, 4) == Some(0)
  {
    hide Flatten;
    var s := PageFields(p);
    OneByteField(s, 0);
    OneByteField(s, 1);
    OneByteField(s, 2);
    OneByteField(s, 3);
    assert s[4..8] == ToLE(0, 4);
    Pow256Values();
    DecodeEncode(0, 4);
  }

  lemma PageEntriesRead(p: PrintedPage, bref: BREF)
    requires Printable(p)
    ensures Chunks(PageBytes(p, bref), 0, |p.raw|, p.singleEntrySize) == Some(p.raw)
  {
    hide Chunks, Flatten, PageFields, PageTrailerBytes, Zeros;
    var flat, padding := Flatten(p.raw), Zeros(ENTRIES_SIZE - |Flatten(p.raw)|);
    var fields, trailer := PageFields(p), PageTrailerBytes(p, bref);
    Associative(flat, padding, fields);
    Associative(flat, padding + fields, trailer);
    assert [] + flat == flat;
    ChunksOfFlatten([], p.raw, p.singleEntrySize, padding + fields + trailer);
  }

  lemma PageTrailerRead(p: PrintedPage, bref: BREF)
    requires Printable(p)
    ensures PageTrailerOf(PageTrailerBytes(p, bref), bref)
            == Some(PageTrailer(p.ptype, ComputeSig(bref.ib, bref.bid), p.dwCRC, p.bid))
  {
    var t, sig := PageTrailerBytes(p, bref), ComputeSig(bref.ib, bref.bid);
    assert t[0] == p.ptype && t[1] == p.ptype;
    assert t[2..4] == ToLE(sig, 2) && t[4..8] == ToLE(p.dwCRC, 4) && t[8..16] == ToLE(p.bid, 8);
    OneByteField(t, 0);
    OneByteField(t, 1);
    Pow256Values();
    DecodeEncode(sig, 2);
    DecodeEncode(p.dwCRC, 4);
    DecodeEncode(p.bid, 8);
  }

  lemma {:induction false} EntriesRead(raw: seq<seq<byte>>)
    requires forall c :: c in raw ==> |c| <= ENTRY_MAX_SIZE
    ensures EntriesOf(raw).Some?
    ensures forall i :: 0 <= i < |raw| ==> Some(EntriesOf(raw).value[i]) == EntryOf(raw[i])
  {
    hide EntryOf, EntriesOf;
    if raw == [] {
      NoEntries();
    } else {
      var n := |raw| - 1;
      assert raw[n] in raw;
      EntriesRead(raw[..n]);
      EntryAccepted(raw[n]);
      EntriesSnoc(raw[..n], raw[n]);
      assert raw == raw[..n] + [raw[n]];
    }
  }

  lemma EntryAccepted(c: seq<byte>)
    requires |c| <= ENTRY_MAX_SIZE
    ensures EntryOf(c).Some?
  {
  }

  lemma SetupRoundTrip(p: PrintedPage, bref: BREF, trailer: PageTrailer, parentCLevel: int)
    requires Printable(p) && trailer.ptype == p.ptype && EntriesOf(p.raw).Some?
    requires parentCLevel != -1 ==> parentCLevel - 1 == p.cLevel
    ensures ParsedPage(PageBytes(p, bref), trailer, parentCLevel)
            == Some(BTPage([], EntriesOf(p.raw).value, |p.raw|, p.maxNEntries, p.singleEntrySize, p.cLevel, trailer))
  {
    hide PageBytes, EntriesOf;
    PageFieldsRead(p, bref);
    PageEntriesRead(p, bref);
  }

  /**
   * Parsing undoes printing: a page printed where its reference says is read back with its counts, sizes, level,
   * trailer and entries.
   */
  lemma PageRoundTrip(file: seq<byte>, p: PrintedPage, bref: BREF, parentCLevel: int)
    requires Printable(p) && Holds(file, bref.ib, PageBytes(p, bref))
    requires parentCLevel != -1 ==> parentCLevel - 1 == p.cLevel
    ensures EntriesOf(p.raw).Some?
    ensures PageAt(file, bref, parentCLevel)
            == Some(BTPage([], EntriesOf(p.raw).value, |p.raw|, p.maxNEntries, p.singleEntrySize, p.cLevel,
                           PageTrailer(p.ptype, ComputeSig(bref.ib, bref.bid), p.dwCRC, p.bid)))
  {
    hide PageTrailerOf, ParsedPage, EntriesOf;
    EntriesRead(p.raw);
    PageTrailerRead(p, bref);
    SetupRoundTrip(p, bref, PageTrailer(p.ptype, ComputeSig(bref.ib, bref.bid), p.dwCRC, p.bid), parentCLevel);
    assert PageBytes(p, bref)[PAGE_SIZE - 16..] == PageTrailerBytes(p, bref);
  }

  // ----- what is checked of a page

  lemma {:induction false} EntriesExist(raw: seq<seq<byte>>)
    ensures EntriesOf(raw).Some? <==> forall c :: c in raw ==> |c| <= ENTRY_MAX_SIZE
  {
    hide CachesItsKeys;
    if raw == [] {
    } else {
      var n := |raw| - 1;
      EntriesExist(raw[..n]);
      EntryExists(raw[n]);
      assert raw[n] in raw && forall c :: c in raw <==> c in raw[..n] || c == raw[n];
    }
  }

  lemma EntryExists(c: seq<byte>)
    ensures EntryOf(c).Some? <==> |c| <= ENTRY_MAX_SIZE
  {
  }

  lemma EqualPieces(raw: seq<seq<byte>>, size: nat)
    requires forall c :: c in raw ==> |c| == size
    ensures EntriesOf(raw).Some? <==> raw == [] || size <= ENTRY_MAX_SIZE
  {
    hide EntriesOf;
    EntriesExist(raw);
    if raw != [] {
      assert raw[0] in raw;
    }
  }

  /** A page is parsed exactly under these conditions; the CRC in its trailer is not among them. */
  lemma ParsedPageIff(bytes: seq<byte>, trailer: PageTrailer, parentCLevel: int)
    requires |bytes| == 512
    ensures ParsedPage(bytes, trailer, parentCLevel).Some?
            <==> && (trailer.ptype == 0x80 || trailer.ptype == 0x81)
                 && bytes[488] <= bytes[489] && bytes[488] as nat * bytes[490] as nat <= 512
                 && (bytes[488] == 0 || bytes[490] <= 32) && U32At(bytes, 492) == 0
                 && (parentCLevel != -1 ==> parentCLevel - 1 == bytes[491] as int)
  {
    hide FromLE, Chunks, EntriesOf;
    OneByteField(bytes, 488);
    OneByteField(bytes, 489);
    OneByteField(bytes, 490);
    OneByteField(bytes, 491);
    ChunksExist(bytes, 0, bytes[488] as nat, bytes[490] as nat);
    var raw := Chunks(bytes, 0, bytes[488] as nat, bytes[490] as nat);
    if raw.Some? {
      EqualPieces(raw.value, bytes[490] as nat);
    }
  }

  /** So a page is read back with whatever entries it has, although its CRC is not that of its bytes. */
  lemma WrongPageCrcAccepted(file: seq<byte>, p: PrintedPage, bref: BREF, parentCLevel: int)
    requires Printable(p) && Holds(file, bref.ib, PageBytes(p, bref))
    requires parentCLevel != -1 ==> parentCLevel - 1 == p.cLevel
    requires p.dwCRC != CrcOf(PageBytes(p, bref)[..PAGE_SIZE - 16])
    ensures PageAt(file, bref, parentCLevel).Some?
    ensures var page := PageAt(file, bref, parentCLevel).value;
      Some(page.rgentries) == EntriesOf(p.raw) && page.trailer.dwCRC == p.dwCRC
  {
    hide PageAt, PageBytes, EntriesOf, CrcOf;
    PageRoundTrip(file, p, bref, parentCLevel);
  }

  /** For one, an empty page with the CRC of its bytes, plus one. */
  lemma WrongPageCrcExample(bref: BREF, empty: PrintedPage, p: PrintedPage)
    requires bref.ib == 0 && empty == PrintedPage([], 20, 24, 0, PTYPE_BBT, 0, bref.bid)
    requires p == empty.(dwCRC := (CrcOf(PageBytes(empty, bref)[..PAGE_SIZE - 16]) + 1) % 0x1_0000_0000)
    ensures PageAt(PageBytes(p, bref), bref, -1).Some?
    ensures PageAt(PageBytes(p, bref), bref, -1).value.trailer.dwCRC != CrcOf(PageBytes(p, bref)[..PAGE_SIZE - 16])
  {
    hide PageAt, EntriesOf, CrcOf, PageTrailerBytes;
    assert PageBytes(p, bref)[..PAGE_SIZE - 16] == PageBytes(empty, bref)[..PAGE_SIZE - 16];
    assert PageBytes(p, bref)[0..PAGE_SIZE] == PageBytes(p, bref);
    WrongPageCrcAccepted(PageBytes(p, bref), p, bref, -1);
  }
}
