/**
 * `BTPage::get` (`include/NDB.h`): the backtracking search, against a flat scan of the leaves and against one descent.
 */
module BTSearch {
  import opened BTPages
  import opened Bytes
  import opened Ids

  /** Which tree is searched: by node (`get<NBTEntry>`) or by block (`get<BBTEntry>`). */
  datatype IndexKind = NodeIndex | BlockIndex

  const NBT_ENTRY: nat := 3
  const BBT_ENTRY: nat := 2
  const BT_ENTRY: nat := 1

  /** `EntryType::id()` of what is searched for. */
  function WantedId(kind: IndexKind): nat {
    if kind == NodeIndex then NBT_ENTRY else BBT_ENTRY
  }

  /** `getEntryType`, on the page types that a page can have after `setup`. */
  function EntryTypeOf(page: BTPage): nat
    requires page.trailer.ptype == PTYPE_BBT || page.trailer.ptype == PTYPE_NBT
  {
    if page.cLevel == 0 && page.trailer.ptype == PTYPE_NBT then NBT_ENTRY
    else if page.cLevel > 0 then BT_ENTRY
    else BBT_ENTRY
  }

  /** The cached key that a leaf entry is compared by. */
  function KeyOf(kind: IndexKind, entry: Entry): nat {
    if kind == NodeIndex then entry.nid else entry.bid
  }

  /** The test that the source makes before it searches a child. */
  predicate Visits(id: nat, btkey: nat) {
    Greater(id, btkey) || id == btkey
  }

  function FirstWithKey(kind: IndexKind, entries: seq<Entry>, id: nat): (r: Option<Entry>)
    ensures r.Some? ==> r.value in entries && KeyOf(kind, r.value) == id
  {
    if entries == [] then None
    else if KeyOf(kind, entries[0]) == id then Some(entries[0])
    else FirstWithKey(kind, entries[1..], id)
  }

  /** The search, as an expression: leaves are scanned, inner pages try every child whose key does not exceed `id`. */
  function Get(kind: IndexKind, page: BTPage, id: nat): Option<Entry>
    requires Shaped(page)
    decreases page, 1
  {
    if WantedId(kind) == EntryTypeOf(page) then FirstWithKey(kind, page.rgentries, id)
    else if EntryTypeOf(page) == BT_ENTRY then GetFrom(kind, page, id, 0)
    else None
  }

  function GetFrom(kind: IndexKind, page: BTPage, id: nat, i: nat): Option<Entry>
    requires Shaped(page) && page.cLevel > 0 && i <= |page.rgentries|
    decreases page, 0, |page.rgentries| - i
  {
    if i == |page.rgentries| then None
    else if Visits(id, page.rgentries[i].btkey) && Get(kind, page.subPages[i], id).Some? then
      Get(kind, page.subPages[i], id)
    else GetFrom(kind, page, id, i + 1)
  }

  method ScanLeaf(kind: IndexKind, entries: seq<Entry>, id: nat) returns (r: Option<Entry>)
    ensures r == FirstWithKey(kind, entries, id)
  {
    for i := 0 to |entries|
      invariant FirstWithKey(kind, entries, id) == FirstWithKey(kind, entries[i..], id)
    {
      if KeyOf(kind, entries[i]) == id {
        return Some(entries[i]);
      }
      assert entries[i..][1..] == entries[i + 1..];
    }
    return None;
  }

  /** `get`: the loops of the source. */
  method GetEntry(kind: IndexKind, page: BTPage, id: nat) returns (r: Option<Entry>)
    requires Shaped(page)
    ensures r == Get(kind, page, id)
    decreases page
  {
    if WantedId(kind) == EntryTypeOf(page) {
      r := ScanLeaf(kind, page.rgentries, id);
    } else if EntryTypeOf(page) == BT_ENTRY {
      for i := 0 to |page.rgentries|
        invariant GetFrom(kind, page, id, 0) == GetFrom(kind, page, id, i)
      {
        if Visits(id, page.rgentries[i].btkey) {
          var ret := GetEntry(kind, page.subPages[i], id);
          if ret.Some? {
            return ret;
          }
        }
      }
      r := None;
    } else {
      r := None;
    }
  }

  // ----- the flat index

  /** The entries of the leaves, left to right, as far as their pages are of the kind that is searched. */
  ghost function LeafEntries(kind: IndexKind, page: BTPage): seq<Entry>
    requires Shaped(page)
    decreases page, 1
  {
    if WantedId(kind) == EntryTypeOf(page) then page.rgentries
    else if EntryTypeOf(page) == BT_ENTRY then LeavesFrom(kind, page, 0)
    else []
  }

  ghost function LeavesFrom(kind: IndexKind, page: BTPage, i: nat): seq<Entry>
    requires Shaped(page) && page.cLevel > 0 && i <= |page.rgentries|
    decreases page, 0, |page.rgentries| - i
  {
    if i == |page.rgentries| then []
    else LeafEntries(kind, page.subPages[i]) + LeavesFrom(kind, page, i + 1)
  }

  lemma LeavesStep(kind: IndexKind, page: BTPage, i: nat)
    requires Shaped(page) && page.cLevel > 0 && i < |page.rgentries|
    ensures LeavesFrom(kind, page, i) == LeafEntries(kind, page.subPages[i]) + LeavesFrom(kind, page, i + 1)
  {
  }

  /** The part of the flat index that a search for `id` can reach: no key on the way down exceeds `id`. */
  ghost function Reachable(kind: IndexKind, page: BTPage, id: nat): seq<Entry>
    requires Shaped(page)
    decreases page, 1
  {
    if WantedId(kind) == EntryTypeOf(page) then page.rgentries
    else if EntryTypeOf(page) == BT_ENTRY then ReachableFrom(kind, page, id, 0)
    else []
  }

  ghost function ReachableFrom(kind: IndexKind, page: BTPage, id: nat, i: nat): seq<Entry>
    requires Shaped(page) && page.cLevel > 0 && i <= |page.rgentries|
    decreases page, 0, |page.rgentries| - i
  {
    if i == |page.rgentries| then []
    else
      (if Visits(id, page.rgentries[i].btkey) then Reachable(kind, page.subPages[i], id) else [])
      + ReachableFrom(kind, page, id, i + 1)
  }

  lemma {:induction false} FirstOfConcat(kind: IndexKind, a: seq<Entry>, b: seq<Entry>, id: nat)
    ensures FirstWithKey(kind, a + b, id)
            == if FirstWithKey(kind, a, id).Some? then FirstWithKey(kind, a, id) else FirstWithKey(kind, b, id)
    decreases |a|
  {
    if a == [] {
      assert a + b == b;
    } else {
      FirstOfConcat(kind, a[1..], b, id);
      assert (a + b)[1..] == a[1..] + b;
    }
  }

  /** On every loaded tree, sorted or not: the search is a scan of the part of the index that it can reach. */
  lemma {:induction false} GetScansReachable(kind: IndexKind, page: BTPage, id: nat)
    requires Shaped(page)
    ensures Get(kind, page, id) == FirstWithKey(kind, Reachable(kind, page, id), id)
    decreases page, 1
  {
    if page.cLevel == 0 {
    } else {
      GetFromScansReachable(kind, page, id, 0);
    }
  }

  lemma {:induction false} GetFromScansReachable(kind: IndexKind, page: BTPage, id: nat, i: nat)
    requires Shaped(page) && page.cLevel > 0 && i <= |page.rgentries|
    ensures GetFrom(kind, page, id, i) == FirstWithKey(kind, ReachableFrom(kind, page, id, i), id)
    decreases page, 0, |page.rgentries| - i
  {
    if i == |page.rgentries| {
    } else {
      var child := if Visits(id, page.rgentries[i].btkey) then Reachable(kind, page.subPages[i], id) else [];
      GetScansReachable(kind, page.subPages[i], id);
      GetFromScansReachable(kind, page, id, i + 1);
      FirstOfConcat(kind, child, ReachableFrom(kind, page, id, i + 1), id);
    }
  }

  // ----- when the whole index is searched

  /** No leaf key is below a key on the way down to it. */
  ghost predicate LowerBounded(kind: IndexKind, page: BTPage)
    requires Shaped(page)
    decreases page
  {
    page.cLevel > 0 ==>
      forall i :: 0 <= i < |page.rgentries| ==>
                    && LowerBounded(kind, page.subPages[i])
                    && AllAtLeast(kind, LeafEntries(kind, page.subPages[i]), page.rgentries[i].btkey)
  }

  ghost predicate AllAtLeast(kind: IndexKind, entries: seq<Entry>, key: nat)
  {
    forall e :: e in entries ==> KeyOf(kind, e) >= key
  }

  lemma {:induction false} NoneWithKey(kind: IndexKind, entries: seq<Entry>, id: nat)
    ensures FirstWithKey(kind, entries, id).None? <==> forall e :: e in entries ==> KeyOf(kind, e) != id
    decreases |entries|
  {
    if entries == [] {
    } else {
      NoneWithKey(kind, entries[1..], id);
      assert forall e :: e in entries <==> e == entries[0] || e in entries[1..];
    }
  }

  /** What a scan finds is the leftmost entry with the key. */
  lemma {:induction false} FirstIsLeftmost(kind: IndexKind, entries: seq<Entry>, id: nat) returns (i: nat)
    requires FirstWithKey(kind, entries, id).Some?
    ensures i < |entries| && entries[i] == FirstWithKey(kind, entries, id).value && KeyOf(kind, entries[i]) == id
    ensures forall j :: 0 <= j < i ==> KeyOf(kind, entries[j]) != id
  {
    if KeyOf(kind, entries[0]) == id {
      i := 0;
    } else {
      var k := FirstIsLeftmost(kind, entries[1..], id);
      i := k + 1;
      assert forall j :: 1 <= j < i ==> entries[j] == entries[1..][j - 1];
    }
  }

  /** On a bounded tree the search returns the leftmost leaf entry with the key, and nothing when no leaf has it. */
  lemma {:induction false} GetScansLeaves(kind: IndexKind, page: BTPage, id: nat)
    requires Shaped(page) && LowerBounded(kind, page)
    ensures Get(kind, page, id) == FirstWithKey(kind, LeafEntries(kind, page), id)
    decreases page, 1
  {
    if page.cLevel == 0 {
    } else {
      GetFromScansLeaves(kind, page, id, 0);
    }
  }

  lemma {:induction false} GetFromScansLeaves(kind: IndexKind, page: BTPage, id: nat, i: nat)
    requires Shaped(page) && LowerBounded(kind, page) && page.cLevel > 0 && i <= |page.rgentries|
    ensures GetFrom(kind, page, id, i) == FirstWithKey(kind, LeavesFrom(kind, page, i), id)
    decreases page, 0, |page.rgentries| - i
  {
    hide LeafEntries, FirstWithKey, Get;
    if i == |page.rgentries| {
    } else {
      var child := LeafEntries(kind, page.subPages[i]);
      GetScansLeaves(kind, page.subPages[i], id);
      GetFromScansLeaves(kind, page, id, i + 1);
      FirstOfConcat(kind, child, LeavesFrom(kind, page, i + 1), id);
      if !Visits(id, page.rgentries[i].btkey) {
        NoneWithKey(kind, child, id);
      }
    }
  }

  // ----- searching by cache is searching by decoding

  /** The key that decoding a leaf entry gives. */
  function DecodedKey(kind: IndexKind, entry: Entry): nat {
    if kind == NodeIndex then AsNBTEntry(entry).nid else AsBBTEntry(entry).bref.bid
  }

  ghost function FirstDecoded(kind: IndexKind, entries: seq<Entry>, id: nat): Option<Entry>
  {
    if entries == [] then None
    else if DecodedKey(kind, entries[0]) == id then Some(entries[0])
    else FirstDecoded(kind, entries[1..], id)
  }

  /** The search without the cache: every key that is compared is decoded from the bytes of its entry. */
  ghost function GetDecoding(kind: IndexKind, page: BTPage, id: nat): Option<Entry>
    requires Shaped(page)
    decreases page, 1
  {
    if WantedId(kind) == EntryTypeOf(page) then FirstDecoded(kind, page.rgentries, id)
    else if EntryTypeOf(page) == BT_ENTRY then GetDecodingFrom(kind, page, id, 0)
    else None
  }

  ghost function GetDecodingFrom(kind: IndexKind, page: BTPage, id: nat, i: nat): Option<Entry>
    requires Shaped(page) && page.cLevel > 0 && i <= |page.rgentries|
    decreases page, 0, |page.rgentries| - i
  {
    if i == |page.rgentries| then None
    else if Visits(id, AsBTEntry(page.rgentries[i]).btkey) && GetDecoding(kind, page.subPages[i], id).Some? then
      GetDecoding(kind, page.subPages[i], id)
    else GetDecodingFrom(kind, page, id, i + 1)
  }

  lemma {:induction false} FirstIsDecoded(kind: IndexKind, entries: seq<Entry>, id: nat)
    ensures FirstWithKey(kind, entries, id) == FirstDecoded(kind, entries, id)
  {
    hide AsNBTEntry, AsBBTEntry;
    if entries == [] {
    } else {
      CachedKeys(entries[0]);
      FirstIsDecoded(kind, entries[1..], id);
    }
  }

  /** On every tree that can be loaded, the cache changes no search. */
  lemma {:induction false} CacheChangesNothing(kind: IndexKind, page: BTPage, id: nat)
    requires Shaped(page)
    ensures Get(kind, page, id) == GetDecoding(kind, page, id)
    decreases page, 1
  {
    if WantedId(kind) == EntryTypeOf(page) {
      FirstIsDecoded(kind, page.rgentries, id);
    } else if EntryTypeOf(page) == BT_ENTRY {
      CacheChangesNothingFrom(kind, page, id, 0);
    }
  }

  lemma {:induction false} CacheChangesNothingFrom(kind: IndexKind, page: BTPage, id: nat, i: nat)
    requires Shaped(page) && page.cLevel > 0 && i <= |page.rgentries|
    ensures GetFrom(kind, page, id, i) == GetDecodingFrom(kind, page, id, i)
    decreases page, 0, |page.rgentries| - i
  {
    hide AsBTEntry;
    if i == |page.rgentries| {
    } else {
      CachedKeys(page.rgentries[i]);
      CacheChangesNothing(kind, page.subPages[i], id);
      CacheChangesNothingFrom(kind, page, id, i + 1);
    }
  }

  /** What is found on the pages of any file decodes to an entry with the key that was searched for. */
  lemma FoundDecodes(kind: IndexKind, file: seq<byte>, bref: BREF, id: nat)
    requires LoadedPage(file, bref, -1).Some?
    ensures var page := LoadedPage(file, bref, -1).value;
      var found := Get(kind, page, id);
      found == GetDecoding(kind, page, id) && (found.Some? ==> DecodedKey(kind, found.value) == id)
  {
    hide LoadedPage, Get, GetDecoding, LeafEntries, AsNBTEntry, AsBBTEntry;
    var page := LoadedPage(file, bref, -1).value;
    CacheChangesNothing(kind, page, id);
    if Get(kind, page, id).Some? {
      GetIsLeaf(kind, page, id);
      CachedKeys(Get(kind, page, id).value);
    }
  }

  // ----- when no key is missed

  /** Keys occur once in the flat index. */
  ghost predicate DistinctKeys(kind: IndexKind, entries: seq<Entry>)
  {
    forall i, j :: 0 <= i < j < |entries| ==> KeyOf(kind, entries[i]) != KeyOf(kind, entries[j])
  }

  /** Every key of the flat index is found. */
  ghost predicate FindsAll(kind: IndexKind, page: BTPage)
    requires Shaped(page)
  {
    forall e :: e in LeafEntries(kind, page) ==> Get(kind, page, KeyOf(kind, e)).Some?
  }

  lemma DistinctConcat(kind: IndexKind, a: seq<Entry>, b: seq<Entry>)
    requires DistinctKeys(kind, a + b)
    ensures DistinctKeys(kind, a) && DistinctKeys(kind, b)
    ensures forall x, y :: x in a && y in b ==> KeyOf(kind, x) != KeyOf(kind, y)
  {
    var c := a + b;
    assert forall i :: 0 <= i < |a| ==> c[i] == a[i];
    assert forall i :: 0 <= i < |b| ==> c[|a| + i] == b[i];
    forall x, y | x in a && y in b
      ensures KeyOf(kind, x) != KeyOf(kind, y)
    {
      var i :| 0 <= i < |a| && a[i] == x;
      var j :| 0 <= j < |b| && b[j] == y;
      assert c[i] == x && c[|a| + j] == y;
    }
    forall i, j | 0 <= i < j < |b|
      ensures KeyOf(kind, b[i]) != KeyOf(kind, b[j])
    {
      assert c[|a| + i] == b[i] && c[|a| + j] == b[j];
    }
  }

  lemma {:induction false} ChildLeaves(kind: IndexKind, page: BTPage, m: nat, i: nat)
    requires Shaped(page) && page.cLevel > 0 && m <= i < |page.rgentries|
    requires DistinctKeys(kind, LeavesFrom(kind, page, m))
    ensures DistinctKeys(kind, LeafEntries(kind, page.subPages[i])) && DistinctKeys(kind, LeavesFrom(kind, page, i))
    ensures forall e :: e in LeafEntries(kind, page.subPages[i]) ==> e in LeavesFrom(kind, page, m)
    decreases i - m
  {
    DistinctConcat(kind, LeafEntries(kind, page.subPages[m]), LeavesFrom(kind, page, m + 1));
    if m == i {
    } else {
      ChildLeaves(kind, page, m + 1, i);
    }
  }

  /** Two children of a page share no key when keys are distinct below the page. */
  lemma ChildrenDisjoint(kind: IndexKind, page: BTPage, i: nat, j: nat, a: Entry, b: Entry)
    requires Shaped(page) && page.cLevel > 0 && i < j < |page.rgentries|
    requires DistinctKeys(kind, LeavesFrom(kind, page, 0))
    requires a in LeafEntries(kind, page.subPages[i]) && b in LeafEntries(kind, page.subPages[j])
    ensures KeyOf(kind, a) != KeyOf(kind, b)
  {
    hide LeafEntries, DistinctKeys, LeavesFrom;
    LeavesStep(kind, page, i);
    ChildLeaves(kind, page, 0, i);
    DistinctConcat(kind, LeafEntries(kind, page.subPages[i]), LeavesFrom(kind, page, i + 1));
    ChildLeaves(kind, page, i + 1, j);
  }

  /** What the search returns is a leaf entry with the key, on every loaded tree. */
  lemma {:induction false} GetIsLeaf(kind: IndexKind, page: BTPage, id: nat)
    requires Shaped(page) && Get(kind, page, id).Some?
    ensures Get(kind, page, id).value in LeafEntries(kind, page) && KeyOf(kind, Get(kind, page, id).value) == id
    decreases page, 1
  {
    if page.cLevel == 0 {
    } else {
      GetFromIsLeaf(kind, page, id, 0);
    }
  }

  lemma {:induction false} GetFromIsLeaf(kind: IndexKind, page: BTPage, id: nat, i: nat)
    requires Shaped(page) && page.cLevel > 0 && i <= |page.rgentries| && GetFrom(kind, page, id, i).Some?
    ensures var e := GetFrom(kind, page, id, i).value; e in LeavesFrom(kind, page, i) && KeyOf(kind, e) == id
    decreases page, 0, |page.rgentries| - i
  {
    if Visits(id, page.rgentries[i].btkey) && Get(kind, page.subPages[i], id).Some? {
      GetIsLeaf(kind, page.subPages[i], id);
    } else {
      GetFromIsLeaf(kind, page, id, i + 1);
    }
  }

  /** A successful search went through some child. */
  lemma {:induction false} GetFromChild(kind: IndexKind, page: BTPage, id: nat, i: nat) returns (j: nat)
    requires Shaped(page) && page.cLevel > 0 && i <= |page.rgentries| && GetFrom(kind, page, id, i).Some?
    ensures j < |page.rgentries| && Visits(id, page.rgentries[j].btkey) && Get(kind, page.subPages[j], id).Some?
    decreases |page.rgentries| - i
  {
    if Visits(id, page.rgentries[i].btkey) && Get(kind, page.subPages[i], id).Some? {
      j := i;
    } else {
      j := GetFromChild(kind, page, id, i + 1);
    }
  }

  lemma InnerSearch(kind: IndexKind, page: BTPage, id: nat)
    requires Shaped(page) && page.cLevel > 0
    ensures LeafEntries(kind, page) == LeavesFrom(kind, page, 0) && Get(kind, page, id) == GetFrom(kind, page, id, 0)
  {
  }

  /** With distinct keys, a key of child `i` that is found at all is found through child `i`. */
  lemma FoundThroughOwnChild(kind: IndexKind, page: BTPage, i: nat, e: Entry)
    requires Shaped(page) && page.cLevel > 0 && i < |page.rgentries|
    requires DistinctKeys(kind, LeafEntries(kind, page)) && FindsAll(kind, page)
    requires e in LeafEntries(kind, page.subPages[i])
    ensures Visits(KeyOf(kind, e), page.rgentries[i].btkey) && Get(kind, page.subPages[i], KeyOf(kind, e)).Some?
  {
    InnerSearch(kind, page, KeyOf(kind, e));
    hide LeafEntries, Get, DistinctKeys;
    ChildLeaves(kind, page, 0, i);
    var id := KeyOf(kind, e);
    var j := GetFromChild(kind, page, id, 0);
    GetIsLeaf(kind, page.subPages[j], id);
    var found := Get(kind, page.subPages[j], id).value;
    if i < j {
      ChildrenDisjoint(kind, page, i, j, e, found);
    } else if j < i {
      ChildrenDisjoint(kind, page, j, i, found, e);
    }
  }

  /** A tree with distinct keys in which every key is found has no leaf key below a key on the way down to it. */
  lemma {:induction false} FindsAllIsBounded(kind: IndexKind, page: BTPage)
    requires Shaped(page) && DistinctKeys(kind, LeafEntries(kind, page)) && FindsAll(kind, page)
    ensures LowerBounded(kind, page)
    decreases page
  {
    if page.cLevel == 0 {
    } else {
      forall i | 0 <= i < |page.rgentries|
        ensures LowerBounded(kind, page.subPages[i])
        ensures AllAtLeast(kind, LeafEntries(kind, page.subPages[i]), page.rgentries[i].btkey)
      {
        ChildLeaves(kind, page, 0, i);
        forall e | e in LeafEntries(kind, page.subPages[i])
          ensures KeyOf(kind, e) >= page.rgentries[i].btkey && Get(kind, page.subPages[i], KeyOf(kind, e)).Some?
        {
          FoundThroughOwnChild(kind, page, i, e);
        }
        FindsAllIsBounded(kind, page.subPages[i]);
      }
    }
  }

  /** So with distinct keys, the search misses no key exactly on the bounded trees. */
  lemma FindsAllIffBounded(kind: IndexKind, page: BTPage)
    requires Shaped(page) && DistinctKeys(kind, LeafEntries(kind, page))
    ensures FindsAll(kind, page) <==> LowerBounded(kind, page)
  {
    if LowerBounded(kind, page) {
      forall e | e in LeafEntries(kind, page)
        ensures Get(kind, page, KeyOf(kind, e)).Some?
      {
        GetScansLeaves(kind, page, KeyOf(kind, e));
        NoneWithKey(kind, LeafEntries(kind, page), KeyOf(kind, e));
      }
    }
    if FindsAll(kind, page) {
      FindsAllIsBounded(kind, page);
    }
  }

  // ----- a single path

  /** Section 2.2.2.7.7 of [MS-PST]: keys increase, and each key bounds the keys under its child from below. */
  ghost predicate Sorted(kind: IndexKind, page: BTPage)
    requires Shaped(page)
    decreases page
  {
    page.cLevel > 0 ==>
      && (forall i, j :: 0 <= i < j < |page.rgentries| ==> page.rgentries[i].btkey < page.rgentries[j].btkey)
      && (forall i :: 0 <= i < |page.rgentries| ==> SortedChild(kind, page, i))
  }

  ghost predicate SortedChild(kind: IndexKind, page: BTPage, i: nat)
    requires Shaped(page) && page.cLevel > 0 && i < |page.rgentries|
    decreases page, 0
  {
    && Sorted(kind, page.subPages[i])
    && AllAtLeast(kind, LeafEntries(kind, page.subPages[i]), page.rgentries[i].btkey)
    && (i + 1 < |page.rgentries| ==> AllBelow(kind, LeafEntries(kind, page.subPages[i]), page.rgentries[i + 1].btkey))
  }

  ghost predicate AllBelow(kind: IndexKind, entries: seq<Entry>, key: nat)
  {
    forall e :: e in entries ==> KeyOf(kind, e) < key
  }

  /** How many entries from the left on have a key that does not exceed `id`. */
  function Below(rgentries: seq<Entry>, id: nat): (n: nat)
    ensures n <= |rgentries|
  {
    if rgentries == [] || rgentries[0].btkey > id then 0 else 1 + Below(rgentries[1..], id)
  }

  lemma {:induction false} BelowSplits(rgentries: seq<Entry>, id: nat)
    requires forall i, j :: 0 <= i < j < |rgentries| ==> rgentries[i].btkey < rgentries[j].btkey
    ensures forall i :: 0 <= i < |rgentries| ==> (rgentries[i].btkey <= id <==> i < Below(rgentries, id))
  {
    if rgentries != [] && rgentries[0].btkey <= id {
      BelowSplits(rgentries[1..], id);
      forall i | 0 <= i < |rgentries|
        ensures rgentries[i].btkey <= id <==> i < Below(rgentries, id)
      {
        if i > 0 {
          assert rgentries[1..][i - 1] == rgentries[i];
        }
      }
    }
  }

  /** Textbook search: from each inner page, only into the last child whose key does not exceed `id`. */
  ghost function Descend(kind: IndexKind, page: BTPage, id: nat): Option<Entry>
    requires Shaped(page)
    decreases page
  {
    if WantedId(kind) == EntryTypeOf(page) then FirstWithKey(kind, page.rgentries, id)
    else if EntryTypeOf(page) == BT_ENTRY && Below(page.rgentries, id) > 0 then
      Descend(kind, page.subPages[Below(page.rgentries, id) - 1], id)
    else None
  }

  lemma {:induction false} SortedIsBounded(kind: IndexKind, page: BTPage)
    requires Shaped(page) && Sorted(kind, page)
    ensures LowerBounded(kind, page)
    decreases page
  {
    if page.cLevel == 0 {
    } else {
      forall i | 0 <= i < |page.rgentries|
        ensures LowerBounded(kind, page.subPages[i])
        ensures AllAtLeast(kind, LeafEntries(kind, page.subPages[i]), page.rgentries[i].btkey)
      {
        assert SortedChild(kind, page, i);
        SortedIsBounded(kind, page.subPages[i]);
      }
    }
  }

  lemma OffPath(kind: IndexKind, page: BTPage, id: nat, i: nat)
    requires Shaped(page) && Sorted(kind, page) && page.cLevel > 0 && i < |page.rgentries|
    requires i != Below(page.rgentries, id) - 1
    ensures FirstWithKey(kind, LeafEntries(kind, page.subPages[i]), id).None?
  {
    hide LeafEntries, Below, FirstWithKey;
    BelowSplits(page.rgentries, id);
    assert SortedChild(kind, page, i);
    NoneWithKey(kind, LeafEntries(kind, page.subPages[i]), id);
  }

  /** Only the child on the path can hold the key. */
  lemma {:induction false} OnlyOnePath(kind: IndexKind, page: BTPage, id: nat, i: nat)
    requires Shaped(page) && Sorted(kind, page) && page.cLevel > 0 && i <= |page.rgentries|
    ensures var last := Below(page.rgentries, id) - 1;
      FirstWithKey(kind, LeavesFrom(kind, page, i), id)
      == if i <= last then FirstWithKey(kind, LeafEntries(kind, page.subPages[last]), id) else None
    decreases |page.rgentries| - i
  {
    hide Sorted, LeafEntries, Below;
    if i == |page.rgentries| {
    } else {
      OnlyOnePath(kind, page, id, i + 1);
      FirstOfConcat(kind, LeafEntries(kind, page.subPages[i]), LeavesFrom(kind, page, i + 1), id);
      if i != Below(page.rgentries, id) - 1 {
        OffPath(kind, page, id, i);
      }
    }
  }

  /** On a sorted tree, the backtracking search takes the textbook path: the other children it tries never answer. */
  lemma {:induction false} GetIsDescent(kind: IndexKind, page: BTPage, id: nat)
    requires Shaped(page) && Sorted(kind, page)
    ensures Get(kind, page, id) == Descend(kind, page, id)
  {
    SortedIsBounded(kind, page);
    GetScansLeaves(kind, page, id);
    DescentScansLeaves(kind, page, id);
  }

  lemma {:induction false} DescentScansLeaves(kind: IndexKind, page: BTPage, id: nat)
    requires Shaped(page) && Sorted(kind, page)
    ensures Descend(kind, page, id) == FirstWithKey(kind, LeafEntries(kind, page), id)
    decreases page
  {
    if page.cLevel == 0 {
    } else {
      hide FirstWithKey, Below;
      OnlyOnePath(kind, page, id, 0);
      var last := Below(page.rgentries, id) - 1;
      if last >= 0 {
        assert SortedChild(kind, page, last);
        DescentScansLeaves(kind, page.subPages[last], id);
      }
    }
  }
}
