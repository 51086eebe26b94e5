/** `BTPage::all` (`include/NDB.h`): the nodes that share a node index, one per node type. */
module BTCollect {
  import opened BTPages
  import opened BTSearch
  import opened Bytes
  import opened Ids

  /** The nodes collected so far, by node type. */
  type Nodes = map<nat, NBTEntry>

  predicate Matches(entry: Entry, index: uint32) {
    NidIndex(entry.nid) == index
  }

  function TypeOf(entry: Entry): nat {
    NidType(AsNBTEntry(entry).nid)
  }

  /** Adding the matching entries of a list, in order; a type that is already there fails. */
  function Gather(nodes: Nodes, entries: seq<Entry>, index: uint32): Option<Nodes>
    decreases |entries|
  {
    if entries == [] then Some(nodes)
    else if !Matches(entries[0], index) then Gather(nodes, entries[1..], index)
    else if TypeOf(entries[0]) in nodes then None
    else Gather(nodes[TypeOf(entries[0]) := AsNBTEntry(entries[0])], entries[1..], index)
  }

  lemma {:induction false} GatherConcat(nodes: Nodes, a: seq<Entry>, b: seq<Entry>, index: uint32)
    ensures Gather(nodes, a + b, index)
            == var first := Gather(nodes, a, index); if first.None? then None else Gather(first.value, b, index)
    decreases |a|
  {
    if a == [] {
      assert a + b == b;
    } else {
      assert (a + b)[1..] == a[1..] + b;
      GatherConcat(nodes, a[1..], b, index);
      if Matches(a[0], index) && TypeOf(a[0]) !in nodes {
        GatherConcat(nodes[TypeOf(a[0]) := AsNBTEntry(a[0])], a[1..], b, index);
      }
    }
  }

  /** The loop over the entries of a leaf. */
  method CollectEntries(entries: seq<Entry>, nid: uint32, before: Nodes) returns (r: Option<Nodes>)
    ensures r == Gather(before, entries, NidIndex(nid))
  {
    var nodes: Nodes := before;
    for i := 0 to |entries|
      invariant Gather(before, entries, NidIndex(nid)) == Gather(nodes, entries[i..], NidIndex(nid))
    {
      assert entries[i..][1..] == entries[i + 1..];
      if NidIndex(entries[i].nid) == NidIndex(nid) {
        var nbt := ReadNBTEntry(entries[i]);
        if NidType(nbt.nid) in nodes {
          return None;
        }
        var nidType: nat := NidType(nbt.nid);
        nodes := nodes[nidType := nbt];
      }
    }
    return Some(nodes);
  }

  /** `all_`: its own entries if it is a leaf of the node tree, then every sub-page. */
  method CollectPage(page: BTPage, nid: uint32, before: Nodes) returns (r: Option<Nodes>)
    requires Shaped(page)
    ensures r == Gather(before, LeafEntries(NodeIndex, page), NidIndex(nid))
    decreases page
  {
    if NBT_ENTRY == EntryTypeOf(page) {
      r := CollectEntries(page.rgentries, nid, before);
      return;
    }
    var nodes: Nodes := before;
    if page.cLevel == 0 {
      return Some(nodes);
    }
    ghost var index := NidIndex(nid);
    for i := 0 to |page.subPages|
      invariant Gather(before, LeavesFrom(NodeIndex, page, 0), index)
                == Gather(nodes, LeavesFrom(NodeIndex, page, i), index)
    {
      GatherConcat(nodes, LeafEntries(NodeIndex, page.subPages[i]), LeavesFrom(NodeIndex, page, i + 1), index);
      var more := CollectPage(page.subPages[i], nid, nodes);
      if more.None? {
        return None;
      }
      nodes := more.value;
    }
    return Some(nodes);
  }

  /** `all` */
  method All(page: BTPage, nid: uint32) returns (r: Option<Nodes>)
    requires Shaped(page)
    ensures r == Gather(map[], LeafEntries(NodeIndex, page), NidIndex(nid))
    ensures Exact(r, LeafEntries(NodeIndex, page), nid)
  {
    hide Exact, Gather;
    r := CollectPage(page, nid, map[]);
    AllIsExact(LeafEntries(NodeIndex, page), nid);
  }

  // ----- when it succeeds, and with what

  /** Two leaf entries, at different places, that share the index and the node type. */
  ghost predicate Clash(entries: seq<Entry>, index: uint32, i: int, j: int)
  {
    && 0 <= i < j < |entries|
    && Matches(entries[i], index) && Matches(entries[j], index) && TypeOf(entries[i]) == TypeOf(entries[j])
  }

  /** Adding to `nodes` fails exactly when two entries clash or one clashes with what is there already. */
  ghost predicate Addable(nodes: Nodes, entries: seq<Entry>, index: uint32)
  {
    && (forall i, j :: !Clash(entries, index, i, j))
    && (forall i :: 0 <= i < |entries| && Matches(entries[i], index) ==> TypeOf(entries[i]) !in nodes)
  }

  lemma {:induction false} GatherSucceeds(nodes: Nodes, entries: seq<Entry>, index: uint32)
    ensures Gather(nodes, entries, index).Some? <==> Addable(nodes, entries, index)
    decreases |entries|
  {
    if entries == [] {
    } else {
      var rest := entries[1..];
      var next := if Matches(entries[0], index) then nodes[TypeOf(entries[0]) := AsNBTEntry(entries[0])] else nodes;
      GatherSucceeds(next, rest, index);
      if Addable(next, rest, index) && (Matches(entries[0], index) ==> TypeOf(entries[0]) !in nodes) {
        AddableCons(nodes, entries, index, next);
      }
      if Addable(nodes, entries, index) {
        AddableTail(nodes, entries, index, next);
      }
    }
  }

  lemma AddableCons(nodes: Nodes, entries: seq<Entry>, index: uint32, next: Nodes)
    requires entries != [] && Addable(next, entries[1..], index)
    requires next == if Matches(entries[0], index) then nodes[TypeOf(entries[0]) := AsNBTEntry(entries[0])] else nodes
    requires Matches(entries[0], index) ==> TypeOf(entries[0]) !in nodes
    ensures Addable(nodes, entries, index)
  {
    var rest := entries[1..];
    forall i, j
      ensures !Clash(entries, index, i, j)
    {
      if Clash(entries, index, i, j) {
        assert rest[j - 1] == entries[j];
        if i > 0 {
          assert rest[i - 1] == entries[i];
          assert Clash(rest, index, i - 1, j - 1);
        }
      }
    }
    forall i | 0 <= i < |entries| && Matches(entries[i], index)
      ensures TypeOf(entries[i]) !in nodes
    {
      if i > 0 {
        assert rest[i - 1] == entries[i];
      }
    }
  }

  lemma AddableTail(nodes: Nodes, entries: seq<Entry>, index: uint32, next: Nodes)
    requires entries != [] && Addable(nodes, entries, index)
    requires next == if Matches(entries[0], index) then nodes[TypeOf(entries[0]) := AsNBTEntry(entries[0])] else nodes
    ensures Addable(next, entries[1..], index)
  {
    var rest := entries[1..];
    forall i, j
      ensures !Clash(rest, index, i, j)
    {
      if 0 <= i < j < |rest| {
        assert rest[i] == entries[i + 1] && rest[j] == entries[j + 1];
        assert !Clash(entries, index, i + 1, j + 1);
      }
    }
    forall i | 0 <= i < |rest| && Matches(rest[i], index)
      ensures TypeOf(rest[i]) !in next
    {
      assert entries[i + 1] == rest[i];
      assert !Clash(entries, index, 0, i + 1);
    }
  }

  /** The result holds what was there and every matching entry under its type, and nothing else. */
  lemma {:induction false} GatherContents(nodes: Nodes, entries: seq<Entry>, index: uint32)
    requires Gather(nodes, entries, index).Some?
    ensures var m := Gather(nodes, entries, index).value;
      && (forall t :: t in nodes ==> t in m && m[t] == nodes[t])
      && (forall e :: e in entries && Matches(e, index) ==> TypeOf(e) in m && m[TypeOf(e)] == AsNBTEntry(e))
      && (forall t :: t in m ==> t in nodes || exists e :: e in entries && Matches(e, index) && TypeOf(e) == t)
    decreases |entries|
  {
    if entries == [] {
    } else {
      var rest := entries[1..];
      assert forall e :: e in entries <==> e == entries[0] || e in rest;
      if Matches(entries[0], index) {
        GatherContents(nodes[TypeOf(entries[0]) := AsNBTEntry(entries[0])], rest, index);
      } else {
        GatherContents(nodes, rest, index);
      }
    }
  }

  lemma GatherIsExact(entries: seq<Entry>, index: uint32)
    ensures var m := Gather(map[], entries, index);
      && (m.Some? <==> forall i, j :: !Clash(entries, index, i, j))
      && (m.Some? ==> forall e :: e in entries && Matches(e, index) ==>
                                    TypeOf(e) in m.value && m.value[TypeOf(e)] == AsNBTEntry(e))
      && (m.Some? ==> forall t :: t in m.value ==> exists e :: e in entries && Matches(e, index) && TypeOf(e) == t)
  {
    GatherSucceeds(map[], entries, index);
    if Gather(map[], entries, index).Some? {
      GatherContents(map[], entries, index);
    }
  }

  // ----- the same in terms of the identifiers stored in the entries

  /** The identifier in the entry agrees with `nid` above the low five bits. */
  ghost predicate SharesIndex(entry: Entry, nid: uint32)
  {
    AsNBTEntry(entry).nid / 0x20 == nid / 0x20
  }

  /** The low five bits of the identifier in the entry, if they are a known node type, and one value for all others. */
  ghost function TypeCode(entry: Entry): nat
  {
    var code := AsNBTEntry(entry).nid % 0x20;
    if code == 0x09 || 0x14 <= code <= 0x1E then 0xFFFFFF else code
  }

  ghost predicate Doubled(entries: seq<Entry>, nid: uint32, i: int, j: int)
  {
    && 0 <= i < j < |entries| && SharesIndex(entries[i], nid) && SharesIndex(entries[j], nid)
    && TypeCode(entries[i]) == TypeCode(entries[j])
  }

  /** What `all(nid)` gives on these leaf entries. */
  ghost predicate Exact(m: Option<Nodes>, entries: seq<Entry>, nid: uint32)
  {
    && (m.Some? <==> forall i, j :: !Doubled(entries, nid, i, j))
    && (m.Some? ==> forall e :: e in entries && SharesIndex(e, nid) ==>
                                  TypeCode(e) in m.value && m.value[TypeCode(e)] == AsNBTEntry(e))
    && (m.Some? ==> forall t :: t in m.value ==>
                                  exists e :: e in entries && SharesIndex(e, nid) && TypeCode(e) == t)
  }

  lemma Decoded(entry: Entry, nid: uint32)
    ensures Matches(entry, NidIndex(nid)) <==> SharesIndex(entry, nid)
    ensures TypeOf(entry) == TypeCode(entry)
  {
    CachedKeys(entry);
    SameIndex(AsNBTEntry(entry).nid, nid);
    NodeTypes(AsNBTEntry(entry).nid);
    hide AsNBTEntry, NidIndex, NidType;
  }

  /**
   * `all(nid)` is exact: its duplicate assertion fires exactly when two leaf entries hold identifiers that agree with
   * `nid` above the low five bits and have the same node type; otherwise the map holds precisely the leaf entries whose
   * identifiers agree with `nid` there, each under the low five bits of its identifier.
   */
  lemma AllIsExact(entries: seq<Entry>, nid: uint32)
    ensures Exact(Gather(map[], entries, NidIndex(nid)), entries, nid)
  {
    hide Gather, Matches, SharesIndex, TypeOf, TypeCode, AsNBTEntry;
    GatherIsExact(entries, NidIndex(nid));
    forall e: Entry
      ensures (Matches(e, NidIndex(nid)) <==> SharesIndex(e, nid)) && TypeOf(e) == TypeCode(e)
    {
      Decoded(e, nid);
    }
    forall i, j
      ensures Doubled(entries, nid, i, j) <==> Clash(entries, NidIndex(nid), i, j)
    {
    }
  }

  /** The assertion never fires on distinct nodes whose type codes are all in the table. */
  lemma NoDuplicates(entries: seq<Entry>, nid: uint32)
    requires DistinctKeys(NodeIndex, entries)
    requires forall e :: e in entries && Matches(e, NidIndex(nid)) ==> NidType(e.nid) != INVALID
    ensures Gather(map[], entries, NidIndex(nid)).Some?
  {
    GatherIsExact(entries, NidIndex(nid));
    forall i, j
      ensures !Clash(entries, NidIndex(nid), i, j)
    {
      if 0 <= i < j < |entries| {
        NoClash(entries, NidIndex(nid), i, j);
      }
    }
  }

  lemma NoClash(entries: seq<Entry>, index: uint32, i: nat, j: nat)
    requires DistinctKeys(NodeIndex, entries) && i < j < |entries|
    requires forall e :: e in entries && Matches(e, index) ==> NidType(e.nid) != INVALID
    ensures !Clash(entries, index, i, j)
  {
    hide NidIndex, NidType, AsNBTEntry;
    var a, b := entries[i], entries[j];
    assert a in entries && b in entries && KeyOf(NodeIndex, a) != KeyOf(NodeIndex, b);
    CachedKeys(a);
    CachedKeys(b);
    if Clash(entries, index, i, j) {
      IndexAndTypeDetermine(a.nid, b.nid);
    }
  }
}
