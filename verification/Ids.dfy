/** Node, block and byte identifiers (`include/core.h`). */
module Ids {
  import opened Bytes

  /** A block identifier with the absolute file offset of what it identifies. */
  datatype BREF = BREF(bid: uint64, ib: uint64)

  /** `BID::isInternal`: bit 1. */
  predicate IsInternal(bid: uint64) {
    bid / 2 % 2 == 1
  }

  /** `operator>` of NID and BID is written as "not less", so it holds of equal keys too. */
  predicate Greater(id: nat, key: nat) {
    !(id < key)
  }

  /** `NID::getNIDIndex`: the low five bits cleared. */
  function NidIndex(nid: uint32): uint32 {
    nid / 0x20 * 0x20
  }

  /** `types::NIDType`, by value; `INVALID` stands for every code outside the table. */
  const INVALID: nat := 0xFFFFFF

  function GetNIDType(code: nat): nat {
    if code <= 0x08 || 0x0A <= code <= 0x13 || code == 0x1F then code else INVALID
  }

  /** `NID::getNIDType`: the table entry of the low five bits. */
  function NidType(nid: uint32): nat {
    GetNIDType(nid % 0x20)
  }

  /** Index and type together determine the node, as long as the type is in the table. */
  lemma IndexAndTypeDetermine(a: uint32, b: uint32)
    requires NidIndex(a) == NidIndex(b) && NidType(a) == NidType(b) != INVALID
    ensures a == b
  {
  }

  /** Two nodes share the index exactly when they agree above the low five bits. */
  lemma SameIndex(a: uint32, b: uint32)
    ensures NidIndex(a) == NidIndex(b) <==> a / 0x20 == b / 0x20
  {
  }

  /** The types of the table, code by code; every other code has the same invalid type. */
  lemma NodeTypes(nid: uint32)
    ensures NidType(nid)
            == if nid % 0x20 in {0x00, 0x01, 0x02, 0x03, 0x04, 0x05, 0x06, 0x07, 0x08, 0x0A, 0x0B, 0x0C, 0x0D, 0x0E,
                                 0x0F, 0x10, 0x11, 0x12, 0x13, 0x1F}
               then nid % 0x20 else 0xFFFFFF
  {
  }

  /** An internal block is one whose identifier has bit 1 set. */
  lemma InternalBit(bid: uint64)
    ensures IsInternal(bid) <==> bid % 4 == 2 || bid % 4 == 3
  {
  }

  lemma GreaterOrEqual(id: nat, key: nat)
    ensures Greater(id, key) <==> id >= key
  {
  }
}
