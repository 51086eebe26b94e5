/** Written payloads stay readable, whatever is written after them and whatever else the block index lists. */
module Payloads {
  import opened Blocks
  import opened Bytes
  import opened DataTrees
  import opened DataTreeTheory
  import opened Ndb
  import opened Writer

  /** What reading gives for a payload: the payload, unless it needed an XX block and the root is read as written. */
  function Expectation(payload: seq<byte>, dispatch: Dispatch): Option<seq<byte>>
  {
    if dispatch == AsWritten && |payload| > X_CAPACITY then None else Some(payload)
  }

  ghost predicate Readable(file: seq<byte>, getBBT: GetBBT, root: BBTEntry, payload: seq<byte>)
  {
    && getBBT(root.bref.bid) == Some(root)
    && forall dispatch :: LoadedData(file, getBBT, root, dispatch) == Expectation(payload, dispatch)
  }

  /** Whatever is written after a payload, and whatever else the index lists, the payload stays readable. */
  lemma PayloadReadable(d: Disk, payload: seq<byte>, file: seq<byte>, getBBT: GetBBT)
    requires Fits(d, payload)
    requires var e := Written(d, payload).0; Prefix(e.file, file) && Refines(Lookup(e.index), getBBT)
    ensures Readable(file, getBBT, Written(d, payload).1, payload)
  {
    hide LoadedBlocks, Written, Lookup;
    var (e, root) := Written(d, payload);
    RootListed(d, payload);
    WriteThenLoad(d, payload);
    LoadStable(e.file, file, Lookup(e.index), getBBT, root.bref, root.cb, ByLevel);
    if |payload| <= X_CAPACITY {
      WriteThenLoadAsWritten(d, payload);
      ReloadedSome(d, payload);
      LoadStable(e.file, file, Lookup(e.index), getBBT, root.bref, root.cb, AsWritten);
    } else {
      LargeReload(d, payload);
      RefusalStable(e.file, file, Lookup(e.index), getBBT, root);
    }
  }

  lemma ReloadedSome(d: Disk, payload: seq<byte>)
    requires Fits(d, payload) && Reloaded(d, payload, AsWritten) == Some(payload)
    ensures var (e, root) := Written(d, payload);
      LoadedBlocks(e.file, Lookup(e.index), root.bref, root.cb, AsWritten).Some?
  {
    hide LoadedBlocks, Written, Lookup;
  }

  /** A tree that is only refused for its XX root is refused in every extension of the file. */
  lemma RefusalStable(a: seq<byte>, b: seq<byte>, f: GetBBT, g: GetBBT, root: BBTEntry)
    requires Prefix(a, b)
    requires LoadedBlocks(a, f, root.bref, root.cb, ByLevel).Some?
    requires LoadedBlocks(a, f, root.bref, root.cb, AsWritten).None?
    ensures LoadedBlocks(b, g, root.bref, root.cb, AsWritten).None?
  {
    DispatchAgreesExceptXX(a, f, root.bref, root.cb);
    DispatchAgreesExceptXX(b, g, root.bref, root.cb);
    hide LoadedBlocks, TrailerAtEnd, CheckedSize;
    ReadBytesStable(a, b, root.bref.ib, CheckedSize(root.cb).value.0);
  }

  lemma EarlierKept(d: Disk, e: Disk, file: seq<byte>, getBBT: GetBBT)
    requires Extends(d, e) && Prefix(e.file, file) && Refines(Lookup(e.index), getBBT)
    ensures Prefix(d.file, file) && Refines(Lookup(d.index), getBBT)
  {
    PrefixTransitive(d.file, e.file, file);
  }
}
