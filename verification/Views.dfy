/** The cursors over raw bytes of `include/utils.h`: `ByteView` and `ArrayView`. */
module Views {
  import opened Bytes

  /** `slice(v, start, start + size, size)`; a slice that leaves the buffer fails. */
  function Slice(s: seq<byte>, start: nat, size: nat): (r: Option<seq<byte>>)
    ensures r.Some? ==> |r.value| == size
  {
    if start + size <= |s| then Some(s[start..start + size]) else None
  }

  /** The unsigned little-endian field of `size` bytes at offset `start`. */
  function Field(s: seq<byte>, start: nat, size: nat): (r: Option<nat>)
    ensures r.Some? ==> r.value < Pow256(size)
  {
    if start + size <= |s| then
      FromLEBound(s[start..start + size]);
      Some(FromLE(s[start..start + size]))
    else None
  }

  function U16At(s: seq<byte>, start: nat): uint16
    requires start + 2 <= |s|
  {
    Pow256Values();
    Field(s, start, 2).value
  }

  function U32At(s: seq<byte>, start: nat): uint32
    requires start + 4 <= |s|
  {
    Pow256Values();
    Field(s, start, 4).value
  }

  function U64At(s: seq<byte>, start: nat): uint64
    requires start + 8 <= |s|
  {
    Pow256Values();
    Field(s, start, 8).value
  }

  /** `count` consecutive slices of `size` bytes each. */
  function Chunks(s: seq<byte>, start: nat, count: nat, size: nat): (r: Option<seq<seq<byte>>>)
    ensures r.Some? ==> |r.value| == count && forall c :: c in r.value ==> |c| == size
    ensures count == 0 ==> r == Some([])
    decreases count
  {
    if count == 0 then Some([])
    else
      var head :- Slice(s, start, size);
      var tail :- Chunks(s, start + size, count - 1, size);
      Some([head] + tail)
  }

  /** Pieces can be cut exactly when the last of them ends inside the buffer. */
  lemma {:induction false} ChunksExist(s: seq<byte>, start: nat, count: nat, size: nat)
    requires start <= |s|
    ensures Chunks(s, start, count, size).Some? <==> start + count * size <= |s|
    decreases count
  {
    if count == 0 {
    } else {
      Times(count, size);
      if start + size <= |s| {
        ChunksExist(s, start + size, count - 1, size);
      } else {
        AtLeastOne(count - 1, size);
      }
    }
  }

  /** Piece `i` lies `i` pieces after the first. */
  lemma {:induction false} ChunkAt(s: seq<byte>, start: nat, count: nat, size: nat, i: nat)
    requires i < count && Chunks(s, start, count, size).Some?
    ensures Slice(s, start + i * size, size) == Some(Chunks(s, start, count, size).value[i])
    decreases i
  {
    hide Slice;
    if i == 0 {
    } else {
      ChunkAt(s, start + size, count - 1, size, i - 1);
      Times(i, size);
    }
  }

  /** A field of a slice is the field at that place of the whole. */
  lemma FieldInSlice(s: seq<byte>, start: nat, size: nat, at: nat, width: nat)
    requires start + size <= |s| && at + width <= size
    ensures Field(s[start..start + size], at, width) == Field(s, start + at, width)
  {
    hide FromLE, Pow256;
    var inner, direct := s[start..start + size][at..at + width], s[start + at..start + at + width];
    forall k | 0 <= k < width
      ensures inner[k] == direct[k]
    {
    }
    assert inner == direct;
  }

  lemma AtLeastOne(count: nat, size: nat)
    ensures count * size >= 0
  {
  }

  /** The pieces already taken, then the remaining ones if there are any more to be had. */
  function After(done: seq<seq<byte>>, rest: Option<seq<seq<byte>>>): (r: Option<seq<seq<byte>>>)
    ensures done == [] ==> r == rest
    ensures rest == Some([]) ==> r == Some(done)
  {
    if rest.None? then None
    else
      assert [] + rest.value == rest.value && done + [] == done;
      Some(done + rest.value)
  }

  /** Taking one more piece moves it from the remaining ones to those already taken. */
  lemma ChunksStep(done: seq<seq<byte>>, s: seq<byte>, start: nat, count: nat, size: nat)
    requires count > 0
    ensures Slice(s, start, size).None? ==> After(done, Chunks(s, start, count, size)).None?
    ensures Slice(s, start, size).Some? ==>
              After(done, Chunks(s, start, count, size))
              == After(done + [Slice(s, start, size).value], Chunks(s, start + size, count - 1, size))
  {
    var head, tail := Slice(s, start, size), Chunks(s, start + size, count - 1, size);
    if head.Some? && tail.Some? {
      assert (done + [head.value]) + tail.value == done + ([head.value] + tail.value);
    }
  }

  class ByteView {
    const bytes: seq<byte>
    var start: nat

    constructor (bytes: seq<byte>)
      ensures this.bytes == bytes && start == 0
    {
      this.bytes := bytes;
      start := 0;
    }

    method Read(size: nat) returns (r: Option<seq<byte>>)
      modifies this
      ensures start == old(start) + size
      ensures r == Slice(bytes, old(start), size)
    {
      var from := start;
      start := start + size;
      r := Slice(bytes, from, size);
    }

    /** `read<T>(size)` with `sizeof(T) == size`: what it returns is the field at the old cursor. */
    method ReadInt(size: nat) returns (r: Option<nat>)
      requires IsWidth(size)
      modifies this
      ensures start == old(start) + size
      ensures r == Field(bytes, old(start), size)
    {
      var slice := Read(size);
      if slice.None? {
        return None;
      }
      r := ToT(size, slice.value);
      ToTIsLittleEndian(size, slice.value);
    }

    /** `entries<T>(count, size)`: the raw bytes of each entry, cut by the moving cursor. */
    method Entries(count: nat, size: nat) returns (r: Option<seq<seq<byte>>>)
      modifies this
      ensures r == Chunks(bytes, old(start), count, size)
      ensures r.Some? ==> start == old(start) + count * size
    {
      hide Chunks, Slice, After;
      var res: seq<seq<byte>> := [];
      ghost var all := Chunks(bytes, start, count, size);
      for i := 0 to count
        invariant After(res, Chunks(bytes, start, count - i, size)) == all
        invariant start == old(start) + i * size
      {
        Times(i + 1, size);
        ChunksStep(res, bytes, start, count - i, size);
        var head := Read(size);
        if head.None? {
          return None;
        }
        res := res + [head.value];
      }
      r := Some(res);
    }

    /** `takeLast(n)`: moves the cursor to the last `n` bytes and reads them. */
    method TakeLast(n: nat) returns (r: Option<seq<byte>>)
      modifies this
      ensures r == if old(start) + n <= |bytes| then Slice(bytes, |bytes| - n, n) else None
      ensures r.Some? ==> start == |bytes|
    {
      if start > |bytes| || n > |bytes| - start {
        return None;
      }
      Skip(|bytes| - start - n);
      r := Read(n);
    }

    method Skip(n: nat)
      modifies this
      ensures start == old(start) + n
    {
      start := start + n;
    }

    method SetStart(newStart: nat)
      modifies this
      ensures start == newStart
    {
      start := newStart;
    }
  }

  /** `ArrayView` over the 32 cached bytes of a tree entry. */
  class ArrayView {
    const data: seq<byte>
    var start: nat

    constructor (data: seq<byte>, start: nat)
      ensures this.data == data && this.start == start
    {
      this.data := data;
      this.start := start;
    }

    /** `to<T>(size)` with `sizeof(T) == size`. */
    method To(size: nat) returns (r: nat)
      requires IsWidth(size) && start + size <= |data|
      modifies this
      ensures start == old(start) + size
      ensures r == FromLE(data[old(start)..old(start) + size]) < Pow256(size)
    {
      var bytes := data[start..start + size];
      start := start + size;
      ToTIsLittleEndian(size, bytes);
      r := ToT(size, bytes).value;
    }

    method SetStart(newStart: nat)
      modifies this
      ensures start == newStart
    {
      start := newStart;
    }
  }

  // ----- facts about slices of concatenations, used by every round trip

  lemma SliceOfConcat(a: seq<byte>, b: seq<byte>, c: seq<byte>)
    ensures Slice(a + b + c, |a|, |b|) == Some(b)
  {
  }

  lemma FieldOfConcat(a: seq<byte>, n: nat, size: nat, c: seq<byte>)
    requires n < Pow256(size)
    ensures Field(a + ToLE(n, size) + c, |a|, size) == Some(n)
  {
    DecodeEncode(n, size);
    assert (a + ToLE(n, size) + c)[|a|..|a| + size] == ToLE(n, size);
  }

  function Flatten<T>(parts: seq<seq<T>>): (r: seq<T>)
  {
    if parts == [] then [] else parts[0] + Flatten(parts[1..])
  }

  lemma Associative<T>(x: seq<T>, y: seq<T>, z: seq<T>)
    ensures (x + y) + z == x + (y + z)
  {
  }

  lemma {:induction false} FlattenConcat<T>(a: seq<seq<T>>, b: seq<seq<T>>)
    ensures Flatten(a + b) == Flatten(a) + Flatten(b)
  {
    hide Flatten;
    FlattenCons(a);
    FlattenCons(a + b);
    if a == [] {
      assert a + b == b;
    } else {
      FlattenConcat(a[1..], b);
      assert (a + b)[1..] == a[1..] + b;
      Associative(a[0], Flatten(a[1..]), Flatten(b));
    }
  }

  lemma FlattenSnoc<T>(a: seq<seq<T>>, x: seq<T>)
    ensures Flatten(a + [x]) == Flatten(a) + x
  {
    FlattenConcat(a, [x]);
    assert Flatten([x]) == x + Flatten([x][1..]);
  }

  lemma {:induction false} FlattenSize<T>(parts: seq<seq<T>>, size: nat)
    requires forall p :: p in parts ==> |p| == size
    ensures |Flatten(parts)| == |parts| * size
  {
    if parts == [] {
    } else {
      assert parts[0] in parts;
      FlattenSize(parts[1..], size);
      Times(|parts|, size);
    }
  }

  lemma Times(n: nat, size: nat)
    requires n > 0
    ensures n * size == (n - 1) * size + size
  {
  }

  /** Cutting consecutive equal-size pieces back out of a buffer returns those pieces in order. */
  lemma {:induction false} ChunksOfFlatten(a: seq<byte>, parts: seq<seq<byte>>, size: nat, c: seq<byte>)
    requires forall p :: p in parts ==> |p| == size
    ensures Chunks(a + Flatten(parts) + c, |a|, |parts|, size) == Some(parts)
    decreases |parts|
  {
    hide Slice, Chunks, Flatten;
    FlattenCons(parts);
    if parts == [] {
      NoChunks(a + Flatten(parts) + c, |a|, size);
    } else {
      var rest := Flatten(parts[1..]);
      assert parts[0] in parts;
      Regroup(a, parts[0], rest, c);
      SliceOfConcat(a, parts[0], rest + c);
      ChunksOfFlatten(a + parts[0], parts[1..], size, c);
      ChunksCons(a + Flatten(parts) + c, |a|, |parts|, size);
      assert parts == [parts[0]] + parts[1..];
    }
  }

  lemma FlattenCons<T>(parts: seq<seq<T>>)
    ensures Flatten(parts) == if parts == [] then [] else parts[0] + Flatten(parts[1..])
  {
  }

  lemma NoChunks(s: seq<byte>, start: nat, size: nat)
    ensures Chunks(s, start, 0, size) == Some([])
  {
  }

  lemma ChunksCons(s: seq<byte>, start: nat, count: nat, size: nat)
    requires count > 0 && Slice(s, start, size).Some? && Chunks(s, start + size, count - 1, size).Some?
    ensures Chunks(s, start, count, size)
            == Some([Slice(s, start, size).value] + Chunks(s, start + size, count - 1, size).value)
  {
    hide Slice;
  }

  lemma Regroup<T>(a: seq<T>, p: seq<T>, rest: seq<T>, c: seq<T>)
    ensures a + (p + rest) + c == (a + p) + rest + c == a + p + (rest + c)
  {
  }
}
