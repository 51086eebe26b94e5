# StoryTime: a verified model of the NDB layer

StoryTime reads the PST format ([MS-PST]). This project models the tower from raw bytes to node data and proves it end to
end: little-endian fields and cursors, the CRC, the two ciphers, block and page layout, B-tree pages with recursive
loading, backtracking search and collection, lazily loaded data trees with X and XX expansion and the one-read fast path,
nested subnodes, and the NDB object on top.

The main results, from the top down:

* **A file is a map from nodes to data** (`Store.StoreReads`, `Store.ReadBack`, `Store.ReadBackSubNode`). Any set of nodes
  with any payloads, each with subnodes nested to any depth, is written into one file as encoded data blocks, X/XX blocks,
  SL blocks, a block B-tree and a node B-tree. Opening that file and reading any node or subnode gives exactly the payload
  written for it, or nothing if it was not written.
* **Search** (`BTSearch`). The backtracking `get` is, on every loaded tree, a scan of the leaf entries it can reach. With
  distinct keys it misses no key exactly on trees whose inner keys bound the leaf keys from below, and on sorted trees it
  equals descent along a single path.
* **Loading terminates on every reference graph** (`BTPages.LoadedPage`), cycles included, and yields only trees of uniform
  depth.
* **Data trees** (`DataTrees`, `DataTreeTheory`). One read of contiguous blocks equals block-by-block reading, failures
  included; over whole runs of client calls the contents never change; a data block is refused after any change of its
  `cb` data bytes that is confined to four consecutive ones.
* **What is read from where** (`OnDisk`). Every field, code and check of pages, entries, blocks and trees, in absolute
  offsets of the file and literal codes, and exactly when each of them loads, without reference to a writer.
* **CRC** (`Crc*`). Slicing-by-8 with its alignment-dependent split equals the bit-serial reflected CRC on every buffer;
  the CRC is continuable, XOR-linear and detects every burst of up to 32 bits, and 32 is the exact bound.
* **Subnodes** (`SubNodes`, `SubNodeWriter`). Lookup finds a node exactly when some nesting level has it; a nest written to
  any depth is built and read back.
* **Ciphers** (`Cipher`). Word-wise in-place substitution equals a map over the bytes; the cyclic cipher is an involution
  across every wrap-around.

## How to read it

One module per file. The source's classes and in-place algorithms are classes and methods (`ByteView`, `ArrayView`,
`DataTree`, the two ciphers, `ComputeCRC`, `setup`, the page constructor, `get`, `all_`); each is proved against a
function that says what it computes, and the theorems are about these functions.

Conventions:

* A file is an immutable `seq<byte>`. A read that leaves it fails.
* `STORYT_ASSERT`, `optional::value()` on nothing, and `at()` out of range are failures: `None`, or `false` from a method.
* A pointer's alignment is a parameter (`address`); where the allocator decides it, it is arbitrary.
* `DWORD` and `bv32` have 32 bits; identifiers and offsets are `uint64`, fields have the widths of the format; sizes in
  memory (`size_t`) are unbounded naturals.
* Table lookups of `mpbbCrypt` use the literals of the source. The 256 literals of the first CRC table are proved to
  be what the register tabulates; the other seven are defined by the recurrence from one table to the next.
* The order in which a hash map is walked is arbitrary.

## Where the code departs from what it is meant to do

* `DataTree::load` chooses between X and XX by `btype` (`include/NDB.h:747-756`), but both constructors demand `btype` 1
  and differ only in `cLevel` (`include/NDB.h:608-609`, `include/NDB.h:656-657`), as sections 2.2.2.8.3.2.1 and
  2.2.2.8.3.2.2 of [MS-PST] do. So the XX branch can never succeed. The model has both choices (`AsWritten`, `ByLevel`);
  `DataTreeTheory.DispatchAgreesExceptXX` gives the exact difference, and `Writer.WriteThenLoadAsWritten` its
  consequence: payloads come back as written exactly up to 1021 blocks of 8176 bytes.
* The byte count and the identifier that the block B-tree gives a block are compared with its trailer only for the first
  block of a tree (`include/NDB.h:732-739`, `DataTreeTheory.FirstBlockAgrees`). For every other block the count only sizes
  the read, and the identifier is not looked at: `RoundTrip.WrongCountExample` and `RoundTrip.WrongIdentifierExample` are
  blocks that are accepted all the same, and `RoundTrip.WrongCountLoads` and `RoundTrip.WrongIdentifierLoads` whole trees
  that load over them. `DataTreeTheory.CountAgreesIff` and `DataTreeTheory.IdentifierAgreesIff` say exactly when index and
  block agree, in terms of two fields of the file. Of SL blocks nothing is compared, not even for the root of a nest
  (`include/NDB.h:1161-1167`): `SubNodeWriter.WrongSLIndexExample`, and `SubNodes.SLBlockAgreesIff` for the exact
  condition.
* The CRC in a trailer is compared only for the data bytes of data blocks (`include/NDB.h:553-554`). The constructors of X,
  XX and SL blocks (`include/NDB.h:591-611`, `include/NDB.h:639-659`, `include/NDB.h:946-966`) and of pages
  (`include/NDB.h:22-60`) read it and compute none, and the padding of a data block is outside it. So changed identifiers
  (`RoundTrip.AlteredXBlockAccepted`, `RoundTrip.AlteredTreeLoads`), changed SL entries
  (`SubNodeWriter.AlteredSLBlockAccepted`), a wrong page CRC (`PageLayout.WrongPageCrcExample`) and changed padding
  (`DataTreeTheory.PaddingUnchecked`) are accepted. What is checked, exactly: `DataTreeTheory.DataBlockAcceptedIff`,
  `DataTreeTheory.XBlockAcceptedIff`, `SubNodes.SLBlockAcceptedIff`, `PageLayout.ParsedPageIff`.
* `operator>` of `NID` and `BID` holds of equal keys too (`include/core.h:91-95`, `include/core.h:155-159`); the search
  is not affected, since it accepts equal keys anyway.
* `BTPage::verify` compares page types only for the root and its direct children (`include/NDB.h:510-527`) and nothing
  calls it. A tree may therefore mix page types; leaves of the other type are never searched, and `LeafEntries` leaves
  them out of the flat index.

## Model

| member | source | states |
|---|---|---|
| Bytes.Pad | include/utils.h:616-629 | the pushing loop appends exactly the zeros asked for |
| Bytes.ToT | include/utils.h:631-694 | decoding succeeds exactly when there are no more bytes than the type is wide |
| Bytes.ToTIsLittleEndian | include/utils.h:631-694 | `toT_l` is little-endian decoding for widths 1, 2, 4 and 8, unchanged by its own zero padding, and stays in range |
| Bytes.ToTInvertsToLE | include/utils.h:631-694 | `toT_l` reads back every number of its width from its little-endian bytes |
| Bytes.DecodeEncode | include/utils.h:631-694 | base-256 encoding at any width is undone by decoding |
| Bytes.EncodeDecode | include/utils.h:631-694 | and decoding by encoding: a field has one value and a value one field |
| Bytes.FromLEPadded | include/utils.h:616-629 | padding with zeros never changes the decoded value |
| Views.ByteView.constructor | include/utils.h:756-757 | a fresh cursor is at the start of its bytes |
| Views.ByteView.Read | include/utils.h:783-788 | returns the slice at the old cursor and moves the cursor behind it |
| Views.ByteView.ReadInt | include/utils.h:790-797 | a typed read is the field at the old cursor, for every supported width |
| Views.ByteView.Entries | include/utils.h:823-836 | the moving cursor cuts exactly the fixed-offset pieces of equal size and ends behind the last, or fails when one leaves the buffer |
| Views.ByteView.TakeLast | include/utils.h:838-852 | returns the last bytes wherever the cursor stands and ends behind them, or fails when fewer remain |
| Views.ByteView.Skip | include/utils.h:854-858 | moves the cursor and nothing else |
| Views.ByteView.SetStart | include/utils.h:860-864 | puts the cursor at an absolute position |
| Views.ArrayView.To | include/utils.h:878-884 | a typed read from the cached 32 bytes is little-endian decoding at the old cursor |
| Views.ChunksOfFlatten | include/utils.h:823-836 | cutting pieces out of their concatenation gives the pieces back in order, at any offset |
| Views.FieldOfConcat | include/utils.h:783-797 | a field written between any bytes is read back |
| Crc.BitsXor | include/utils.h:1259-1298 | any number of register steps is linear over exclusive or |
| Crc.BitsZero | include/utils.h:1259-1298 | no nonzero difference vanishes by shifting, for any number of steps |
| Crc.FeedWordIsBits | include/utils.h:1259-1298 | message bits fed one at a time equal the whole word added at once |
| CrcLiterals.LiteralsAreTable | include/utils.h:971-1005 | each of the 256 literals is eight register steps of its index |
| CrcSlicing.NextTable | include/utils.h:1007-1257 | one step of the table recurrence adds eight register steps |
| CrcSlicing.Table88 | include/utils.h:1223-1257 | the eighth table takes a byte 64 register steps ahead |
| CrcSlicing.TableStepIsByteStep | include/utils.h:1273-1274 | a table lookup and shift is eight bit steps |
| CrcSlicing.SplitWord | include/utils.h:1278-1290 | a register is the exclusive or of its four bytes, each with fewer steps to go |
| CrcSlicing.EightBytes | include/utils.h:1276-1292 | one turn of the main loop is eight byte steps |
| CrcSlicing.ByTable | include/utils.h:1273-1295 | the head and tail loops advance the reference by their bytes |
| CrcSlicing.Turn | include/utils.h:1276-1292 | two loads and eight lookups advance the reference by eight bytes |
| CrcSlicing.ComputeCRC | include/utils.h:1259-1298 | for every seed, buffer, length and alignment the result is the one-byte-at-a-time CRC |
| CrcTheory.BytewiseIsSerial | include/utils.h:1259-1298 | which is the bit-serial reflected CRC with polynomial 0xEDB88320 |
| CrcTheory.CrcConcat | include/utils.h:1259-1298 | the CRC of a concatenation is the CRC of the second part seeded with that of the first, whatever the splits |
| CrcTheory.CrcXor | include/utils.h:1259-1298 | the CRC is XOR-linear jointly in seed and equal-length message |
| CrcTheory.BurstDetected | include/utils.h:1259-1298 | buffers that differ only within 32 consecutive bits never share a CRC |
| CrcTheory.FourByteBurstDetected | include/NDB.h:553-554 | nor do buffers that differ only within four consecutive bytes |
| CrcTheory.GeneratorUndetected | include/utils.h:1259-1298 | 32 is the exact bound: a certain 33-bit difference is never detected |
| CryptTables.InverseOfR | include/utils.h:1301-1403 | `mpbbI` undoes `mpbbR` on every byte |
| CryptTables.InverseOfI | include/utils.h:1301-1403 | and `mpbbR` undoes `mpbbI` |
| CryptTables.InvolutionS | include/utils.h:1301-1403 | `mpbbS` undoes itself |
| CryptLiterals.TablesAreLiterals | include/utils.h:1301-1403 | the three tables are the one array of the source from its beginning, from 256 on and from 512 on |
| Cipher.PermuteInverse | include/utils.h:1412-1461 | encoding and decoding undo each other in both orders, for every buffer |
| Cipher.PermuteInjective | include/utils.h:1412-1461 | no two buffers are encoded or decoded alike |
| Cipher.DecodesFromR | include/utils.h:1412-1461 | decoding gives the byte that `mpbbR` takes to the byte decoded |
| Cipher.EncodesByR | include/utils.h:1412-1461 | encoding gives the byte that `mpbbI` takes to the byte encoded |
| Cipher.CryptPermute | include/utils.h:1412-1461 | the in-place pass maps the chosen table over each byte exactly once, for every length and alignment; `mpbbR` leads from each decoded byte back to the byte read, `mpbbI` from each encoded one |
| Cipher.PermuteInPlace | include/utils.h:1420-1460 | the head, word and tail loops together rewrite every byte once |
| Cipher.PermuteWord | include/utils.h:1430-1454 | one turn of the word loop rewrites four bytes and no others |
| Cipher.CyclicTwice | include/utils.h:1471-1492 | under tables that undo each other the cyclic cipher is an involution, across wrap-around of key word and bytes |
| Cipher.MpbbInvertible | include/utils.h:1301-1403 | the tables of the source are such tables |
| Cipher.CyclicInvolution | include/utils.h:1471-1492 | so applying it twice with one key and the tables of the source restores every buffer |
| Cipher.CryptCyclic | include/utils.h:1471-1492 | the in-place loop computes that cipher with the 16-bit word folded from the key |
| Cipher.CyclicMeets | include/utils.h:1471-1492 | input and output byte, each under the two halves of the running key word, differ by `mpbbS` alone |
| Cipher.KeyWordHalves | include/utils.h:1476 | the key word is the exclusive or of the two halves of the key |
| Cipher.SignatureHalves | include/utils.h:1494-1498 | a signature is the exclusive or of the two low 16-bit halves of `ib` and the two of `bid` |
| Ids.IndexAndTypeDetermine | include/core.h:171-180 | node index and valid node type together determine the node identifier |
| Ids.SameIndex | include/core.h:176-180 | two nodes share the index exactly when they agree above the low five bits |
| Ids.NodeTypes | include/utils.h:185-233 | the types of the table, code by code, and one invalid type for all others |
| Ids.InternalBit | include/core.h:48-52 | internal identifiers are those with bit 1 set |
| Ids.GreaterOrEqual | include/core.h:155-159 | `operator>` is greater or equal |
| Blocks.AlignedSizeIsLeast | include/NDB.h:774-788 | the size is the least multiple of 64 that holds data and trailer; the padding is below 64 and they never overlap |
| Blocks.CheckedSizeExact | include/NDB.h:784-787 | the assertions pass exactly up to 8176 bytes |
| Blocks.InitTrailer | include/NDB.h:62-93 | the trailer is the last 16 bytes, refused unless its signature is that of the place it was read from |
| Blocks.InitDataBlock | include/NDB.h:539-562 | a data block is accepted and decoded as specified, for every alignment of the copy |
| Blocks.InitXBlock | include/NDB.h:591-611 | an X or XX block is accepted with its fields and identifiers as specified |
| Blocks.ReadXFields | include/NDB.h:598-606 | cursor reads of the fields are reads at their documented offsets |
| DataTrees.AllBlocksConcat | include/NDB.h:865-872 | loading a concatenation loads both parts, and fails exactly when one fails |
| DataTrees.OffsetOf | include/NDB.h:819-832 | in a contiguous list the summed sizes lead to every entry's offset |
| DataTrees.OneReadInRange | include/NDB.h:853-857 | the one big read stays in the file exactly when the read of the last block does |
| DataTrees.OneReadFails | include/NDB.h:853-857 | if the big read fails, block-by-block loading fails too |
| DataTrees.OneReadIsAllReads | include/NDB.h:858-863 | every cut of the big read is what seeking to the entry reads |
| DataTrees.CutIsBlock | include/NDB.h:858-863 | so every turn of the fast path gives the block of its entry |
| DataTrees.DataTree.constructor | include/NDB.h:668-675 | a new tree has loaded nothing |
| DataTrees.DataTree.Load | include/NDB.h:721-769 | succeeds exactly when every check does, leaves exactly the specified blocks, and changes nothing once loaded |
| DataTrees.DataTree.ReadRoot | include/NDB.h:727-739 | the first block passes exactly with its identifier, padding and size in the trailer |
| DataTrees.DataTree.Expand | include/NDB.h:745-761 | the chosen branch appends the specified entries or fails |
| DataTrees.DataTree.XBlockToDataBlocks | include/NDB.h:798-806 | appends the lookup of every identifier in order, and fails when one is missing |
| DataTrees.DataTree.XXBlockToDataBlocks | include/NDB.h:808-817 | appends the entries of every X block in order |
| DataTrees.DataTree.DataBlocksAreStoredContiguously | include/NDB.h:819-832 | answers true exactly for contiguous lists; a refused size means that loading fails anyway |
| DataTrees.DataTree.TotalDataBlockFileBytes | include/NDB.h:834-844 | the sum of the aligned sizes |
| DataTrees.DataTree.Flush | include/NDB.h:846-873 | both paths append the same blocks and fail on the same files |
| DataTrees.DataTree.FlushInOneRead | include/NDB.h:853-864 | the fast path refines reading every block at its own offset |
| DataTrees.DataTree.FlushOneByOne | include/NDB.h:865-872 | the block-by-block path does so too |
| DataTrees.DataTree.NDataBlocks | include/NDB.h:677-681 | the count, refused before loading |
| DataTrees.DataTree.SizeOfDataBlockData | include/NDB.h:683-687 | the size of one block, refused before loading or out of range |
| DataTrees.DataTree.At | include/NDB.h:689-693 | one block, refused before loading or out of range |
| DataTrees.DataTree.CombineDataBlocks | include/NDB.h:695-709 | the nested loops concatenate the data of all blocks in order |
| DataTrees.DataTree.Begin | include/NDB.h:711-715 | loads first, then gives the contents |
| DataTreeTheory.AcceptedBlock | include/NDB.h:539-562 | an accepted block holds `cb` bytes that encode to the bytes on disk, with the CRC and signature of the trailer |
| DataTreeTheory.TrailerOnDisk | include/NDB.h:62-93 | the fields of a trailer at their offsets in the last 16 bytes, accepted if and only if the signature is right |
| DataTreeTheory.CrcIsSerial | include/NDB.h:553-554 | the number compared with the trailer is that of the bit-serial register |
| DataTreeTheory.DataBlockAcceptedIff | include/NDB.h:539-562 | a data block is accepted if and only if bit 1 of its identifier is clear, the signature right, and `cb` bytes are there with the bit-serial CRC of the trailer |
| DataTreeTheory.DataOnDisk | include/NDB.h:539-562 | the data are the `cb` bytes that `mpbbR` takes to the bytes on disk, in order |
| DataTreeTheory.PaddingUnchecked | include/NDB.h:539-562 | what the padding and the identifier in the trailer hold makes no difference to acceptance and data |
| DataTreeTheory.XBlockAcceptedIff | include/NDB.h:591-611 | an X or XX block is accepted if and only if identifier, signature, type, level and count are right; its CRC is not looked at |
| DataTreeTheory.XBlockOnDisk | include/NDB.h:591-611 | the identifiers of an X or XX block are the eight-byte fields from offset 8 on, in order, as many as the count at offset 2 |
| DataTreeTheory.DamageRefused | include/NDB.h:553-554 | an accepted data block is refused after any change of its `cb` data bytes within four consecutive ones |
| DataTreeTheory.BlocksInOrder | include/NDB.h:865-872 | the loaded blocks are those of the entries, one for one and in order |
| DataTreeTheory.CombinedSize | include/NDB.h:695-709 | the combined data is as long as the trailers' counts together |
| DataTreeTheory.IndexCountOnlySizesTheRead | include/NDB.h:865-872 | the count in the index decides nothing but the size of the read |
| DataTreeTheory.CountAgreesIff | include/NDB.h:846-873 | an accepted block is as long as the index says if and only if its trailer in the file says so |
| DataTreeTheory.IdentifierAgreesIff | include/NDB.h:846-873 | and carries the identifier that it is listed under if and only if its trailer in the file does |
| DataTreeTheory.XBlockAgreesIff | include/NDB.h:808-817 | both hold of the X blocks under an XX block as well |
| DataTreeTheory.FirstBlockAgrees | include/NDB.h:732-739 | of a first data block both are guaranteed |
| RoundTrip.WrongCountAccepted | include/NDB.h:865-872 | a wrong count in the index is accepted whenever it rounds up to the same block size |
| RoundTrip.WrongCountExample | include/NDB.h:865-872 | an empty block listed with one byte is accepted, and is empty |
| RoundTrip.WrongIdentifierAccepted | include/NDB.h:539-562 | a block is accepted under the identifier of the index whatever identifier its trailer has |
| RoundTrip.WrongIdentifierExample | include/NDB.h:539-562 | a block that says it is block 8 is accepted as block 4 |
| RoundTrip.WrongCountLoads | include/NDB.h:745-762 | an X block over the block with the wrong count loads all the same |
| RoundTrip.WrongIdentifierLoads | include/NDB.h:745-762 | and so does one over the block with the wrong identifier |
| RoundTrip.OneBlockTree | include/NDB.h:745-762 | an X block with one identifier loads exactly the block that the index leads to |
| RoundTrip.AlteredXBlockAccepted | include/NDB.h:591-611 | an X or XX block with other identifiers than its CRC was computed from is accepted, and the others are read |
| RoundTrip.AlteredTreeLoads | include/NDB.h:745-762 | so a tree with such a root loads the data of other blocks |
| DataTreeTheory.XXExpansionIsFlat | include/NDB.h:808-817 | XX expansion looks up the concatenated identifier lists of its X blocks in order, and fails exactly when one of these or a lookup does |
| DataTreeTheory.DispatchAgreesExceptXX | include/NDB.h:747-756 | choosing by `btype` loads what choosing by level loads, except exactly the XX roots, which it always refuses |
| DataTreeTheory.Perform | include/NDB.h:677-769 | each client call shows what the contents and the loaded state say and keeps the invariant |
| DataTreeTheory.Run | include/NDB.h:677-769 | over every sequence of calls each call shows the same contents from the first load on, and an unloadable tree refuses everything |
| RoundTrip.DataBlockRoundTrip | include/NDB.h:539-562 | a data block written for some place is accepted there and decodes to the data |
| RoundTrip.XBlockRoundTrip | include/NDB.h:591-611 | an X or XX block written for some place gives its identifiers, level and total back |
| RoundTrip.SingleBlockRoundTrip | include/NDB.h:741-744 | data that fits one block is loaded back, for both choices of dispatch |
| RoundTrip.XBlockTreeRoundTrip | include/NDB.h:747-751 | an X block over any pieces, wherever they lie, loads as their concatenation |
| RoundTrip.XXBlockTreeRoundTrip | include/NDB.h:752-756 | an XX block over any X blocks loads as the concatenation of all pieces by level, and not at all by `btype` |
| Writer.SplitCount | include/NDB.h:571-582 | a payload needs at most n parts exactly when it is at most n parts long |
| Writer.Written | include/NDB.h:530-660 | writing keeps all that was there and takes no more room than announced |
| Writer.WriteThenLoad | include/NDB.h:695-769 | every payload up to 1021 times 1021 blocks of 8176 bytes is loaded back, wherever it was written |
| Writer.EveryPayloadReloads | include/NDB.h:695-769 | on an empty disk there is room for every such payload, and it is loaded back |
| Writer.WriteThenLoadAsWritten | include/NDB.h:747-756 | with the dispatch of the source, exactly those that need no XX block |
| BTPages.CachedKeys | include/NDB.h:241-249 | the three cached keys of any entry, on whatever loaded page, are the keys of the decoded entry |
| BTPages.ReadBTEntry | include/NDB.h:171-180 | cursor reads give the fields of an inner entry at their offsets |
| BTPages.ReadBBTEntry | include/NDB.h:182-193 | and of a block entry |
| BTPages.ReadNBTEntry | include/NDB.h:195-205 | and of a node entry |
| BTPages.InitEntry | include/NDB.h:241-249 | an entry is its bytes zero-filled to 32 with its keys cached; longer input is refused |
| BTPages.InitPageTrailer | include/NDB.h:22-60 | a page trailer is accepted exactly with a known, repeated type and, for tree pages, the right signature |
| BTPages.Setup | include/NDB.h:342-364 | skipping, reading and going back gives counts, sizes, level and entries at their offsets, refused exactly as the assertions say |
| BTPages.InitPageWithoutSubPages | include/NDB.h:291-310 | one page, read, checked and parsed |
| BTPages.LoadedPage | include/NDB.h:312-340 | loading ends for every file, cyclic references included, and gives only trees of uniform depth with one sub-page per inner entry |
| BTPages.LoadedSubPages | include/NDB.h:322-330 | the sub-pages match the entries one for one, one level down |
| BTPages.InitPage | include/NDB.h:312-340 | the recursive constructor computes that loading |
| BTSearch.ScanLeaf | include/NDB.h:400-419 | scanning a leaf gives the leftmost entry with the key |
| BTSearch.FirstIsLeftmost | include/NDB.h:400-419 | no entry before the one found has the key |
| BTSearch.GetEntry | include/NDB.h:397-436 | the loops of `get` compute the backtracking search |
| BTSearch.CacheChangesNothing | include/NDB.h:397-436 | on every loaded tree, the search by cached keys is the search that decodes every key it compares |
| BTSearch.FoundDecodes | include/NDB.h:397-436 | what is found on the pages of any file decodes to an entry with the key searched for |
| BTSearch.GetScansReachable | include/NDB.h:397-436 | on every loaded tree, sorted or not, `get` is a scan of the leaf entries that no larger key hides |
| BTSearch.GetIsLeaf | include/NDB.h:397-436 | whatever `get` returns is a leaf entry with the key |
| BTSearch.GetScansLeaves | include/NDB.h:397-436 | on bounded trees it returns the leftmost leaf entry with the key, and nothing exactly when there is none |
| BTSearch.FindsAllIffBounded | include/NDB.h:420-434 | with distinct keys, no key is missed if and only if inner keys bound the leaf keys below them |
| BTSearch.SortedIsBounded | include/NDB.h:420-434 | sorted trees are bounded |
| BTSearch.GetIsDescent | include/NDB.h:420-434 | on sorted trees, trying every child with a key up to the one searched equals descending into the last such child |
| BTSearch.DescentScansLeaves | include/NDB.h:420-434 | and that descent is a scan of all leaves |
| BTCollect.CollectEntries | include/NDB.h:378-390 | the loop over a leaf gathers its matching entries by type, or fails at a duplicate |
| BTCollect.CollectPage | include/NDB.h:373-395 | the recursion gathers over all node leaves, left to right |
| BTCollect.All | include/NDB.h:366-371 | `all` gathers over the whole flat index, exactly |
| BTCollect.AllIsExact | include/NDB.h:366-395 | the duplicate assertion fires exactly when two leaf entries agree with `nid` above the low five bits and have one type; otherwise the map holds precisely the entries that agree with it, each under the low five bits of its identifier |
| BTCollect.NoDuplicates | include/NDB.h:366-395 | so on the leaves of any loaded tree it never fires if the nodes are distinct and their types valid |
| PageLayout.BTEntryRoundTrip | include/NDB.h:171-180 | an inner entry, with any padding up to 32 bytes, is decoded back with its key cached |
| PageLayout.BBTEntryRoundTrip | include/NDB.h:182-193 | a block entry too |
| PageLayout.NBTEntryRoundTrip | include/NDB.h:195-205 | a node entry too |
| PageLayout.PageRoundTrip | include/NDB.h:342-364 | every page that fits is parsed back with its trailer, counts, level and entries |
| PageLayout.ParsedPageIff | include/NDB.h:342-364 | a page is parsed if and only if type, counts, entry size, padding and level are right; its CRC is not looked at |
| PageLayout.WrongPageCrcAccepted | include/NDB.h:22-60 | a page with any wrong CRC is read with whatever entries it has |
| PageLayout.WrongPageCrcExample | include/NDB.h:22-60 | an empty page with its CRC plus one is accepted |
| OnDisk.PageTrailerOnDisk | include/NDB.h:22-60 | a page trailer is accepted if and only if its type is 0x80 to 0x86, twice, and for 0x80 and 0x81 the signature is right; its fields at their offsets |
| OnDisk.PageOnDisk | include/NDB.h:342-364 | counts, size, level and type of a page are the bytes at 488 to 491 and 496 |
| OnDisk.EntryOnDisk | include/NDB.h:342-364 | entry i holds the bytes at i times the entry size, zero-filled to 32 |
| OnDisk.BTEntryOnDisk | include/NDB.h:171-180 | key, identifier and offset of an inner entry are the file's fields at 0, 8 and 16 |
| OnDisk.BBTEntryOnDisk | include/NDB.h:182-193 | the fields of a block entry are the file's at 0, 8, 16, 18 and 20 |
| OnDisk.NBTEntryOnDisk | include/NDB.h:195-205 | the fields of a node entry are the file's at 0 (four bytes), 8, 16, 24 and 28 |
| OnDisk.LeafKind | include/NDB.h:443-466 | a leaf holds nodes if and only if the type byte in the file is 0x81, blocks if and only if it is 0x80 |
| OnDisk.LeafSearch | include/NDB.h:397-419 | searching a node scans a leaf of type 0x81 and finds nothing in one of 0x80; for a block, the reverse |
| OnDisk.SubPageOnDisk | include/NDB.h:322-330 | sub-page i is the page that the fields at 8 and 16 of entry i lead to |
| OnDisk.LoadedPageIff | include/NDB.h:312-340 | a page loads if and only if it is accepted and is a leaf, or every page below it loads |
| OnDisk.RootOnDisk | include/NDB.h:727-739 | the first block passes if and only if it has at most 8176 bytes and signature, size and identifier in its trailer |
| OnDisk.BlockOnDisk | include/NDB.h:539-562 | the data of a block are what `mpbbR` takes to the bytes at the offset of its entry |
| OnDisk.BlockLoadsIff | include/NDB.h:865-872 | a block loads if and only if its count is at most 8176, it lies in the file and is accepted there |
| OnDisk.DataRootLoads | include/NDB.h:741-744 | a tree with an external root is that one block |
| OnDisk.XTreeOnDisk | include/NDB.h:747-751 | block i of a tree under an X block is the one whose identifier is at 8 + 8 i of the root |
| OnDisk.XTreeLoadsIff | include/NDB.h:745-762 | such a tree loads if and only if the root is accepted and every identifier leads to a block that loads; an empty list is no failure |
| OnDisk.XXTreeOnDisk | include/NDB.h:752-756 | read by level, an XX block gives the blocks of the concatenated lists of its X blocks, if all load |
| OnDisk.OpensIff | include/NDB.h:1183-1227 | a file opens if and only if both trees load and nodes 0x21, 0x61 and 0x122 are found |
| OnDisk.SLBlockOnDisk | include/NDB.h:897-966 | entry i of an SL block is at 8 + 24 i: identifier in four of eight bytes, data, subnodes |
| OnDisk.SLEntriesOnDisk | include/NDB.h:1016-1028 | read at the offset that the index gives |
| OnDisk.SLEntriesIff | include/NDB.h:1016-1028 | an SL block is read if and only if the index resolves it, it lies in the file and is accepted there |
| BTWriter.AppendedPageReads | include/NDB.h:291-310 | a page appended to a file is read back from every extension of it |
| BTWriter.SplitIsGood | include/NDB.h:258-286 | entries split over children stay sorted, in order, and none is lost |
| BTWriter.PageSorted | include/NDB.h:420-434 | a page that lists the first key of each child in order is sorted |
| BTWriter.InnerLoads | include/NDB.h:312-340 | an inner page over children that load is loaded as their concatenation |
| BTWriter.TreeLoads | include/NDB.h:312-364 | a tree written for any sorted entries, at any level that holds them, loads as a sorted tree with exactly these leaf entries in order |
| SubNodes.BlockSizesAgree | include/NDB.h:1104-1114 | the two copies of the size function agree up to 8176 bytes; beyond, the first stops and the second goes on |
| SubNodes.SLBlockAcceptedIff | include/NDB.h:946-966 | an SL block is accepted if and only if identifier, signature, type, level and count are right; its CRC is not looked at |
| SubNodes.SLBlockAgreesIff | include/NDB.h:1161-1167 | index and trailer of an accepted SL block agree on count and identifier if and only if two fields of the file say so |
| SubNodes.InitSLEntry | include/NDB.h:897-904 | cursor reads give the fields at their offsets, the identifier from the low half of its eight bytes |
| SubNodes.ReadSLFields | include/NDB.h:953-961 | cursor reads of the block fields are reads at their documented offsets |
| SubNodes.InitSLBlock | include/NDB.h:946-966 | an SL block is accepted with its entries as specified |
| SubNodes.ReadSLEntries | include/NDB.h:1016-1028 | the block of an identifier is read and its level byte looked at; the SL branch is followed as specified |
| SubNodes.InitSubNodeBTree | include/NDB.h:1012-1063 | the constructor's loops build the specified nest, or fail where it does |
| SubNodes.BuildsIff | include/NDB.h:1032-1062 | the loop comes through if and only if every nested tree does and no entry repeats the identifier of one that left a trace; unresolved data is no failure |
| SubNodes.BuiltIff | include/NDB.h:1012-1063 | so does the constructor, if the identifier is zero or its SL block is accepted |
| SubNodes.BuiltIsExact | include/NDB.h:1032-1062 | at every path the nest holds exactly what the SL blocks hold there and the index resolves |
| SubNodes.GetDataTree | include/NDB.h:1065-1080 | whatever the order of the map: nothing exactly when the nest has no entry for the node; else the load of the tree's own entry if it has one, or of some subtree's |
| SubNodes.LoadDataTree | include/NDB.h:1067-1070 | a data tree that is found is loaded on the spot |
| SubNodes.AnswerOccurs | include/NDB.h:1065-1080 | every answer occurs in the nest |
| SubNodes.OccurrenceAnswers | include/NDB.h:1065-1080 | whatever occurs in the nest is answered |
| SubNodes.OrderIndependent | include/NDB.h:1071-1078 | a node that occurs once in the nest has one answer, so the order of the map does not matter |
| SubNodes.FoundIffNested | include/NDB.h:1032-1080 | a node is found exactly when some nesting level has an entry for it with a data block that the index resolves |
| SubNodes.AcyclicFinishes | include/NDB.h:1012-1063 | below a root without cycles, any nesting depth above its rank suffices for the constructor, with the same outcome |
| SubNodes.CycleNeverFinishes | include/NDB.h:1012-1063 | a block whose first entry nests the block itself exhausts every nesting depth |
| SubNodeWriter.SLEntryRoundTrip | include/NDB.h:897-904 | a written SL entry is read back |
| SubNodeWriter.SLBlockRoundTrip | include/NDB.h:946-966 | an SL block written for some place is accepted there and gives its entries back |
| SubNodeWriter.AlteredSLBlockAccepted | include/NDB.h:946-966 | an SL block with other entries than its CRC was computed from is accepted, and the others are read |
| SubNodeWriter.WrongSLIndexAccepted | include/NDB.h:1161-1167 | any count of the same rounded size in the index and any identifier in the trailer of an SL block are accepted |
| SubNodeWriter.WrongSLIndexExample | include/NDB.h:1161-1167 | a block of 32 bytes that says it is block 6 is read as block 2 of 33 bytes |
| SubNodeWriter.BlocksHeld | include/NDB.h:1012-1050 | the SL blocks of a written nest are all read back, each referring only to blocks written before it |
| SubNodeWriter.NestBuilds | include/NDB.h:1012-1063 | building from a written nest, nested to any depth, succeeds and gives the nest that was written |
| SubNodeWriter.OccurrenceMirrors | include/NDB.h:1065-1080 | what is found at any path is the data of the subnode at that path |
| SubNodeWriter.NodeOccurs | include/NDB.h:1065-1080 | and every subnode at any path is found there |
| SubNodeWriter.FindSubNode | include/NDB.h:1065-1080 | `getDataTree` on a tree that mirrors a nest gives the data written for the node, the first level's if it has one, and nothing exactly for nodes that the nest does not have |
| SubNodeWriter.ReadBackSubNode | include/NDB.h:1012-1080 | the constructor and `getDataTree`, on a written nest, give exactly that |
| SubNodeWriter.NestExample | include/NDB.h:1012-1080 | such nests exist, with subnodes of subnodes |
| Ndb.InitDataTree | include/NDB.h:1229-1237 | a data tree whose index is the block B-tree of the file |
| Ndb.InitSubNodeBTree | include/NDB.h:1239-1246 | a subnode tree whose index is the block B-tree of the file |
| Ndb.InitNDB | include/NDB.h:1183-1227 | opens exactly when both trees load and the three nodes of every store are found |
| Ndb.ReadNode | include/NDB.h:1201-1237 | two searches, a load and a concatenation give the data of the node as specified |
| Ndb.TreeLookupIsFlat | include/NDB.h:1201-1216 | on a bounded block tree, lookup through the pages is lookup in the flat index |
| Ndb.LoadStable | include/NDB.h:721-769 | a tree that loads, loads the same from every extension of the file under every richer index |
| Payloads.PayloadReadable | include/NDB.h:695-769 | a payload stays readable whatever is written after it and whatever else is listed |
| Payloads.RefusalStable | include/NDB.h:747-756 | a tree refused for its XX root stays refused |
| Store.BlockTreeIsIndex | include/NDB.h:397-436 | searching a loaded block tree that lists an index answers every lookup as the index does |
| Store.NodesHeld | include/NDB.h:695-1080 | every written node is held: its data under one identifier, under the other a nest that builds and mirrors its subnodes |
| Store.TreesLoad | include/NDB.h:1183-1194 | both trees of a written store load and list what was written |
| Store.NodeFound | include/NDB.h:1201-1216 | a node is found exactly when it was written, with the identifiers of its root block and of its subnodes |
| Store.StoreOpens | include/NDB.h:1183-1227 | a written store opens exactly when it has the three required nodes |
| Store.StoreHolds | include/NDB.h:1183-1246 | an open store holds exactly the nodes written, and its SL blocks form no cycle |
| Store.StoreReads | include/NDB.h:695-769 | such a store opens, and reading any node gives exactly its data, and nothing for other nodes; only XX roots are refused, and only as written |
| Store.ReadBack | include/NDB.h:1183-1237 | the constructors, searches and loops of the source, on a written file, give exactly that |
| Store.ReadBackSubNode | include/NDB.h:1012-1246 | opening a written store, `get`, `InitSubNodeBTree` and `getDataTree` give the data written for a subnode of a node, and nothing exactly for subnodes it does not have |
| Store.SmallestStore | include/NDB.h:1218-1227 | such stores exist |

## Left out

- SubNodes.ReadSLEntries: refuses level byte 1, where the source goes on to expand an SI block
  (`include/NDB.h:1125-1159`): the sizes there come from `ib` where `cb` is meant and the position of the read is ignored,
  so there is no meaning to preserve.
- Views.ByteView.TakeLast: refuses a cursor beyond the end, where the unsigned subtraction of the source wraps and the last
  bytes are still returned; every caller takes the last bytes of a fresh view.
- SubNodes.InitSubNodeBTree: builds the nest as a value, so sharing and in-place loading of nested trees is not captured;
  it refuses SI blocks like SubNodes.ReadSLEntries, and assumes that the SL blocks below its root form no cycle: on a
  cycle the source does not return (`SubNodes.CycleNeverFinishes`).
- Store.StoreReads: speaks of stores with room for fewer than 2^36 blocks, where every group of up to 1021 data blocks is
  counted with a full X block and every node with an SL block, so that every offset and identifier fits its 64 bits.
- BTPages.InitPage: pages and entries are values, built field by field by the methods that stand for their constructors;
  the source never changes them afterwards, so nothing is lost but their identity.
- The literals of the seven derived CRC tables (`include/utils.h:1007-1257`): given by the recurrence between tables.
- Bytes.ToT: the three-byte width, which no type has, and the bit operators, whose operands occupy disjoint bits here and
  are added instead.
- Streams: positions, end of file and short reads, which leave zero bytes in the source's buffer and fail here.
- Continuing after a failed assertion, as a release build does.
- `ByteView::split` and `UTF16BytesToString`: small, and used only above this layer.
- BTPages.InitEntry: refuses entries longer than 32 bytes, where the source copies past the end of its fixed array; such an
  entry size is outside the format.
- Pages and trailers constructed without a file or a reference; the source never does so in this layer.
- `include/pst_reader.h`, the header and `Root` fields: fixed-offset checks; the two root references are parameters.
- `include/Messaging.h` and the layer below it: `LTP.h` is not part of this model.
- Names of enumerators, property types and logging.
