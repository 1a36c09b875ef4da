# Verified model of the SuperDB storage engine

A Dafny 4.11 model of SuperDB, a small relational database, with proofs of what its
layers promise. `dafny verify dfyconfig.toml` checks all of it.

The index comes in two levels. `BTreeModel` to `BTreeCrash` speak of a tree of decoded
nodes held by a file of pages, and of an insert as the list of page writes it makes, in
order. `BPlusTreeFile.BPlusTree` is the same index as an object over raw byte pages; each
of its methods is proved to make exactly the model's writes, and its pages to be the old
ones with the raw writes it logged replayed. `IndexCrash` carries the theorems about crash
prefixes over to prefixes of those raw writes. Keys are compared as integers:
`KeyCodec.Rank` gives the integer a key slot stands for, and comparing slots is proved to
be comparing those.

The heap comes the same way: `HeapModel` is a heap of slots and the page writes of its
operations, `PageLayout` says when the bytes of a page show a list of slots,
`SlottedPage.Page` changes such a buffer in place, and `HeapFileStore.HeapFile` runs on raw
pages. `StorageEngine.Engine` composes a heap file and an index for one table. It counts
an index as *tracked* while there was no update or delete since it was built, and as
*complete* while also every insert returned normally.

On the SQL side, `SqlLexer` and `SqlParser` read statements; `SqlWords` says how tokens are
written, and the lexer is proved to read exactly that. `SqlPrinter`, `SqlPrecedence` and
`SqlStatements` write statements and prove that reading undoes writing; `SqlGrammar` is the
grammar as a relation, `SqlCompleteness` proves that the parser accepts exactly what it
derives, and `SqlText` brings this to texts. `Evaluate` has the WHERE semantics, `Grouping`
grouping and aggregates, `Executor` and `GroupExecutor` the row pipeline, `Planner` name
binding and `Binding` which statements it accepts, and `SelectMeaning` and
`GroupedMeaning` the meaning of a plain and of a grouped SELECT said over rows of its
tables, which the bound plan is proved to yield.

Orders, sizes and limits are said once more where results are stated, without the functions
that compute them: `TextOrder` has code-point order and UTF-8 sizes, `Formats` the position
of every field on disk, `Evaluate.Less` and `Grouping.AtMost` the orders of SQL values.

Where the code and its documentation differ the model follows the code:

- The heap relocates an updated record whenever its length changes, not only when it grows.
- AND and OR coerce unknown to false. `Evaluate` gives the standard's value of every
  type-correct predicate and says exactly when that does no harm (`LogicExact`,
  `ComparisonExact`, `WhereIsThreeValued`); `LogicAsOperandDiffers` is an input where it
  does.
- A qualified name in a query over one table binds but cannot be evaluated
  (`QualifiedNameFails`, `QualifiedNameBinds`), so `PlanMeansSelect` asks for bare names
  there (`SelectMeaning.Intended`).
- A grouped SELECT may list its group column twice, bare and qualified; it binds, and then
  no group has an output row (`GroupedIsBound`, `GroupColumnTwice`).
- The parser is said to raise nothing but parse errors; numbers too long for `int`, and
  digits outside ASCII, raise a ValueError in it.

## Model

| member | source | states |
|---|---|---|
| BTreeMap.InsertRefinesMap | src/superdb/index/bplustree.py:267-399 | Inserting into an ordered subtree of any height: a present key is refused; otherwise the outcome, split or not, is ordered again with equal leaf depth and half-open ranges, and finds the old map plus the new binding, nothing else |
| BTreeMap.InsertAtRootRefinesMap | src/superdb/index/bplustree.py:237-265 | The same for a whole tree; it is one level higher afterwards exactly when the root split |
| BTreeMap.LeafRefines | src/superdb/index/bplustree.py:293-345 | A leaf insert, with or without a copy-up split, adds exactly one binding or refuses a present key |
| BTreeMap.InnerRefines | src/superdb/index/bplustree.py:347-399 | Linking a split child into an internal node, with or without a push-up split, changes no binding and keeps the order |
| BTreeMap.LowerBoundDecides | src/superdb/index/bplustree.py:309-318 | The insert position is the key itself exactly when the leaf holds the key |
| BTreeModel.ChildIndexRange | src/superdb/index/bplustree.py:178-183 | The child chosen for a key is the one whose half-open separator range holds it |
| BTreePages.InsertWrites | src/superdb/index/bplustree.py:267-399 | Replaying the page writes of an insert on the file gives a file that holds the outcome, and leaves every page off the path as it was |
| BTreePages.InsertUses | src/superdb/index/bplustree.py:267-399 | Page conservation of one insert: every page of the old tree and every page appended is a node of the outcome exactly once |
| BTreePages.InsertAllocates | src/superdb/index/bplustree.py:158-160 | The new pages of an insert are handed out one after the other from the page count on, each written once, also when several levels split |
| BTreePages.RootAllocates | src/superdb/index/bplustree.py:237-265 | The same for a whole insert: a new root comes last and the header is no new page |
| BTreePages.Frame | src/superdb/index/bplustree.py:147-156 | A write to a page a subtree does not use leaves that subtree held by the file |
| BTreeChain.InsertLeaves | src/superdb/index/bplustree.py:332-345 | An insert changes the leaf sequence in one place: one leaf becomes one or two, all others and their order stay |
| BTreeChain.LinkedIsChain | src/superdb/index/bplustree.py:332-345 | Leaves whose next links follow their order are exactly what the walk from the first one meets |
| BTreeChain.ChainUnique | src/superdb/index/bplustree.py:332-345 | The walk along next links from a page meets one list of leaves only |
| BTreeChain.BindingsSorted | src/superdb/index/bplustree.py:332-345 | The entries of the leaves, in order, have strictly increasing keys |
| BTreeChain.BindingsAreLookup | src/superdb/index/bplustree.py:201-235 | The entries of the leaves are exactly the bindings search finds |
| BTreeShape.InsertFilled | src/superdb/index/bplustree.py:334-393 | Occupancy: an insert keeps every node but the root at least half full and none overfull, also when an internal node may hold only one key |
| BTreeShape.InsertAtRootFilled | src/superdb/index/bplustree.py:255-265 | The same for the whole tree |
| BTreeShape.HeightBound | src/superdb/index/bplustree.py:334-393 | A tree of h + 1 levels holds at least 2 * (floor(m/2) + 1)^(h - 1) * floor((M + 1)/2) entries |
| BTreeShape.LeafSplits | src/superdb/index/bplustree.py:293-345 | A leaf insert puts the entry among the others; past the fanout the lower half, rounded down, stays, the rest goes to the next new page, written first and linked behind, and its first key is copied up |
| BTreeShape.InnerSplits | src/superdb/index/bplustree.py:347-399 | An internal insert puts separator and child behind the child that split; past the fanout the lower half of the keys stays, the next one is pushed up, the rest goes to the next new page, written first |
| BTreeShape.RootSplits | src/superdb/index/bplustree.py:255-265 | A split root gets a new root of one separator on the next new page, and the header is written last |
| BTreeFile.EmptyIsTreeFile | src/superdb/index/bplustree.py:106-115 | The two pages create writes are an index file: header, and page 1 as root and leftmost leaf |
| BTreeFile.InsertConserves | src/superdb/index/bplustree.py:237-265 | After an insert returns, pages 1 and on are exactly the nodes the header reaches, each once, and the header names the root |
| BTreeFile.CompletedInsert | src/superdb/index/bplustree.py:237-265 | The main result for a file: an insert is refused exactly for a present key; otherwise the file satisfies the whole invariant again (order, depth, occupancy, conservation, chain from page 1) and search sees the old map plus the binding |
| BTreeFile.ChainListsBindings | src/superdb/index/bplustree.py:332-345 | Between inserts the chain from page 1 lists every binding once, in strictly increasing key order |
| BTreeFile.HeightBelowPages | src/superdb/index/bplustree.py:158-160 | A tree has fewer levels than its file has pages |
| BTreeFile.InsertGrowth | src/superdb/index/bplustree.py:267-291 | An insert appends at most one page a level |
| BTreeFile.RunIsFirstInsert | src/superdb/index/bplustree.py:201-265 | After any run of inserts search finds for every key the row id of its first insert |
| BTreeCrash.CrashPrefix | src/superdb/index/bplustree.py:254-265 | After any prefix of the page writes of an insert the header reaches an ordered tree of equal depth; search is unchanged before the first write to an existing page, and later is the outcome short of one key range, which sits complete on disk in an unlinked subtree |
| BTreeCrash.CrashBelow | src/superdb/index/bplustree.py:341-399 | The same below the root, at every level at once |
| BTreeCrash.CrashChain | src/superdb/index/bplustree.py:341-345 | After any prefix of the page writes the chain from page 1 lists exactly the old or exactly the new leaves |
| BPlusTreeFile.BPlusTree.Create | src/superdb/index/bplustree.py:84-120 | Create succeeds exactly when the cap is at most 65535, the column name takes at most 255 bytes in UTF-8 and 19 bytes and the name fit a page; it writes header and leaf in that order and leaves an index file whose map is empty |
| BPlusTreeFile.BPlusTree.ChildIndex | src/superdb/index/bplustree.py:178-183 | The comparison loop over encoded separators picks the child the model picks |
| BPlusTreeFile.BPlusTree.SearchRecursive | src/superdb/index/bplustree.py:214-235 | Descending raw pages finds what the tree binds |
| BPlusTreeFile.BPlusTree.FindInLeaf | src/superdb/index/bplustree.py:227-232 | Scanning a leaf for equal bytes finds what the model finds for the rank of the key |
| BPlusTreeFile.BPlusTree.Search | src/superdb/index/bplustree.py:201-212 | Search on raw pages returns the row id the tree binds the key to, or key not found; an INT index answers so for every int32, bound as the number it is, a TEXT index for every text of at most cap bytes, and any other key raises the error of its encoding |
| BPlusTreeFile.BPlusTree.InsertPosition | src/superdb/index/bplustree.py:309-318 | The scan over encoded entries finds the insert position and whether the key is there |
| BPlusTreeFile.BPlusTree.LeafInsert | src/superdb/index/bplustree.py:293-345 | On raw pages a leaf insert makes exactly the model writes, in its order; a duplicate raises and writes nothing |
| BPlusTreeFile.BPlusTree.InnerInsert | src/superdb/index/bplustree.py:347-399 | On raw pages linking a split child makes exactly the model writes, in its order |
| BPlusTreeFile.BPlusTree.InsertRecursive | src/superdb/index/bplustree.py:267-291 | The recursion on raw pages terminates and does what the model insertion does, write for write |
| BPlusTreeFile.BPlusTree.GrowRoot | src/superdb/index/bplustree.py:255-265 | A root split writes the new root page, then the header last |
| BPlusTreeFile.BPlusTree.Insert | src/superdb/index/bplustree.py:237-265 | Insert on raw pages keeps the whole file invariant; a null, a key that is no int32 or no text of at most cap bytes, and a present key raise and change nothing, any other adds its binding, for an INT index under the number itself: the new pages are the old ones with the logged raw writes replayed, and those are the model writes |
| BPlusTreeFile.BPlusTree.WriteNode | src/superdb/index/bplustree.py:147-156 | Every node insert writes fits its page and is read back as the node written |
| BPlusTreeFile.ReplayView | src/superdb/index/bplustree.py:147-156 | Replaying raw page writes on an index file shows the decoded writes replayed on what the file shows |
| IndexCrash.CrashPrefix | src/superdb/index/bplustree.py:254-265 | The crash theorem for raw bytes: after any prefix of the raw writes an insert logged, the file decodes to a header and an ordered tree short of at most one key range, which sits complete in an unlinked subtree; after the last one it is the file insert leaves and nothing is lost |
| IndexCrash.CrashChain | src/superdb/index/bplustree.py:341-345 | After any prefix of the raw writes the chain from page 1 lists exactly the old or exactly the new leaves |
| NodeLayout.NodeRoundTrip | src/superdb/index/node_layout.py:276-475 | Decoding an encoded node gives the node back, for leaves and internal nodes and both key types |
| NodeLayout.HeaderRoundTrip | src/superdb/index/node_layout.py:202-268 | Decoding an encoded header gives the header back |
| NodeLayout.HeaderReads | src/superdb/index/node_layout.py:235-268 | Any bytes are a header exactly when they start with the magic and version 1 and the column name behind its length is UTF-8 inside them; else a storage error |
| NodeLayout.HeaderFits | src/superdb/index/node_layout.py:202-232 | A header that was read can be written again with any other root page id |
| NodeLayout.HeaderEncodes | src/superdb/index/node_layout.py:202-232 | A header is written exactly when its numbers fit their fields and its column name one length byte and the page |
| NodeLayout.FanoutFits | src/superdb/index/node_layout.py:160-194 | A node within the fanout formulas fits its page |
| NodeLayout.LeafFitMeansInnerFit | src/superdb/index/node_layout.py:160-182 | If one leaf entry fits a page, one separator does |
| NodeLayout.FanoutIsU16 | src/superdb/index/node_layout.py:160-182 | No node within the fanout overflows its u16 entry count |
| Formats.LeafFanout | src/superdb/index/node_layout.py:160-182 | The fanout is exact: a leaf of n entries fits its page exactly when n is within it |
| Formats.InnerFanout | src/superdb/index/node_layout.py:160-194 | The same for the keys of an internal page |
| Formats.LeafPage | src/superdb/index/node_layout.py:276-323 | Where every field of a leaf page lies: type 0, entry count, next leaf, and entry i with its key slot and row id |
| Formats.InnerPage | src/superdb/index/node_layout.py:359-417 | Where every field of an internal page lies: type 1, key count, first child, and key i with the child right of it |
| Formats.HeaderPage | src/superdb/index/node_layout.py:202-232 | Where every field of the header page lies: magic, version 1, tag, key type, cap, root and column name |
| NodeLayout.EncodeNode | src/superdb/index/node_layout.py:344-356 | The dispatcher and its loops produce exactly the page bytes of the node, or a storage error when it does not fit |
| NodeLayout.EncodeLeaf | src/superdb/index/node_layout.py:276-323 | Filling the page buffer entry by entry gives the leaf page, zero-padded |
| NodeLayout.EncodeInner | src/superdb/index/node_layout.py:359-417 | Filling the page buffer pair by pair gives the internal page, zero-padded |
| NodeLayout.ReadNode | src/superdb/index/node_layout.py:459-475 | The decoding loops compute the decoding function on any bytes, with an error for a bad type or a count that runs past the page |
| NodeLayout.ReadLeaf | src/superdb/index/node_layout.py:291-341 | The leaf decoding loop, on any bytes |
| NodeLayout.ReadInner | src/superdb/index/node_layout.py:378-439 | The internal decoding loop, on any bytes |
| IndexPages.DecodedPackable | src/superdb/index/node_layout.py:291-439 | Whatever decodes can be encoded again |
| KeyCodec.CompareIsRank | src/superdb/index/node_layout.py:135-152 | Comparing two encoded keys is comparing two integers, and zero means equal bytes, padding and embedded NULs included |
| KeyCodec.EncodesKeys | src/superdb/index/node_layout.py:110-132 | A key encodes exactly when it is a number from -2147483648 to 2147483647 in an INT index, or a text of at most cap bytes in UTF-8 in a TEXT index; what else each raises |
| KeyCodec.IntSlot | src/superdb/index/node_layout.py:110-118 | An INT slot is the two's complement of the number in four bytes, least significant first |
| KeyCodec.IntKeyRank | src/superdb/index/node_layout.py:110-139 | An INT key compares as the number it is |
| KeyCodec.TextKeyRank | src/superdb/index/node_layout.py:121-152 | TEXT keys compare as the texts do, by the first character in which they differ |
| KeyCodec.IntKeyOrder | src/superdb/index/node_layout.py:110-139 | All int32 keys encode, and compare as signed integers |
| KeyCodec.TextKeyOrder | src/superdb/index/node_layout.py:121-152 | All texts of at most cap bytes encode, and compare in code-point order: by the first character in which they differ, or a prefix first |
| KeyCodec.EncodeKeyInjective | src/superdb/index/node_layout.py:110-132 | Two keys have the same bytes exactly when they are the same key |
| KeyCodec.KeyRankInjective | src/superdb/index/node_layout.py:110-152 | The same for the integers keys compare as |
| KeyCodec.EncodedIsCanonical | src/superdb/index/node_layout.py:110-132 | Every encoded key has the full slot width and zeroed padding |
| Utf8.EncodeOrder | src/superdb/index/node_layout.py:121-132 | UTF-8 bytes sort as code points (section 1 of RFC 3629) |
| TextOrder.CompareIsLess | src/superdb/index/node_layout.py:121-152 | Comparing code points is comparing texts by the first character in which they differ |
| TextOrder.SizeOfEncoding | src/superdb/index/node_layout.py:121-132 | A character takes one to four bytes in UTF-8 by its code point (section 3 of RFC 3629) |
| Utf8.DecodeEncode | src/superdb/storage/tuple_codec.py:61-103 | Strict UTF-8 decoding undoes encoding (section 3 of RFC 3629) |
| Utf8.EncodeDecode | src/superdb/storage/tuple_codec.py:100-103 | Bytes that decode are the encoding of what they decode to: no overlong forms, no surrogates |
| PageLayout.PageTiles | src/superdb/storage/page.py:20-77 | On every page built by new, insert, tombstone and overwrite: free_start is 8 + 6 * slot_count, at most free_end; each record ends where the one before it starts, the first at the page end, the last starts at free_end; all parts sum to page_size |
| Formats.HeapPage | src/superdb/storage/page.py:20-77 | Where every field of a heap page lies: version 1, slot count, free start and free end, and entry i with offset, length and live flag; records lie from the page end down |
| PageLayout.ShowsOne | src/superdb/storage/page.py:79-93 | The bytes of a page determine its slots |
| PageLayout.ReadsSlots | src/superdb/storage/page.py:79-93 | Slots read back what was inserted, with the live flag; other slot ids are errors |
| PageLayout.NewShows | src/superdb/storage/page.py:20-26 | A new page has no slots |
| PageLayout.InsertShows | src/superdb/storage/page.py:65-77 | The three writes of insert_tuple add one live slot with the record and change no other |
| PageLayout.TombstoneShows | src/superdb/storage/page.py:95-99 | Rewriting a directory entry kills that slot and changes no other, nor any record |
| PageLayout.OverwriteShows | src/superdb/storage/page.py:101-115 | Overwriting in place changes that record and nothing else |
| SlottedPage.Page.New | src/superdb/storage/page.py:20-26 | Refuses page sizes outside (8, 65535]; otherwise an empty page |
| SlottedPage.Page.FromBytes | src/superdb/storage/page.py:28-34 | Refuses bytes of another length; otherwise a copy of them |
| SlottedPage.Page.CanFit | src/superdb/storage/page.py:62-63 | Free space suffices exactly when record and entry fit the page beside what is there |
| SlottedPage.Page.InsertTuple | src/superdb/storage/page.py:65-77 | On any bytes: page full exactly when the free space the header gives is too small, a storage error when that space leaves the page or the slot count cannot be raised, otherwise the three writes; on a page that shows slots it appends a live slot and returns its id, or raises page full exactly when it does not fit |
| SlottedPage.Page.GetSlot | src/superdb/storage/page.py:79-84 | On any bytes: the directory entry, or a storage error for a slot id out of range |
| SlottedPage.Page.GetTuple | src/superdb/storage/page.py:86-90 | On any bytes: the record, or a storage error when offset or length leave the page |
| SlottedPage.Page.IsLive | src/superdb/storage/page.py:92-93 | The live flag of a slot that is there |
| SlottedPage.Page.TombstoneSlot | src/superdb/storage/page.py:95-99 | On any bytes: rewrites the directory entry of a slot that is there without its live flag, refuses any other; on a page that shows slots that kills this slot and no other |
| SlottedPage.Page.OverwriteTuple | src/superdb/storage/page.py:101-115 | On any bytes: writes a record of the same length over one inside the page, refuses any other; on a page that shows slots that changes this record and no other |
| SlottedPage.Page.LiveSlots | src/superdb/storage/page.py:117-123 | The loop lists exactly the live slots in increasing order, and on any bytes only slots that can be read |
| HeapModel.InsertKeeps | src/superdb/storage/heap_file.py:53-77 | An insert hands out a row id never handed out before, after all others, and every other row reads as before |
| HeapModel.InsertPlace | src/superdb/storage/heap_file.py:53-77 | The row id an insert returns: the next slot of the last page when 8 bytes, six a slot, its records and the new one fit the page size, else slot 0 of a new page; page full exactly when 14 bytes and the record exceed a page; all else stays |
| HeapModel.UpdatePlace | src/superdb/storage/heap_file.py:119-149 | An update keeps its row id exactly when the length stays, else returns where an insert puts the record and leaves the old slot dead; a row id that is not live is record not found |
| HeapModel.DeletePlace | src/superdb/storage/heap_file.py:111-117 | A delete kills its slot and nothing else, and raises record not found for a row id that is not live |
| HeapModel.AfterGet | src/superdb/storage/heap_file.py:53-149 | What get returns for any row id after any operation |
| HeapModel.RaisingChangesNothing | src/superdb/storage/heap_file.py:53-149 | An operation that raises leaves the heap as it was, an update whose larger record fits no page included |
| HeapModel.UpdateCrash | src/superdb/storage/heap_file.py:119-149 | After any prefix of the writes of an update the record is live as the old bytes at the old row id or as the new bytes at the returned one, and every other row id reads as before |
| HeapModel.RelocationSteps | src/superdb/storage/heap_file.py:138-149 | Relocation inserts first, then tombstones, also within one page |
| HeapModel.AfterFits | src/superdb/storage/heap_file.py:53-77 | Every page still fits its page size after any operation |
| HeapModel.RunRefinesMap | src/superdb/storage/heap_file.py:53-149 | Over any run, get is lookup in an append-only map from row id to bytes with tombstones |
| HeapModel.FreshRid | src/superdb/storage/heap_file.py:53-77 | Row ids handed out increase strictly in (page, slot) order |
| HeapModel.GoneStaysGone | src/superdb/storage/heap_file.py:111-149 | A tombstoned row id is never handed out again |
| HeapFileStore.HeapFile.Insert | src/superdb/storage/heap_file.py:53-77 | On raw pages insert makes the model write and returns its row id: behind the last page's records when the record fits there, else first on a new page; a bad page size or a record too large for an empty page raises and writes nothing |
| HeapFileStore.HeapFile.ReadLivePage | src/superdb/storage/heap_file.py:79-100 | Finds the page of a live row; anything else is record not found |
| HeapFileStore.HeapFile.Get | src/superdb/storage/heap_file.py:102-109 | Get on raw pages is get of the model |
| HeapFileStore.HeapFile.Delete | src/superdb/storage/heap_file.py:111-117 | Delete on raw pages makes the one model write or raises and writes nothing |
| HeapFileStore.HeapFile.Update | src/superdb/storage/heap_file.py:119-149 | Update on raw pages overwrites or relocates with the model writes in order; it relies on reading the old page again after the insert |
| TupleCodec.DecodeUndoesEncode | src/superdb/storage/tuple_codec.py:35-127 | Decoding undoes encoding for every schema of any width, and the described spans tile the record from the bitmap end to its last byte |
| TupleCodec.SpansAreSafe | src/superdb/storage/tuple_codec.py:70-105 | On any bytes the walk reports a storage error or gives one span a column, tiling a stretch inside the record |
| TupleCodec.BitmapBits | src/superdb/storage/tuple_codec.py:41-44 | Bit i of the bitmap integer says whether column i is null, for any number of columns |
| TupleCodec.BitmapRoundTrip | src/superdb/storage/tuple_codec.py:45-81 | The bitmap survives its little-endian bytes |
| TupleCodec.Accepted | src/superdb/storage/tuple_codec.py:35-67 | A record is accepted exactly when it has one value a column and each is null where that is allowed, a number from -2147483648 to 2147483647 in an INT column, or a text of at most 65535 bytes in a TEXT column |
| TupleCodec.DecodedTypes | src/superdb/storage/tuple_codec.py:90-110 | A decoded value is null or of its column's type |
| Formats.Record | src/superdb/storage/tuple_codec.py:35-67 | Where everything in a record lies: a bit a column, set for null, then the fields in schema order without gaps; so its length |
| Formats.Field | src/superdb/storage/tuple_codec.py:48-67 | A number takes four bytes in two's complement, a text two bytes of length and its UTF-8 |
| TupleCodec.EncodeTuple | src/superdb/storage/tuple_codec.py:35-67 | The two loops produce the bytes of the record, or a storage error |
| TupleCodec.DescribeTuple | src/superdb/storage/tuple_codec.py:70-127 | The walking loop computes the spans, or a storage error |
| StorageEngine.Engine.EncodeRecord | src/superdb/storage/engine.py:56-62 | A record with a missing column or a value that does not suit raises a storage error; any other becomes bytes that decode to its columns |
| StorageEngine.RecordExact | src/superdb/storage/engine.py:56-62 | A record is taken column by column in schema order, encodes exactly when every column has a suitable value, and its length is that of null bits and fields |
| StorageEngine.Engine.AppendsExact | src/superdb/storage/engine.py:88-101 | The heap takes a record exactly when every column has a suitable value and its bytes with header and entry fit a page of 9 to 65535 bytes |
| StorageEngine.AcceptedHasKey | src/superdb/storage/engine.py:88-101 | Every number the record codec accepts has an index key, and a text exactly when it takes at most 128 bytes |
| StorageEngine.Engine.Insert | src/superdb/storage/engine.py:88-101 | Insert returns normally exactly when the record encodes and fits an empty page and the index, if there is one, takes its key: not null, encodable, unbound, with its file there. Whenever the heap takes the record the heap is the old one after the insert, also when the index then refuses and stays as it was; on success the index has exactly the new binding more. The engine invariant and all live rows stay |
| StorageEngine.Engine.Get | src/superdb/storage/engine.py:103-109 | Get returns the decoded row exactly for live row ids |
| StorageEngine.Engine.Scan | src/superdb/catalog/catalog.py:194-220 | Scan lists exactly the live rows, once each, in row id order, with the values get returns; it raises exactly when some live record does not decode |
| StorageEngine.Engine.Update | src/superdb/storage/engine.py:115-123 | Update is the heap update of the encoded record; the index stays tracked exactly when it raised |
| StorageEngine.Engine.Delete | src/superdb/storage/engine.py:125-131 | Delete is the heap delete; the index stays tracked exactly when it raised |
| StorageEngine.Engine.BuildIndex | src/superdb/storage/engine.py:135-159 | A build returns normally exactly when the column is there, its name takes at most 255 bytes and fits the page behind 19 others, and in the live rows the column is never null, no text of more than 128 bytes, and never the same twice; it then attaches an index that is exactly the key to row id map of the rows, with key type 0 for INT and 1 for TEXT and cap 128 in its header. An unknown column raises before anything is touched; a later failure leaves the old index attached without its file; a duplicate key error means two live rows share a key |
| StorageEngine.Engine.Populate | src/superdb/storage/engine.py:152-157 | Inserting the key of every scanned row succeeds exactly when the keys encode and are distinct, and gives the index file of the model run over the rows, sound and complete for the heap |
| StorageEngine.Engine.AddKey | src/superdb/storage/engine.py:99-100 | Adding a key to an index answers what its tree says: refused when null, not encodable or bound, and then nothing changes; otherwise one binding more |
| StorageEngine.Engine.Search | src/superdb/storage/engine.py:135-159 | After a build that returned and any inserts, what the index finds is a live row that carries the key; if every insert returned normally, the index finds a row id for a key exactly when that row carries it |
| StorageEngine.BothAfterInsert | src/superdb/storage/engine.py:88-101 | Adding the new row to the heap and its key to the index keeps the index sound, and complete if it was |
| StorageEngine.SoundAfterInsert | src/superdb/storage/engine.py:88-101 | A heap insert alone keeps a sound index sound |
| StorageEngine.BindsScan | src/superdb/storage/engine.py:152-157 | An index binding the keys of a scan to its row ids is sound and complete |
| StorageEngine.SharesKey | src/superdb/storage/engine.py:152-157 | A key that is refused while building is the key of an earlier row |
| SqlLexer.LexExact | src/superdb/sql/lexer.py:10-94 | The main result for the lexer: a text is read as some tokens exactly when it is written as them, character by character: reserved words are the nineteen, in any letter case, names all other words, each token as long as it can be, with any blanks between |
| SqlWords.VocabularyIs | src/superdb/sql/lexer.py:10-18 | The nineteen reserved words, six functions, two types and six comparison signs, and no others |
| SqlLexer.Tokenize | src/superdb/sql/lexer.py:28-61 | The loop yields the tokens the text is written as, for any text, and then the end marker |
| SqlLexer.ReadString | src/superdb/sql/lexer.py:64-73 | A string token up to the next quote, or an error token up to the end of the text |
| SqlLexer.ReadNumber | src/superdb/sql/lexer.py:76-82 | An optional sign and the whole run of digits |
| SqlLexer.ReadWord | src/superdb/sql/lexer.py:85-94 | The whole run of word characters, one of the nineteen reserved words in any letter case or a name as written |
| SqlLexer.LexProper | src/superdb/sql/lexer.py:28-94 | Identifiers are names and no keywords, numbers are numbers, strings hold no quote |
| SqlLexer.LexSpells | src/superdb/sql/lexer.py:28-94 | Nothing is lost and nothing made up: the texts of the tokens, in order and with blanks between, are exactly the input |
| SqlText.Parse | src/superdb/sql/parser.py:37-40 | Any ASCII text, with any characters inside strings, whose numbers have few enough digits for Python to convert gives a statement exactly when it is a text of it, and else a parse error; no other error |
| SqlText.TextExact | src/superdb/sql/parser.py:37-93 | The main result for texts: a text parses to a statement exactly when it is written as tokens the grammar derives the statement from, up to the end or a semicolon before it, with at most 100 parentheses inside one another and at most 500 AND and OR |
| SqlText.TextParses | src/superdb/sql/parser.py:80-232 | Every text written as the tokens of a well-formed statement parses to it, with any blanks and its words in any letter case, with or without a semicolon |
| SqlText.StatementTextParses | src/superdb/sql/parser.py:80-232 | Every well-formed CREATE, INSERT and SELECT whose names are names has a text with its words written out, which is read as its tokens and parses to it |
| SqlParser.Parser.Statement | src/superdb/sql/parser.py:80-93 | Parsing a whole statement keeps the cursor in range on every token list, terminates, and returns what the grammar gives, with nothing behind it but a semicolon, or a parse error and no other error |
| SqlParser.Parser.Projections | src/superdb/sql/parser.py:180-188 | * or a list of columns and calls |
| SqlParser.Parser.OrExpr | src/superdb/sql/parser.py:239-245 | The OR loop follows the grammar: left associative, one counted term an operator |
| SqlParser.Parser.AndExpr | src/superdb/sql/parser.py:247-253 | The AND loop follows the grammar |
| SqlPrinter.LexShown | src/superdb/cli/sql.py:91-111 | Lexing a printed expression gives its tokens, whatever delimiter follows |
| SqlPrinter.PrimaryUndoesShow | src/superdb/cli/sql.py:91-103 | Parsing the tokens of a printed expression gives it back within the caps and fails outside them, at any depth and term count |
| SqlPrinter.ParseUndoesShow | src/superdb/cli/sql.py:91-111 | Lexing and parsing a printed expression gives it back with only the end marker left exactly when it nests at most 100 deep and has at most 500 terms; otherwise a parse error |
| SqlPrinter.OrIsProper | src/superdb/sql/parser.py:239-296 | Every expression the parser builds is printable, and every AND and OR in it was counted |
| SqlPrinter.PrintedComesBack | src/superdb/sql/parser.py:236-296 | Any expression parsed from any text, printed and parsed again, comes back exactly when it nests at most 100 deep |
| SqlPrecedence.MinimalParses | src/superdb/sql/parser.py:234-283 | Precedence: OR binds weaker than AND, AND weaker than comparisons, AND and OR associate to the left: an expression written with parentheses only around weaker operators is what the grammar reads, at every level and cursor |
| SqlPrecedence.MinimalComesBack | src/superdb/sql/parser.py:234-283 | So every expression within the caps parses back from its minimally parenthesised tokens |
| SqlStatements.StatementComesBack | src/superdb/sql/parser.py:80-232 | The tokens of every well-formed CREATE, INSERT or SELECT, with or without a semicolon, parse back to that statement, each clause in its place |
| SqlStatements.SelectHere | src/superdb/sql/parser.py:137-169 | The same for a SELECT anywhere in a token list, whichever clauses it has |
| SqlGrammar.OrSound | src/superdb/sql/parser.py:234-296 | Soundness: every expression the parser returns is derived by the grammar from exactly the tokens it consumed, whatever came before and comes behind |
| SqlGrammar.StatementSound | src/superdb/sql/parser.py:80-232 | So is every statement, but for a semicolon behind it, and then comes the end marker |
| SqlCompleteness.ParseExact | src/superdb/sql/parser.py:80-296 | A text parses to a statement exactly when the grammar derives that statement from its tokens, up to the end or a semicolon before it, with at most 100 parentheses inside one another and at most 500 AND and OR |
| SqlCompleteness.OrComplete | src/superdb/sql/parser.py:234-296 | Every expression the grammar derives within the caps, before a token that does not continue it, is what the parser returns, and the cursor is behind it |
| SqlCompleteness.Unambiguous | src/superdb/sql/parser.py:234-296 | No token list has two expressions within the caps |
| SqlGrammar.MinimalDerives | src/superdb/sql/parser.py:234-283 | The grammar derives every proper expression, from its minimally parenthesised tokens |
| Evaluate.WhereIsThreeValued | src/superdb/sql/evaluate.py:26-51 | For type-correct predicates in which no comparison has an unknown AND or OR for an operand, a row passes exactly when three-valued logic gives true, the six comparisons being those of integers, of texts in code-point order and of truth values; and evaluation never fails |
| Evaluate.TypedEval | src/superdb/sql/evaluate.py:26-73 | Such expressions evaluate to the value the standard gives them, null for unknown, but for AND and OR, which give false for unknown |
| Evaluate.LogicIs | src/superdb/sql/evaluate.py:38-44 | AND and OR of any operands: null, 0, the empty string and false count as false, the right operand is evaluated only when the left one does not decide, and its error is then the error of the whole |
| Evaluate.MixedIs | src/superdb/sql/evaluate.py:62-73 | Comparisons across types: with null they are null, truth values count as 1 and 0, a number and a text are different and ordering them is an error |
| Evaluate.CompareTextMeans | src/superdb/sql/evaluate.py:16-23 | Texts compare by the first character in which they differ, or a prefix first |
| Evaluate.LengthMeans | src/superdb/sql/evaluate.py:54-59 | LENGTH is the number of characters of a text or of a number in decimal, and null for null |
| Evaluate.LogicExact | src/superdb/sql/evaluate.py:38-44 | The value of an AND or OR is the standard one exactly when that is not unknown |
| Evaluate.ComparisonExact | src/superdb/sql/evaluate.py:36-37 | The value of a comparison is the standard one exactly when neither operand is an unknown AND or OR, or the other operand is null anyway |
| Evaluate.LogicAsOperandDiffers | src/superdb/sql/evaluate.py:38-44 | The condition is needed: with an OR of unknowns for an operand, a row passes a comparison the standard calls unknown |
| Evaluate.EvalAgrees | src/superdb/sql/evaluate.py:26-45 | Evaluation depends on nothing but the columns an expression names |
| Grouping.BuildGroups | src/superdb/sql/executor.py:211-219 | The loop builds, in one pass, the groups in first-appearance order with their rows in order |
| Grouping.GroupsPartition | src/superdb/sql/executor.py:211-219 | Every row is in the group of its key and no other, null being a key like any other; every group has a row; no group is listed twice |
| Grouping.MembersInOrder | src/superdb/sql/executor.py:214-219 | A group keeps its rows in the order they came |
| Grouping.GroupsInOrder | src/superdb/sql/executor.py:216-218 | Groups come in the order of their first rows |
| Grouping.GroupSumsAddUp | src/superdb/sql/executor.py:211-252 | Whatever number rows have, the sums over the groups add up to the sum over all rows |
| Grouping.GroupTotals | src/superdb/sql/executor.py:234-245 | The groups COUNTs and SUMs (null as 0) add up to the COUNT and SUM of the table |
| Grouping.ExtremeOfExtremes | src/superdb/sql/executor.py:239-249 | The MIN of what MIN returns for the groups is the MIN of the table, and so for MAX, groups that return null being passed over |
| Grouping.BestIsBest | src/superdb/sql/executor.py:246-249 | The least value of a column of one type is at most, and the greatest at least, every value of it: numbers by size, texts in code-point order |
| Grouping.ExtremesAre | src/superdb/sql/executor.py:239-249 | What MIN and MAX return is a value of the column at most, or at least, every value of it that is not null; null exactly when all are |
| Grouping.CountsAre | src/superdb/sql/executor.py:234-238 | COUNT(*) is the number of rows, COUNT of a column that of the rows where it is not null |
| Grouping.SumIs | src/superdb/sql/executor.py:239-245 | SUM adds up the numbers of the column, and is null when it has none |
| Grouping.OtherAggregates | src/superdb/sql/executor.py:241-252 | SUM and AVG over a text are errors, and so is any function that is none of the five |
| Grouping.OneGroupOfAll | src/superdb/sql/executor.py:220-222 | Without GROUP BY all rows are one group, and an empty table has that one too |
| Grouping.AverageIsSumOverCount | src/superdb/sql/executor.py:239-251 | AVG is the SUM over the COUNT of the same column, null when there is no value |
| Grouping.GroupRowMeans | src/superdb/sql/executor.py:223-231 | A group gives an output row exactly when its aggregates succeed and at most one output label is no aggregate, and the row is then the key under that label and each aggregate under its own; otherwise the error is that of the first aggregate that fails, or a key error |
| Executor.SortIsStable | src/superdb/sql/executor.py:183-186 | For any two positions of the sorted rows: ascending, no null stands behind a value, numbers are in order of size and texts in code-point order; descending the other way round, nulls last. Rows of each key stay all there in the order they came |
| Executor.SortStreamIs | src/superdb/sql/executor.py:183-186 | ORDER BY yields the rows of its source so sorted, or its error and no row |
| Executor.LimitIs | src/superdb/sql/executor.py:176-181 | LIMIT yields the first n rows, and the error of its source only when there are fewer |
| Executor.ScalarIs | src/superdb/sql/evaluate.py:26-59 | What a projected column or LENGTH call gives, and that other calls are errors |
| Executor.ProjectIs | src/superdb/sql/executor.py:172-174 | An output row has the value of every item under its label and nothing else; the first item that fails gives the error |
| Executor.Run | src/superdb/sql/executor.py:162-195 | Running a plan yields what its operators yield, rows and errors alike |
| Executor.RunFilter | src/superdb/sql/executor.py:167-170 | The filter loop, up to the first row whose predicate fails to evaluate |
| Executor.RunProjection | src/superdb/sql/executor.py:172-174 | The projection loop |
| Executor.FilterOne | src/superdb/sql/executor.py:167-170 | A filter keeps a row exactly when the predicate is true and ends with the error of a row it fails on |
| Executor.FilterConcat | src/superdb/sql/executor.py:167-170 | A filter goes through rows in their order, each by itself |
| Executor.MapsEach | src/superdb/sql/executor.py:172-174 | A projection yields one row for each row before the first failure |
| Executor.RunLimit | src/superdb/sql/executor.py:176-181 | Yields the first rows and never asks for more, so errors behind them do not surface |
| Executor.RunJoin | src/superdb/sql/executor.py:198-208 | The nested loops merge the pairs whose keys are equal and not null, left rows first |
| Executor.RunQualify | src/superdb/sql/executor.py:255-261 | Adds every column a second time as table.column |
| GroupExecutor.RunAggregate | src/superdb/sql/executor.py:211-231 | The aggregate operator reads all rows, then yields one output row a group in first-appearance order, up to the first one that fails |
| GroupExecutor.RunGroups | src/superdb/sql/executor.py:176-186 | Running a grouped plan yields what its operators yield, rows and errors alike |
| Planner.CheckScopeExpr | src/superdb/sql/logical_plan.py:329-340 | The stack loop accepts an expression exactly when every column in it resolves and every function is known |
| Planner.BuildItems | src/superdb/sql/logical_plan.py:279-300 | The labelled output expressions, or an error for an unknown name, another expression or a repeated label |
| Planner.BuildSelect | src/superdb/sql/logical_plan.py:139-166 | Binding a SELECT that is not grouped gives the plan of the specification or its error |
| Planner.BuildAggregate | src/superdb/sql/logical_plan.py:185-206 | Binding a grouped SELECT gives its aggregates and labels in SELECT order, or an error |
| Planner.BuildGrouped | src/superdb/sql/logical_plan.py:139-182 | Binding a whole grouped SELECT gives the plan of the specification, ORDER BY on its labels, or its error |
| Binding.ResolveExact | src/superdb/sql/logical_plan.py:221-238 | A name resolves exactly when it names a column: with its table, or as the only one of that name; its key is the bare name over one table and table.name under a join |
| Binding.ExprExact | src/superdb/sql/logical_plan.py:329-340 | An expression is accepted exactly when every name in it names a column and every call is COUNT(*) or one of the six functions of a column |
| Binding.ItemsExact | src/superdb/sql/logical_plan.py:279-327 | Items are accepted exactly when they are bound columns and calls with different labels, and get their labels; SELECT * lists every column of every table in order |
| Binding.SelectExact | src/superdb/sql/logical_plan.py:139-166 | The binder accepts a plain SELECT exactly when its tables are there, ON compares a column of one with one of the other, and all its names and calls are bound; else a logical error |
| Binding.SelectAnswer | src/superdb/sql/logical_plan.py:139-166 | The main result: every plain SELECT that binds and means what it says yields limit(project(stable nulls-first sort(filter(source)))), its items under their labels |
| Binding.GroupedExact | src/superdb/sql/logical_plan.py:139-206 | The binder accepts a grouped SELECT exactly when it lists bound aggregates, one at least, and the GROUP BY column, and orders by one of its labels; else a logical error |
| Binding.GroupedAnswer | src/superdb/sql/logical_plan.py:139-206 | Every such SELECT that lists its group column once at most yields limit(sort(one row a group of filter(source))) |
| Binding.PlainIs | src/superdb/sql/logical_plan.py:139-166 | A SELECT is plain exactly when it has no GROUP BY and lists none of the five aggregates |
| Planner.GroupedIsBound | src/superdb/sql/logical_plan.py:185-206 | A grouped SELECT that binds has distinct labels, and labels the executor can fill exactly when it lists the group column at most once |
| Planner.GroupColumnTwice | src/superdb/sql/logical_plan.py:185-206 | With the group column listed bare and qualified a SELECT binds, and every group fails |
| SelectMeaning.NameReadsOwner | src/superdb/sql/logical_plan.py:221-238 | Each accepted name reads the value of its owner table from the merged join row |
| SelectMeaning.QualifiedNameFails | src/superdb/sql/evaluate.py:31-35 | In a query over one table an accepted name can be evaluated exactly when it is not qualified: the binder accepts more than the executor can read |
| SelectMeaning.QualifiedNameBinds | src/superdb/sql/logical_plan.py:221-229 | SELECT t.c FROM t binds for every column of every table, and its plan fails on the first row |
| SelectMeaning.SourceMeaning | src/superdb/sql/executor.py:198-208 | The rows of the source are the merged pairs the ON condition holds for, in nested-loop order, or the rows of the one table |
| SelectMeaning.EitherOnOrder | src/superdb/sql/logical_plan.py:265-275 | The join is the same for either order of the ON columns |
| SelectMeaning.PlanMeansSelect | src/superdb/sql/logical_plan.py:139-166 | The executed plan yields limit(project(stable nulls-first sort(filter(source)))), said over rows of the tables with no string keys |
| GroupedMeaning.KeyReadsOwner | src/superdb/sql/logical_plan.py:221-229 | The row key an aggregate argument resolves to reads the value of its owner table, qualified or not |
| GroupedMeaning.GroupRowAgrees | src/superdb/sql/executor.py:220-231 | The output row of a group is each listed item over its members: the aggregate, or the group value |
| GroupedMeaning.GroupedPlanMeansSelect | src/superdb/sql/logical_plan.py:139-182 | The executed plan of a grouped statement yields limit(stable nulls-first sort(one row a group of filter(source))), rows and errors alike, said over rows of the tables |

## Left out

- Files and durability: descriptors, fsync, temporary files and torn writes. A page write is one atomic update of a sequence of pages, and a file size is always whole pages.
- BPlusTreeFile.BPlusTree.Insert: page ids and row ids past u32, where Python fails while packing: it asks for as many free page ids as an insert can use at most (one a level and a new root) and for a row id that fits. The heap model does not bound its page count.
- StorageEngine.Engine.BuildIndex: asks that the u32 page ids last while the keys of the rows are inserted (`RoomFor`), as above.
- Inserts on a tree left by a crash inside a split, which the code disclaims.
- Page sizes at which not even one leaf entry fits: `BPlusTree.Valid` and `Engine.CanIndex` ask for one.
- Exception texts and the difference between the library's StorageError, ValueError and struct.error where the code lets those through; one error stands for them.
- The INT and TEXT codecs are one model over the key width; both are the instances the code has.
- Index files not written by this code: search and insert are proved for files that `create` and `insert` built. Decoding itself is proved on any bytes.
- Slot ids and page ids below zero.
- StorageEngine.Engine.Insert: one table only; the engine's single untagged index fed by a second table, and a restart of the engine, are not modelled.
- StorageEngine.Engine.Update: what the index finds after an update or delete is not stated, because the engine does not maintain it.
- Rows cross the engine as value lists in schema order instead of dictionaries; an inserted record is a map from names.
- Page buffers shorter than a header.
- The JSON catalog, table creation, renderers, the command line and logging.
- SqlParser.Parser: INT tokens whose text is no number are ruled out, because the lexer makes none.
- Token positions, which only reach error messages.
- SqlLexer.Tokenize: letters, digits and spaces outside ASCII, which Python's tests on characters accept too; it is modelled on ASCII source, with any characters inside strings.
- SqlText.Parse: the same, and numbers of more than 4300 digits, which Python refuses to convert; on those, and on digits such as a superscript two, the code raises a ValueError.
- Strings with lone surrogates: a Dafny char is a Unicode scalar value.
- Grouping.GroupRowMeans: AVG stays a sum and a count, because dividing is a floating-point matter; rows without a grouped or aggregated column read as null, which the binder rules out.
- GroupExecutor.RunGroups: ORDER BY on the label of an AVG, which compares floating-point quotients.
- The meaning of SQL over a self-join, of qualified names in a WHERE or a plain projection over one table, and of a group column listed twice: the binder accepts these, the executor does not give them the intended meaning.
- Sorting or taking extremes of a column that mixes numbers and strings, which typed columns rule out.
- `lower`, which maps every logical operator to one physical operator of the same shape: one plan type stands for both.
- Running CREATE and INSERT statements.
