# Verification of the PST writer and its surroundings

A Dafny model of `imap2pst`: the storage engine that writes Outlook personal folder files
(`src/pst`), the two parsers in front of it (IMAP responses and multipart bodies) and the
migration loop that drives both. The format is the one of the document "[MS-PST]: Outlook
Personal Folders (.pst) File Format"; the parsers follow RFC 3501 (sections 4.3, 7.4.2 and 9)
and RFC 2046 (section 5.1.1).

The plan throughout is to write the reader from the format's document, as functions over bytes, and
to prove that what the writer's code produces reads as the simple map or sequence that was put in.
Operations are methods over the same fields as the original's classes; what they promise is stated
with functions over values, and the reader theorems are proved about those.

| module | what it holds |
|---|---|
| `Bytes`, `Wrappers`, `Sorting`, `SearchTree`, `NodeId` | byte order, options and results, `std::sort`, the bottom-up search tree that both B-trees share, and node ids |
| `Space`, `PageTree`, `DataTree`, `SubnodeTree`, `NdbFile`, `NdbHeader` | readers and geometry of the node database: allocation maps, B-tree pages, XBLOCK trees, subnode trees, blocks, the header |
| `Ownership` | references among blocks, and the conservation law every operation keeps |
| `Ndb`, `NdbArchive` | `NdbWriter` as a class; whole runs read back from the finished file |
| `HeapFormat`, `HeapNode`, `StreamingHeap`, `HeapRefinement` | the heap-on-node, its two implementations, and the refinement between them |
| `BthFormat`, `Bth` | the B-tree-on-heap, over either heap |
| `Utf`, `MultiValue`, `SubnodeAllocator`, `PropertyContext`, `ContextArchive` | property contexts, down to the file |
| `RowLayout`, `TableFormat`, `TableReader`, `RowMatrix`, `RowStream`, `TableContext`, `TableContextWriter`, `TableRefinement` | table contexts, the two implementations, and their equivalence |
| `NameIdMap`, `NameIdStreams`, `HeaderProperties` | named properties |
| `PstStore` | the registry of a store: node ids, folders, messages, counters |
| `TableArchive`, `MessageArchive`, `StoreOwnership`, `PstWriter` | the store in bytes: tables on file, messages with their attachments and embedded messages, ownership across open tables, and `PstWriter` as a class from the empty store to the finished file |
| `Furnishing`, `HeaderArchive` | what the reserved nodes hold, and the headers of all messages, found from the file alone |
| `ImapText`, `ImapLines`, `ImapFetch`, `ImapResponse`, `ImapRoundTrip`, `ImapClient` | IMAP literal framing, UID sets, batch fetching |
| `Multipart` | boundary search, splitting, recursion |
| `FolderTree`, `Pipeline` | folder creation, batching, fall-back, accounting |

Conventions. A file is a sequence of bytes; a block store is a map from block ids to data. The CRC
and the page and block signature are two arbitrary functions (`Sums`): nothing depends on what they
compute, only on their values being stored over the stated bytes and checked there by the readers.
File offsets are unbounded numbers stored in 64-bit fields, so statements about reading a file carry
the condition that it is shorter than 2^64 bytes (`Fits64`). Exceptions are `Err` results.

Where the code and its own comments differ the model follows the code: the fan-out of a second-level
subnode block is 510, while the comment beside the constant (`src/pst/ndb.cpp:22`) says 511.

Things that turned out false of the code, each with the exact condition proved:

- A FETCH answer in which a parenthesised value (such as FLAGS) comes before the UID or the body is
  dropped by the response parser; the body, be it a literal, a quoted string or an atom, is found if
  and only if both come before any such value (`FoundIff`, `FlagsFirstLost`). NIL, which says that
  there is no body, is taken for a body of three letters (`NilIsText`).
- An allocation that fails because a heap has 65536 blocks leaves one block too many, and the next
  allocation hands out the first handle of block 0 again (`AfterFailure`). A handle that is handed out
  is in use exactly when the heap has more than 65536 blocks and the block of that number modulo 65536
  has an item of that number (`HandleTaken`).
- The boundary search goes on behind a whole marker and can step over a boundary line; it finds the
  first boundary line in every body if and only if the marker does not overlap itself across a line
  break (`JumpingIsNext`, `JumpsOver`). No boundary without a line break does.
- Two requests for named properties get one id exactly when they are for the same text or number
  and the places of their GUIDs differ by a multiple of 65536, because the GUID index wraps in 16
  bits (`AlikeIff`, `MintAll`). Up to 65534 extra GUIDs that is the same name (`IndexInjective`);
  beyond, any text under the GUID at place 65534 gets the id of the same text under PS_MAPI
  (`IndexCollides`, `ShareId`), and such maps are reached (`NamesShareId`).
- A folder path shares its key with another path exactly when its key has the character 0x1F
  strictly inside, neither first nor last: a single name when the name has it there, a path of two
  names or more always, with the single name that spells its key (`SharesKey`, `KeysCollide`). Among
  paths whose names lack the character keys are different (`KeyInjective`).
- Three throws are dead: the data tree of more than two levels (`TwoLevelsSuffice`), the B-tree-on-heap
  of more than eight index levels (`BuildBth`), and the file end before the cursor (`CursorBound`).

## Model

| member | source | states |
|---|---|---|
| Space.PlaceIsClear | src/pst/ndb.cpp:44-73 | the place the allocator settles on is the first one at or behind the cursor that meets no reserved page |
| Space.ClearInOneSpan | src/pst/ndb.cpp:106-120 | an extent clear of reserved pages lies in one map's span, so marking never spills into the next |
| Space.MarkBits | src/pst/ndb.cpp:106-120 | the bit loop switches on exactly the named slots of one map |
| Space.CountFree | src/pst/ndb.cpp:360-398 | the free count of a map is the number of its bits that are off |
| Space.MarkExact | src/pst/ndb.cpp:52-120 | after marking an extent every map bit is on exactly when its slot is in an extent or a reserved page, and free bytes, extents and fixed pages add up to whole spans |
| Ndb.NdbWriter.constructor | src/pst/ndb.cpp:26-36 | a new writer has no blocks, no nodes and a valid space |
| Ndb.NdbWriter.EnsureAMapCount | src/pst/ndb.cpp:86-104 | maps are added up to the count, each with its own page and its PMap marked; the mutual recursion with marking ends |
| Ndb.NdbWriter.MarkAllocated | src/pst/ndb.cpp:106-120 | marks an extent in its map, adding maps up to it first |
| Ndb.NdbWriter.Allocate | src/pst/ndb.cpp:52-73 | first fit: the extent starts at the first place behind the cursor that is clear, disjoint from all others, maps exact |
| Ndb.NdbWriter.SkipFixedPages | src/pst/ndb.cpp:52-73 | the clash loop stops at the first clear place, less than the extent and two pages further on, after at most two skips |
| Ndb.NdbWriter.AllocatePage | src/pst/ndb.cpp:75-84 | a page is 512-aligned and not reserved |
| Ndb.NdbWriter.EmitBlock | src/pst/ndb.cpp:130-149 | a block gets the next id and is stored; everything stored before stays; fails exactly above 8176 bytes |
| Ndb.NdbWriter.EmitXBlock | src/pst/ndb.cpp:151-161 | an XBLOCK over the given children, under a fresh internal id |
| Ndb.NdbWriter.WriteLeafChunk | src/pst/ndb.cpp:163-165 | a data block under a fresh id |
| Ndb.NdbWriter.EmitXBlocks | src/pst/ndb.cpp:167-190 | the first level of XBLOCKs concatenates to the stream, one for each 1021 leaves; each leaf gets one owner |
| Ndb.NdbWriter.AssembleDataTree | src/pst/ndb.cpp:167-190 | the root reads as the leaves' stream; fails exactly for two or more leaves of 4 GiB or more; leaves and new blocks have one owner each |
| Ndb.NdbWriter.WriteData | src/pst/ndb.cpp:192-203 | the returned tree reads as the data; fails exactly at 4 GiB; only the root is left without an owner |
| Ndb.NdbWriter.WriteSubnodes | src/pst/ndb.cpp:205-245 | looking any id up in the written tree is looking it up in the entry list; fails exactly above 340 times 510 entries; the tree owns what the entries refer to |
| Ndb.NdbWriter.EmitSls | src/pst/ndb.cpp:205-245 | the leaf blocks of a subnode tree hold the sorted entries in runs of 340 |
| Ndb.NdbWriter.AddNode | src/pst/ndb.cpp:247-249 | registers a node and changes nothing else |
| Ndb.NdbWriter.BuildLeaves | src/pst/ndb.cpp:253-332 | the leaf pages parse as the entries cut into runs |
| Ndb.NdbWriter.BuildLevel | src/pst/ndb.cpp:263-332 | a branch level parses as the level below cut into runs of 20, filed under first keys |
| Ndb.NdbWriter.BuildBTree | src/pst/ndb.cpp:299-332 | the in-order walk of the tree gives the entries, branch keys are subtree minima, no page is over-full; fails exactly when the leaf pages exceed 20^7 |
| Ndb.NdbWriter.EmitFixedPages | src/pst/ndb.cpp:336-398 | every AMap and PMap page is at its place with the final maps, and no block or tree page is touched |
| Ndb.NdbWriter.WriteHeader | src/pst/ndb.cpp:401-471 | root references, file size, free space and id counters read back from the header |
| Ndb.NdbWriter.CursorBound | src/pst/ndb.cpp:473-531 | the end of the last span is never before the cursor |
| Ndb.NdbWriter.Finish | src/pst/ndb.cpp:473-531 | from the header alone a reader finds exactly the stored blocks and registered nodes; whole spans, map bits set on file exactly for what is allocated, published free space the rest; fails exactly when a tree is too tall; a second call does nothing |
| Ndb.FreeSpaceAddsUp | src/pst/ndb.cpp:360-398 | free space, allocated extents and fixed pages add up to the mapped file |
| Ndb.MapBitRead | src/pst/ndb.cpp:336-398 | a slot is marked on file exactly when an extent or a fixed page covers it |
| NdbHeader.ComputeMarks | src/pst/ndb.cpp:421-433 | the mark of a type is the larger of 0x400 and one past its largest index |
| NdbHeader.MarkExceeds | src/pst/ndb.cpp:421-433 | every mark exceeds every used index of its type and is either 0x400 or one past a used index |
| SearchTree.SearchIsFind | src/pst/ndb.cpp:299-332 | descending a well-formed tree by branch keys finds what a scan of its records finds |
| SearchTree.LeafKidsCorrect | src/pst/ndb.cpp:299-320 | cutting records into leaves keeps them in order, within page size, under their first keys |
| SearchTree.GroupKidsCorrect | src/pst/ndb.cpp:316-332 | a level up keeps the in-order walk, the key order and the page limits |
| PageTree.ParseKidsKeeps | src/pst/ndb.cpp:336-398 | pages parse the same after writes that only touch reserved pages or lie behind them |
| PageTree.BranchPageParses | src/pst/ndb.cpp:263-297 | a finished branch page parses as a node over its children |
| DataTree.XBlockReads | src/pst/ndb.cpp:151-161 | level, children and byte total read back from an XBLOCK |
| DataTree.XBlockTree | src/pst/ndb.cpp:167-190 | an XBLOCK over trees that concatenate to the data is a tree of the data, with the total it states |
| DataTree.SliceLength | src/pst/ndb.cpp:175-189 | the byte total of a run of leaves: full leaves, or the rest of the stream if that is less |
| DataTree.TwoLevelsSuffice | src/pst/ndb.cpp:171-190 | under 4 GiB the leaves number at most 1021 squared, so two levels are enough |
| SubnodeTree.FindSubIsEntry | src/pst/ndb.cpp:205-245 | a well-formed subnode tree answers every lookup as the entry list does |
| NdbFile.BlocksAppend | src/pst/ndb.cpp:130-149 | a block written behind all others leaves them readable |
| NdbFile.StoreOfCorrect | src/pst/ndb.cpp:473-531 | reading every block through the block tree gives the block store |
| NdbFile.ReadNodeCorrect | src/pst/ndb.cpp:473-531 | reading any node id through the node tree gives the registered node, or none |
| Ownership.LawThen | src/pst/ndb.cpp:163-249 | conservation of references composes: what one operation hands back the next takes in |
| Ownership.LawBlock | src/pst/ndb.cpp:130-149 | a new block takes what it refers to and hands back itself |
| Ownership.OwnedOnce | src/pst/ndb.cpp:504-511 | every block has exactly one reference, which is why the constant reference count is right, and every reference leads to a block |
| Ownership.ChildOlder | src/pst/ndb.cpp:167-249 | a child's id is smaller than its parent's |
| NdbArchive.Archive | src/pst/ndb.cpp:163-531 | whole runs: every node, parent, data stream and subnode stream handed in reads back from the file, nothing else does, and the blocks are a forest under the nodes |
| HeapFormat.HidRoundTrip | src/pst/pst_format.h:123-132 | block and allocation index come back from a handle, which is never mistaken for a node id |
| HeapFormat.AllocInCorrect | src/pst/heap.cpp:61-79 | an allocation gets a new non-zero handle leading to its bytes; every other handle leads where it led |
| HeapFormat.PatchInCorrect | src/pst/heap.cpp:81-90 | a patch changes what its handle leads to and nothing else |
| HeapFormat.HandleTaken | src/pst/heap.cpp:61-79 | a handle handed out is in use exactly in a heap of more than 65536 blocks whose block of that number modulo 65536 has an item of that number, and then it leads to that item |
| HeapFormat.AfterFailure | src/pst/heap.cpp:66-78 | after the failure for too many blocks the next allocation hands out the first handle of block 0 |
| HeapFormat.RenderBlockSize | src/pst/heap.cpp:92-179 | every block but the last is exactly 8176 bytes |
| HeapFormat.HeapRoundTrip | src/pst/heap.cpp:92-179 | every handle read through the page map of its block in the stream gives its allocation |
| HeapNode.FillBlock | src/pst/heap.cpp:92-179 | poking header, allocations and page map into a zeroed buffer gives the block of the format |
| HeapNode.HeapNode.Alloc | src/pst/heap.cpp:61-79 | the last block while it has room, then a new one; fails exactly when the data is oversized or the block index would not fit, leaving a block too many, and the state after that is given as well |
| HeapNode.HeapNode.Patch | src/pst/heap.cpp:81-90 | rewrites an allocation of the same size, otherwise fails and changes nothing |
| HeapNode.HeapNode.Serialize | src/pst/heap.cpp:92-179 | the stream is the rendered heap |
| StreamingHeap.StreamingHeap.FlushCurrent | src/pst/streaming_table.cpp:126-132 | the block being filled goes out as one data block |
| StreamingHeap.StreamingHeap.Alloc | src/pst/streaming_table.cpp:134-158 | the same allocator as the in-memory heap: same handles, same contents, same failures, and the same state after them |
| StreamingHeap.StreamingHeap.Finish | src/pst/streaming_table.cpp:160-172 | block 0 goes out last but stands first; the data tree reads as the rendered heap; a second call fails |
| HeapRefinement.FillOnly | src/pst/streaming_table.cpp:62-124 | two renderings of a heap differ at most in bytes 8 to 11 |
| HeapRefinement.UserRootReads | src/pst/heap.cpp:118-141 | the user root reads back from the heap header |
| HeapRefinement.RunBoth | src/pst/streaming_table.cpp:126-172 | for any run of allocations both heaps give the same distinct handles, and the streamed tree reads as the in-memory stream but for the fill levels |
| BthFormat.LeafPageReads | src/pst/heap.h:101-113 | a leaf page reads back as its records |
| BthFormat.LookupFinds | src/pst/heap.h:73-136 | a lookup through all levels finds the value of every key and nothing under any other |
| Bth.BuildBth | src/pst/heap.h:73-136 | the tree's in-order walk gives the records in key order, earlier handles stay good, and it fails only when the heap is out of blocks: the limit of eight levels is never met |
| Utf.ToUtf16 | src/pst/ltp.cpp:11-47 | any bytes become UTF-16 in which every surrogate stands in a pair, and which decodes to the characters read |
| Utf.ScalarsRoundTrip | src/pst/ltp.cpp:11-47 | every character of well-formed UTF-8 survives |
| Utf.Utf16RoundTrip | src/pst/ltp.cpp:36-44 | surrogate pairs decode to the characters encoded |
| MultiValue.StringArrayReads | src/pst/ltp.cpp:113-130 | every item comes back from between its offset and the next |
| SubnodeAllocator.SubnodeAllocator.Spill | src/pst/ltp.cpp:57-65 | a spilled blob reads back under a fresh id; fails exactly at 4 GiB |
| SubnodeAllocator.SubnodeAllocator.Adopt | src/pst/ltp.cpp:61-65 | a data tree gets the next id, unused until the 27-bit indexes run out |
| PropertyContext.PropertyContext.Put | src/pst/ltp.cpp:69-78 | the context always answers with the last write of each id |
| PropertyContext.PropertyContext.SetString | src/pst/ltp.cpp:100-107 | text is stored as UTF-16 unless the tag asks for bytes |
| PropertyContext.PropertyContext.SetStringArray | src/pst/ltp.cpp:113-130 | the array of the converted items is put under the tag |
| PropertyContext.PropertyContext.Has | src/pst/ltp.cpp:139-142 | true exactly for ids that were put |
| PropertyContext.ReadsBack | src/pst/ltp.cpp:144-172 | from the stream alone a reader finds each value inline, in the heap (even empty) or in its subnode, and nothing under other ids |
| PropertyContext.PropertyContext.Serialize | src/pst/ltp.cpp:144-172 | the serialized context is the last-write-wins map of its history; fails only for a value of 4 GiB or more ids than the heap has room for |
| ContextArchive.StoreContext | src/pst/pst_writer.cpp:237-243 | a node made of a context reads as it, through its data tree and subnode tree |
| ContextArchive.ArchiveContexts | src/pst/pst_writer.cpp:237-243 | whole runs: every property of every node reads from the finished file as last put, and the blocks are a forest under the nodes; fails only for a context that does not fit, or too many nodes or blocks |
| RowLayout.ColumnsDisjoint | src/pst/ltp.cpp:248-283 | no two columns share a byte |
| RowLayout.ColumnsPlaced | src/pst/ltp.cpp:248-283 | columns lie before the bitmap, aligned to their width, in rows of at most 2064 bytes |
| RowLayout.ColumnsCover | src/pst/ltp.cpp:248-283 | every byte before the bitmap belongs to a column |
| RowLayout.ComputeLayout | src/pst/streaming_table.cpp:190-221 | the passes over the columns, widest first, give the specified offsets and the four marks |
| TableFormat.PutCellImage | src/pst/streaming_table.cpp:239-264 | writing a cell and its presence bit changes no other cell |
| TableFormat.InfoReads | src/pst/ltp.cpp:355-372 | the fields and descriptors of TCINFO read back |
| TableReader.CellReads | src/pst/ltp.cpp:285-376 | a reader going through TCINFO, row index, matrix, presence bit and reference gets the table's answer for every row id and column |
| RowMatrix.RowAtNext | src/pst/streaming_table.cpp:288-304 | rows follow one another, and none straddles a block |
| RowMatrix.PackedHolds | src/pst/ltp.cpp:324-342 | in padded blocks row i is at the block and place its number gives |
| RowMatrix.InlineHolds | src/pst/ltp.cpp:327-330 | so it is in a matrix that fits one allocation |
| RowMatrix.Pad | src/pst/ltp.cpp:331-341 | cutting the flat matrix into padded blocks gives the packed rows |
| RowStream.AppendAfterFlush | src/pst/streaming_table.cpp:288-304 | flushing a full block and starting the next keeps the stream the packed rows |
| TableContext.TableContext.AddColumn | src/pst/ltp.cpp:181-185 | a column is declared once; rows already there get an empty cell |
| TableContext.TableContext.Set | src/pst/ltp.cpp:205-246 | a cell is overwritten; an unknown row or column fails and changes nothing |
| TableContext.TableContext.AddRow | src/pst/ltp.cpp:194-203 | a row starts with its id and version set and all else empty |
| TableContext.PlaceVariable | src/pst/streaming_table.cpp:274-286 | a value goes nowhere if empty, into the heap, or into a subnode, and its reference leads to it |
| TableContext.TableContext.Serialize | src/pst/ltp.cpp:285-376 | the serialized table answers every row id and column as its rows do, a fixed value of another width cut or filled up with zeros; later writes keep it so; the heap and the subnodes own what was written |
| TableContextWriter.TableContextWriter.constructor | src/pst/streaming_table.cpp:176-188 | columns are the two pinned ones and each declared one once |
| TableContextWriter.TableContextWriter.BeginRow | src/pst/streaming_table.cpp:230-237 | starts a row with its id and version; fails inside a row |
| TableContextWriter.TableContextWriter.SetBinary | src/pst/streaming_table.cpp:274-286 | sets a variable cell of the current row; earlier rows stay readable |
| TableContextWriter.TableContextWriter.EndRow | src/pst/streaming_table.cpp:288-304 | appends the row, flushing a full block first; fails outside a row |
| TableContextWriter.TableContextWriter.Finish | src/pst/streaming_table.cpp:306-353 | data and subnodes together answer every row id and column as the rows do, and own every block written for the table |
| TableRefinement.ApplyIsLast | src/pst/ltp.cpp:205-246 | a run of settings leaves in each column the last value set |
| TableRefinement.PlayBoth | src/pst/streaming_table.cpp:230-353 | for the same rows, whatever the order of settings, the two tables give a reader the same cells; fails only when a column is not there, a value has 4 GiB, or a heap may run out of blocks, and columns that are not there always fail |
| NameIdMap.IndexInjective | src/pst/nameid_map.cpp:45-55 | up to 65534 extra GUIDs the index tells all known GUIDs apart |
| NameIdMap.IndexCollides | src/pst/nameid_map.cpp:45-55 | beyond that the next one gets the index of a predefined GUID |
| NameIdMap.AlikeIff | src/pst/nameid_map.cpp:45-101 | the map cannot tell two names apart exactly when text or number agree and the places of their GUIDs differ by a multiple of 65536 |
| NameIdMap.NameIdMap.Init | src/pst/pst_writer.cpp:101-110 | a new store's map has the one name Keywords and knows the GUID of the internet headers |
| NameIdMap.NameIdMap.IdForString | src/pst/nameid_map.cpp:57-81 | a name the map cannot tell from an earlier one keeps its id (up to 65534 extra GUIDs: the same name in any case), a new one gets the next, a full map gives zero and stays as it is |
| NameIdMap.NameIdMap.IdForNumeric | src/pst/nameid_map.cpp:83-101 | the same for numbers |
| NameIdStreams.MintAll | src/pst/nameid_map.cpp:57-101 | over any run two requests share an id exactly when the map cannot tell them apart, up to 65534 extra GUIDs exactly when they are for the same name |
| NameIdStreams.ShareId | src/pst/nameid_map.cpp:45-81 | beyond 65534 extra GUIDs two requests for different names get one id |
| NameIdStreams.NamesShareId | src/pst/nameid_map.cpp:45-81 | a map is reached in which two different names have one id |
| NameIdStreams.BucketsPartition | src/pst/nameid_map.cpp:117-126 | the hash buckets together hold every entry once |
| NameIdStreams.IdsResolve | src/pst/nameid_map.cpp:103-126 | every id minted in any run resolves through the three streams to its GUID and its number or first-seen spelling |
| NameIdStreams.BuildPropertyContext | src/pst/nameid_map.cpp:103-138 | the map's property context holds the streams and the non-empty buckets |
| HeaderProperties.ApplyHeaders | src/pst/pst_writer.cpp:247-282 | each header name's values, merged without regard to case, are readable under the id of that name, and none overwrites another |
| PstStore.PstStore.constructor | src/pst/pst_writer.cpp:101-129 | a new store has the root and the seven folders it advertises |
| PstStore.PstStore.CreateFolder | src/pst/pst_writer.cpp:204-227 | a folder gets the next id under an existing parent, otherwise it fails |
| PstStore.PstStore.AddMessage | src/pst/pst_writer.cpp:525-551 | a message adds a node, a row and the counters of its folder |
| PstStore.PstStore.Finish | src/pst/pst_writer.cpp:711-778 | all registered ids are distinct; rows of the hierarchy tables are the children, of the contents tables the messages; counts agree and unread never exceeds them |
| PstStore.ReachesRoot | src/pst/pst_writer.cpp:101-129 | walking up the parents of any folder reaches the root, which is its own parent |
| PstStore.RowsExact | src/pst/pst_writer.cpp:525-551 | a folder's rows are exactly the message nodes registered under it |
| PstStore.ChildrenExact | src/pst/pst_writer.cpp:204-222 | a folder's children are exactly the other folders under it |
| TableArchive.StoreTable | src/pst/pst_writer.cpp:728-764 | a table written from its row scripts reads on file as those rows; its data and subnodes own what was written; fails only for a script that does not fit |
| MessageArchive.BuildAttachment | src/pst/pst_writer.cpp:439-500 | an attachment whose payload is a spilled blob or an embedded message, readable from its two blocks, which own every block written for it |
| MessageArchive.BuildMessage | src/pst/pst_writer.cpp:288-522 | the context of a message; its recipient table, attachments and attachment table stand under their subnode ids |
| MessageArchive.WriteMessage | src/pst/pst_writer.cpp:237-243 | a message to any depth of embedding: properties, tables, attachments and the messages in them read back from two blocks, which own every block written; fails only when one of them does not fit |
| StoreOwnership.AllEnded | src/pst/pst_writer.cpp:711-777 | with every table ended the blocks are a forest under the registered nodes |
| PstWriter.PstWriter.constructor | src/pst/pst_writer.cpp:101-129 | an empty store with an open contents table for each of its folders, none of which has had a setting |
| PstWriter.PstWriter.CreateFolder | src/pst/pst_writer.cpp:204-227 | a folder with an open table, under an existing parent, otherwise an unchanged failure |
| PstWriter.PstWriter.AddMessage | src/pst/pst_writer.cpp:525-551 | every message handed in so far is held under its node, every block has one owner among nodes and open tables, and one table gets one row; fails only for an unknown folder, a message that does not fit, a refused setting or a full heap |
| PstWriter.PstWriter.WriteFolder | src/pst/pst_writer.cpp:711-766 | the four nodes of a folder hold its properties with its counters, a row for each child, the rows of its messages, and an empty table |
| PstWriter.PstWriter.WriteReserved | src/pst/pst_writer.cpp:555-709 | the templates, indexes, message store and name map stand under their ids with the contents that `Furnishing.Furnish` lists |
| PstWriter.PstWriter.Finish | src/pst/pst_writer.cpp:768-777 | a reader of the finished file finds the nodes of all messages, folders and furniture and no others, each under its parent with its content, in blocks that are a forest under the nodes; fails only when something does not fit its node, a table has no room to end, or there are too many nodes or blocks |
| PstWriter.MessageReads | src/pst/pst_writer.cpp:525-551 | from the file alone: a message's node, its parent folder, and each property as last put |
| PstWriter.FolderReads | src/pst/pst_writer.cpp:711-766 | from the file alone: a folder's counters are its numbers of messages and unread ones, its hierarchy table has its children's cells, its contents table its messages' |
| Furnishing.FurnishOk | src/pst/pst_writer.cpp:555-709 | eleven templates with their columns and one row, search objects, indexes, message store and name map, in the order of the reserved nodes, are what Finish asks for |
| Furnishing.BuildIndexes | src/pst/pst_writer.cpp:639-667 | the user root of each index names the header of its B-tree, in which a reader finds no key; it never fails |
| HeaderArchive.Prepare | src/pst/pst_writer.cpp:247-282 | the headers of a message and of those embedded in it get their ids in turn, and no other property changes |
| HeaderArchive.PostMessage | src/pst/pst_writer.cpp:380-551 | a message with its headers is handed to the store |
| HeaderArchive.NamesRead | src/pst/pst_writer.cpp:704-709 | from the file alone: every id of the name map resolves to its name |
| HeaderArchive.HeadersRead | src/pst/pst_writer.cpp:247-282 | from the file alone: every header of every message, embedded ones among them, is found under the id that the streams of the name map give its name, with all its values |
| ImapLines.SplitLines | src/imap/imap_parse.cpp:62-96 | the loops compute the lines with their literals attached |
| ImapLines.LineReads | src/imap/imap_parse.cpp:62-96 | a line with literals is read whole by their counts, whatever bytes they hold |
| ImapFetch.ReadQuoted | src/imap/imap_parse.cpp:25-37 | the loop computes the quoted string, of which `QuotedRoundTrip` speaks |
| ImapFetch.QuotedRoundTrip | src/imap/imap_parse.cpp:25-37 | any text, quoted and escaped, is read back as it was, up to its closing quote |
| ImapFetch.ParseFetchBodies | src/imap/imap_parse.cpp:287-321 | the bodies of the lines, in order |
| ImapRoundTrip.ParseDelivers | src/imap/imap_parse.cpp:25-96 | parsing a response gives what its items deliver up to the first parenthesised value |
| ImapRoundTrip.FoundIff | src/imap/imap_parse.cpp:294-319 | a body, as a literal, a quoted string or an atom, is found if and only if UID and body come before any parenthesised value |
| ImapRoundTrip.FlagsFirstLost | src/imap/imap_parse.cpp:314-317 | a legal answer with FLAGS first delivers nothing |
| ImapRoundTrip.NilIsText | src/imap/imap_parse.cpp:310-313 | NIL is delivered as a body of those three letters |
| ImapRoundTrip.BodiesRoundTrip | src/imap/imap_parse.cpp:287-321 | any list of UIDs and bodies comes back from its response exactly |
| ImapClient.UidSet | src/imap/imap_parse.cpp:240-254 | runs of consecutive UIDs are written as ranges |
| ImapClient.SetDenotes | src/imap/imap_parse.cpp:240-254 | what a server understands of a set made from sorted UIDs is those UIDs |
| ImapClient.CommandDenotes | src/imap/imap_client.cpp:161-167 | the command asks for exactly the UIDs of the batch |
| ImapClient.FetchMessages | src/imap/imap_client.cpp:150-176 | every message keeps its place, and with distinct UIDs gets the last body delivered under its UID or none |
| ImapClient.FetchAligned | src/imap/imap_client.cpp:150-176 | with a body for each UID every body stands at its own message |
| Multipart.FindBoundary | src/mime/entity.cpp:29-51 | the search as the code makes it, with the end of its line and whether it closes the body |
| Multipart.JumpingIsNext | src/mime/entity.cpp:33-42 | unless the marker overlaps itself across a line break the search finds the first boundary line |
| Multipart.JumpsOver | src/mime/entity.cpp:33-42 | otherwise there is a body in which it does not |
| Multipart.SplitParts | src/mime/entity.cpp:94-118 | the loop computes the parts between boundary lines; the cursor always advances |
| Multipart.SplitUndoesJoin | src/mime/entity.cpp:54-118 | splitting a composed body gives back its parts, without preamble and epilogue |
| Multipart.ParseEntity | src/mime/entity.cpp:63-133 | the recursive parser computes the tree of parts |
| Multipart.DepthBounded | src/mime/entity.cpp:91-128 | the tree below depth d is at most 8 - d deep |
| Multipart.PartsOfComposed | src/mime/entity.cpp:63-118 | a composed multipart is taken apart into the trees of exactly its parts |
| Multipart.TreeOfComposed | src/mime/entity.cpp:63-133 | a message composed of parts to any depth parses to the tree it was put together as, cut at the depth limit |
| Multipart.ComposedRoundTrip | src/mime/entity.cpp:63-133 | it comes back whole if and only if it nests no more than eight levels |
| FolderTree.KeyInjective | src/pipeline/pipeline.cpp:116-130 | different paths have different keys when no name holds the separator |
| FolderTree.SharesKey | src/pipeline/pipeline.cpp:116-130 | a path shares its key with another exactly when the key has the separator strictly inside |
| FolderTree.SplitName | src/core/message.cpp:16-35 | a listed name is cut at its delimiters; no part is empty |
| FolderTree.NameClean | src/core/message.cpp:16-35 | a listed name without the separator gives a path whose names lack it |
| FolderTree.KeysCollide | src/pipeline/pipeline.cpp:116-130 | two paths with one key |
| FolderTree.FolderFor | src/pipeline/pipeline.cpp:116-130 | the folder with the key of the path, which is the folder of the path while no name holds the separator; missing ones on the way are created under their parents, and no folder is moved |
| FolderTree.OnePerPath | src/pipeline/pipeline.cpp:116-130 | no two folders have the same path |
| Pipeline.TakeBatch | src/pipeline/pipeline.cpp:156-167 | batches are runs of the list, within size and byte limits, and no shorter than they need be |
| Pipeline.BatchProgress | src/pipeline/pipeline.cpp:156-168 | a batch is empty exactly when the batch size is zero |
| Pipeline.Pipeline.FetchWanted | src/pipeline/pipeline.cpp:195-233 | bodies go to their own places; what cannot be had is reported and marked once |
| Pipeline.Pipeline.WriteBatch | src/pipeline/pipeline.cpp:235-270 | every message of the batch not yet reported is written or reported |
| Pipeline.Pipeline.RunFolder | src/pipeline/pipeline.cpp:152-281 | the batches are the list cut in order, each within its limits, and the books balance |
| Pipeline.Pipeline.Run | src/pipeline/pipeline.cpp:64-288 | whatever server, spool, parser and writer do, every listed message is written or reported once and the counters agree; messages go to the folder with the key of their path |

## Left out

- File streams, flushing and disk errors: the file is a byte sequence whose writes succeed.
- CRC-32, page and block signatures: arbitrary functions, as said above.
- Files of 2^64 bytes and more: a 64-bit offset wraps there, and statements about reading a file exclude them.
- `std::sort`: modelled by an insertion sort; statements that depend on the order ask for distinct keys.
- rgbFillLevel, rgbFM and rgbFP: advisory; the fill levels are modelled as written but nothing is claimed of them.
- PstWriter.PstWriter.Finish: which MAPI properties a message, a folder, a table row or the message store gets is a parameter (`Message`, `Plan`, `Furnishing.Furnish`), with the counters and the shape of the tables fixed as in the source; reading is stated while subnode ids fit 27 bits (`Roomy`, counted in settings) and the file is shorter than 2^64 bytes; a heap is said to have room only if it would with a block for each value; nothing is said of a second call, which the source ignores.
- HeaderArchive.HeadersRead: stated while the name map is not full; when it is, `HeaderProperties.ApplyHeaders` says which headers were still given an id.
- StreamingHeap.StreamingHeap.Finish: of a heap with more blocks than handles can name nothing is said, nor of what is serialized from one.
- PstWriter.PstWriter.CreateFolder, AddMessage: asked for while folder and message indexes fit 27 bits, beyond which the source's ids wrap.
- PstWriter.PstWriter.AddMessage: a call that fails half-way is not rolled back, as in the source, and nothing is said of the store after it.
- PstStore.PstStore.Finish: registers node ids, parents, rows and counters; the bytes are in `PstWriter.Finish`.
- NameIdStreams.IdsResolve: asks for a string stream shorter than 4 GiB, whose offsets are 32-bit.
- TableContextWriter.TableContextWriter.Finish: asks that no row is open; the source does not check it.
- TableContext.TableContext.Set: asks for a fixed value in a fixed-width column and a variable one in the others; the source writes a reference over the next cell of a narrower column.
- The setters of the streaming table ask for a value of the column's own width; the source writes past the cell otherwise.
- Pipeline.Pipeline.Run: asks for a batch size of at least one, which the command line sees to (`src/main.cpp:101-104`).
- RowLayout.ComputeLayout: at most 255 columns, because the column count and bit numbers are stored in a byte.
- Bth.BuildBth: keys of at most eight bytes unless the tree is empty, because the source sorts by the key folded into 64 bits.
- Spool file names and progress messages: the spool is an arbitrary cached body per message.
- The order in which folders are visited and the --folder filter: `Pipeline` takes the list as given.
- Literal counts near 2^64 and `strtoul`'s blanks, signs and saturation: numbers are unbounded and read as plain digits.
- `parseFetchResponse`, `parseListResponse`, dates, flags, modified UTF-7: lenient parsing of values, not framing.
- MIME headers, charsets and transfer encodings: `Multipart` takes the result of header parsing as an arbitrary function.
- The 16-byte-key index and the other empty structures of a new store: they are trees without records.
