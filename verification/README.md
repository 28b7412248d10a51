# MoonShot: a verified model

MoonShot is a full-text and vector search engine written in C++ and translated
into Rust. This project states, in Dafny, what its index, its readers, its page
cache and its vector graph promise, and proves it of a model that keeps the
branches, constants and state of that code. `dafny verify dfyconfig.toml` checks
everything.

## The parts

**Postings in pages.** `PostingStore` holds one list per stream key, kept sorted
under additions in any order, and encodes it as (varbyte document id, one
frequency byte) pairs. `BlockBuilder` packs the bytes of each term into pages,
cutting only between pairs; a term that leaves its page goes on in continuation
pages, each with a header of largest id and byte length. `LeafWriter` and
`TermTable` are the two-level term dictionary: head entries, leaf pages with a
directory of offsets, and the records in their bytes, a 16-byte header and the key
each; head entries and directories are numbers, not bytes. `PostingReader` is the decoder
and the reader that walks the continuation pages. `IndexBuilder` and `MergeRead`
join these: what was added to the store is what the reader delivers, for every
key, and the order of additions does not matter. The page capacity is a parameter
from 23 (a continuation header and the longest pair) to 65535, and frequency
quantisation is any function into bytes.
`Layout.Holds` is the one statement of where a term's postings are; builder,
merge and reader are each proved against it.

**Merge.** `MergeSpec` says what merging two sorted dictionaries means,
`MergeCursor` walks an input, `MergeWriter` and `Merge` fill the bounded batch, and
`MergeLoop` is the loop with its retries. `Merge.IsIndex` is met by a build and,
again, by a merge of at most 2^32 index pages, so merges compose. The loop ends
by the measure (terms left, batch not empty) when every term fits the scratch
buffer, and never otherwise. The page limits and the scratch size
are parameters with scratch <= (index pages - 1) * (page size - 22), which the
code's 32768 pages and 2000 scratch pages satisfy.

**Perfect hash.** `TermMphf` is the displacement builder and its lookup over
arbitrary hash functions: no assumption is made about them, so the claims hold
whatever they return.

**Readers.** `Readers` has one class with the fields of all seven reader kinds -
two leaves, vector results and a posting reader on its pages, and five composites -
and `DocSets` the sequences of ids they stand for. `rest` is what a reader has yet to
deliver: the meaning of its kind (intersection, union, at least m children,
difference, base) applied to what its children have left. Every operation is
proved against `rest` for any nesting; scores and source masks are functions of the
document, whatever calls came before. `TopK` runs on top of these readers.
`VectorSearch` makes a vector leaf of what a graph search found.

**Queries.** `StreamIndex` is the writer that puts words and adjacent pairs under
stream keys in a `PostingStore`, `QueryCompiler` the query tree, its meaning and the tree builders,
`BigramArm` what the bigram arm may and may not change, `QueryParser` the whole
query. `TreePruning` says what each of the three build modes makes of a tree - weak-and
children as they are, those that have documents, or the default, flattened and without
frequent terms - and `TreeLowering` is the step from a tree to readers over the pages of
an index in that mode. `SearchPath` joins everything: a query over a built or merged
index finds exactly the written documents of its tree as the mode reads it.

**Page cache and request ring.** `BlockCache` and `RequestRing` are state machines:
one step is one critical section, or one atomic load, store or fetch-and-add; two
steps of the ring join the load of a cell's sequence number with the request store
and with taking the request. `BlockCacheProof` proves what every interleaving keeps,
that it cannot get stuck, and that no schedule keeps it stepping without finishing. `CachePool` is the array code of the critical sections, proved to do
exactly those steps.

**Proximity graph.** `VectorGraph` holds the layered adjacency lists in flat
vectors, `GraphSearch` the best-first search and `VectorIndex` insertion and the
whole search. A score is any integer function of a node.

## Where the promised property needs a condition

- The clock scan meets every slot if and only if the 32-bit hand does not wrap
  inside the scan or the slot count divides 2^32 (`BlockCache.ClockGivesUpIff`).
- The builder and the merge cut a posting list at the same places, at all
  capacities, if and only if every frequency byte but the last is below 0x80
  (`Postings.CuttersAgreeIff`): the merge reads the frequency as a varbyte, the
  builder and the decoder as one byte. The merge claims carry "below 0x80" for the
  frequency bytes of the lists at hand; frequencies of 255 and more quantise to at least 128.
  Beyond it, a list that stays on one page still reads back whole
  (`HighFrequencies.DecodeAllEnc`), and a list that is cut reads back at every capacity
  under the same condition and no other (`HighFrequencies.SplitsReadBackIff`):
  `HighFrequencies.HighFrequencyIsLost` is a list and a room for which it does not.
- The merge ends if and only if every merged term's posting bytes fit the scratch
  buffer: `MergeLoop.MergeIndexes` is the one half, `MergeLoop.RunTurns` the other.
- The current document at the end is the end marker, except for a posting leaf and a
  difference over one, which return the document decoded last (`Readers.StaleDocument`,
  `Readers.DifferenceDocument`). Every caller asks for the end first.
- Dropping the children without documents from a weak-and keeps its documents exactly
  under the condition of `TreePruning.PrunedIsSameIff`.
- The request ring needs two cells; with one, a request is lost
  (`RequestRing.OneCellLosesARequest`).
- The bigram arm of a run of terms is without effect, after every history of writes,
  exactly under the conditions of `BigramArm.Harmless` (`BigramArm.UnchangedIff`).
  In default mode: there is no pair of neighbours on the same streams, or one such
  pair has a key over 26 bytes or an empty word, or every term is a word of such a
  pair and is asked on all the pair's streams. In weak-and mode: every pair that can
  be in the index brings along, on each of its streams, as many terms as are asked
  for. For terms on the same streams that is: always in default mode
  (`BigramArm.DefaultUnchanged`), and in weak-and mode up to five filtered terms, or
  more when no two neighbours have a pair key of at most 26 bytes
  (`BigramArm.WeakAndUnchangedIff`).
- Record fields are narrow. With at most 2^32 pages a built term reads back whole if
  and only if its continuation pages can be counted in 16 bits; otherwise the reader
  delivers a part from the front (`IndexBuilder.OpenTerm`).

The C++ and the Rust differ in places. The decoder here is the Rust one, total on
all byte strings; the C++ decoder agrees on well-formed pages and reads without
bounds elsewhere. The ring exists only in C++. The score-only heap is the Rust
executor, the heap with ties broken by document the C++ one.

## Model

| member | source | states |
|---|---|---|
| `BlockCache.ScanFacts` | RustBlade/src/IndexAccess/BlockTable.rs:1680-1690 | the clock scan only ever picks a slot that is neither pinned nor loading |
| `BlockCache.ScanMisses` | RustBlade/src/IndexAccess/BlockTable.rs:1680-1692 | the scan gives up if and only if every slot it probes is pinned or loading |
| `BlockCache.ScanCoversIff` | RustBlade/src/IndexAccess/BlockTable.rs:1680-1683 | one scan probes every slot if and only if the 32-bit counter does not wrap inside it, or the slot count divides 2^32 |
| `BlockCache.ClockGivesUpIff` | RustBlade/src/IndexAccess/BlockTable.rs:1680-1692 | "gives up exactly when all slots are busy" holds for all slot tables if and only if the counter does not wrap inside the scan or the slot count divides 2^32 |
| `BlockCacheProof.InitialInv` | RustBlade/src/IndexAccess/BlockTable.rs:1135-1209 | the cache as initialised satisfies the invariant, with the first window resident |
| `BlockCacheProof.StepKeepsInv` | RustBlade/src/IndexAccess/BlockTable.rs:1632-1752 | every atomic step of any thread - first critical section, fast-path pin, read progress, publish, rollback, drop - keeps the invariant |
| `BlockCacheProof.RunKeepsInv` | RustBlade/src/IndexAccess/BlockTable.rs:1632-1752 | the invariant holds after every prefix of every interleaving of any number of gets |
| `BlockCacheProof.RunIsSafe` | RustBlade/src/IndexAccess/BlockTable.rs:1632-1752 | in every reachable state the tables are mutual partial inverses, a loading slot has reference count 1, no holder and exactly one loader, and any other slot counts its holders and holds its block of the file |
| `BlockCacheProof.HeldHandleIsStable` | RustBlade/src/IndexAccess/BlockTable.rs:866-891 | from any state of a run until its drop, a held handle keeps its slot, its block and the bytes of that block |
| `BlockCacheProof.WaiterHasLoader` | RustBlade/src/IndexAccess/BlockTable.rs:1651-1677 | a get that must wait waits for a slot whose loader is in flight, loads the same block and can take a step that reduces the remaining work |
| `BlockCacheProof.NeverStuck` | RustBlade/src/IndexAccess/BlockTable.rs:1595-1630 | while any work is left some settling step is enabled and reduces it |
| `BlockCacheProof.EveryGetCanFinish` | RustBlade/src/IndexAccess/BlockTable.rs:1595-1752 | from every reachable state there is a run, no longer than the remaining work, after which every get has been served or has failed |
| `BlockCacheProof.StepWork` | RustBlade/src/IndexAccess/BlockTable.rs:1595-1752 | no step but the start of a get raises the remaining work, and every effective step - an attempt that is not told to wait, the end of a read, a publish, a rollback - lowers it |
| `BlockCacheProof.EveryScheduleProgresses` | RustBlade/src/IndexAccess/BlockTable.rs:1595-1752 | under every schedule: over any stretch of a run without new gets, the effective steps taken and the work left are together at most the work at its start, so a schedule can delay the gets but not keep them stepping for ever |
| `BlockCacheProof.GetFailsIff` | RustBlade/src/IndexAccess/BlockTable.rs:1679-1692 | an in-range get fails at its attempt if and only if its block has no slot and every probed slot is busy; without a wrap that means every slot |
| `BlockCacheProof.FailureHasCause` | RustBlade/src/IndexAccess/BlockTable.rs:1721-1751 | a get becomes failed only by rolling back its own failed read or by an attempt that found no slot or an out-of-range block |
| `CachePool.Pool.Init` | RustBlade/src/IndexAccess/BlockTable.rs:1135-1209 | initialising gives no cache exactly when a read was needed and failed, else exactly the initial cache |
| `CachePool.Pool.constructor` | RustBlade/src/IndexAccess/BlockTable.rs:1166-1204 | the tables and frames after a good first read are exactly the initial cache, hand at the slot count |
| `CachePool.Pool.FindVictim` | RustBlade/src/IndexAccess/BlockTable.rs:1679-1692 | the array scan returns the slot, and leaves the hand, of the specification |
| `CachePool.Pool.EnterGet` | RustBlade/src/IndexAccess/BlockTable.rs:1638-1720 | the first critical section on the arrays is the specified step: hit, blocked, claimed, no slot or out of range |
| `CachePool.Pool.FinishGet` | RustBlade/src/IndexAccess/BlockTable.rs:1732-1751 | the second critical section publishes the frame or undoes the claim, exactly as specified |
| `CachePool.Pool.Release` | RustBlade/src/IndexAccess/BlockTable.rs:866-891 | dropping a handle lowers one reference count and changes nothing else |
| `CachePool.Pool.LoadWindow` | RustBlade/src/IndexAccess/BlockTable.rs:1506-1561 | a sequential window load refuses while anything is pinned, else clears the tables and publishes exactly the window on a good read |
| `CachePool.WindowKeepsInv` | RustBlade/src/IndexAccess/BlockTable.rs:1506-1561 | the tables after a window load, good or failed, again satisfy the cache invariant |
| `RequestRing.StepKeepsInv` | IndexAccess/BlockTable.h:1045-1101 | with at least two cells every producer and worker step keeps the ring invariant |
| `RequestRing.RunKeepsInv` | IndexAccess/BlockTable.h:1045-1146 | the ring invariant holds after every prefix of every interleaving |
| `RequestRing.PoppedOnceInTicketOrder` | IndexAccess/BlockTable.h:1085-1101 | what the worker has been given is always a prefix of the requests in ticket order: each once, none skipped |
| `RequestRing.NothingIsOverwritten` | IndexAccess/BlockTable.h:1057-1083 | a producer only ever writes an empty cell, of a ticket inside the current window |
| `RequestRing.ExitedWorkerServedAll` | IndexAccess/BlockTable.h:1104-1126 | with no submission after the exit flag, a worker that has exited has served every ticket taken |
| `RequestRing.OldestTicketCanMove` | IndexAccess/BlockTable.h:1057-1126 | while a ticket is unserved and the worker has not exited, there is a step of a producer or the worker that brings the oldest ticket closer to being served |
| `RequestRing.EveryTicketCanBeServed` | IndexAccess/BlockTable.h:1057-1126 | from every state before the worker exits there is a run of at most six steps per waiting ticket that serves every ticket drawn so far, in order |
| `RequestRing.OneCellLosesARequest` | IndexAccess/BlockTable.h:1057-1101 | a ring of one cell would lose a request: a concrete run where the second producer overwrites the first |
| `PostingStore.Store.AddPosting` | IndexAccess/PostingStore.h:91-114 | in any order of additions the list of the key stays sorted by document, gains or replaces exactly that document, and no other list changes |
| `PostingStore.SetEntry` | IndexAccess/PostingStore.h:94-113 | append, overwrite of the last, overwrite and insertion all set the one entry of a sorted list |
| `PostingStore.LowerBound` | IndexAccess/PostingStore.h:105-106 | the binary search splits the list at the document |
| `PostingStore.EntriesDetermineList` | IndexAccess/PostingStore.h:88-114 | a sorted list is determined by its entries |
| `PostingStore.OrderDoesNotMatter` | IndexAccess/PostingStore.h:91-114 | two sequences of additions with the same last frequency per key and document end in the same store, whatever their order |
| `PostingStore.Encode` | IndexAccess/PostingStore.h:56-66 | the encoder loop writes the specified bytes of the quantised list |
| `PostingStore.QuantiseAscending` | IndexAccess/PostingStore.h:56-66 | quantising frequencies keeps the document order the format needs |
| `Bytes.VbWrite` | IndexAccess/PostingStore.h:40-47 | the varbyte loop writes the little-endian base-128 digits with continuation bits |
| `Bytes.VbAtMostTen` | IndexAccess/PostingStore.h:40-47 | a 64-bit value takes at most ten varbyte bytes |
| `Bytes.LERoundTrip` | IndexAccess/IndexSerializer.cpp:373-384 | fixed-width little-endian fields read back the value they were given |
| `Postings.PostingPrefixBytes` | IndexAccess/IndexSerializer.cpp:27-55 | the builder's scanner returns the longest pair-aligned prefix within the capacity |
| `Postings.PostingSplitLength` | IndexAccess/IndexContext.h:2073-2103 | the merge's scanner returns the whole input if it fits, else the longest prefix aligned to varbyte pairs |
| `Postings.LongestPrefixOfEnc` | IndexAccess/IndexSerializer.cpp:41-55 | cutting an encoded list takes whole postings, and one more would not fit |
| `Postings.CutProgresses` | IndexAccess/IndexSerializer.cpp:421-446 | with room for 11 bytes a cut is never empty, and one that leaves postings fills all but ten bytes |
| `Postings.SplitIsLongestPrefix` | IndexAccess/IndexContext.h:2086-2103 | for frequencies below 0x80 the merge cuts exactly where the builder would |
| `Postings.CuttersAgreeIff` | IndexAccess/IndexContext.h:2073-2103 | the two cutters agree at every capacity if and only if every posting but the last has a frequency byte below 0x80 |
| `HighFrequencies.DecodeAllEnc` | RustBlade/src/IndexAccess/UnifiedDecoder.rs:59-97 | a list on one byte range reads back whole, whatever its frequency bytes |
| `HighFrequencies.SplitsReadBackIff` | IndexAccess/IndexContext.h:2073-2103 | the two pieces the merge cuts a list into read back as the list at every capacity if and only if every posting but the last has a frequency byte below 0x80 |
| `HighFrequencies.HighFrequencyIsLost` | IndexAccess/IndexContext.h:2073-2103 | three postings, the first of frequency byte 0x80, cut for four bytes of room: two postings are lost and one that was never written is read |
| `Postings.DecodeVbRoundTrip` | RustBlade/src/IndexAccess/UnifiedDecoder.rs:59-97 | decoding a varbyte 64-bit value returns it and its length, whatever follows |
| `Postings.DecodePairRoundTrip` | RustBlade/src/IndexAccess/UnifiedDecoder.rs:59-97 | decoding an encoded list yields its first posting and leaves the encoding of the rest |
| `PostingReader.UnifiedDecoder.OpenRaw` | RustBlade/src/IndexAccess/UnifiedDecoder.rs:35-48 | a byte range outside the page opens as empty, any other as exactly its bytes |
| `PostingReader.UnifiedDecoder.DecodeNext` | RustBlade/src/IndexAccess/UnifiedDecoder.rs:59-97 | one decode step, total on all bytes, agrees with the pair decoder: a malformed or truncated pair ends the range |
| `PostingReader.UnifiedDecoder.GoUntil` | RustBlade/src/IndexAccess/UnifiedDecoder.rs:99-110 | seeking inside a page lands on the first posting at or above the target |
| `PostingReader.AdvancedIndexReader.Open` | IndexAccess/AdvancedIndexReader.cpp:55-81 | an opened reader stands before the whole list, over all its pages |
| `PostingReader.AdvancedIndexReader.GoNext` | IndexAccess/AdvancedIndexReader.cpp:83-103 | next drops exactly the current posting, across continuation pages |
| `PostingReader.AdvancedIndexReader.GoUntil` | IndexAccess/AdvancedIndexReader.cpp:105-135 | from every settled state, seeking with page skips leaves exactly what repeated next calls below the target would leave |
| `PostingReader.SkipIsSound` | IndexAccess/AdvancedIndexReader.cpp:122-126 | a page whose largest id is below the target holds nothing the seek wants |
| `Layout.DropBelowIsFirst` | IndexAccess/AdvancedIndexReader.cpp:105-135 | what a seek drops is a prefix, all of it below the target, and what it lands on is not |
| `Layout.SeekSplit` | IndexAccess/AdvancedIndexReader.cpp:105-135 | seeking over two page ranges is seeking in the first, then in the second |
| `Layout.HeaderRoundTrip` | IndexAccess/IndexSerializer.cpp:463-467 | a continuation header gives back the largest id and the byte length of its segment |
| `BlockBuilder.PageBuilder.PackFirst` | IndexAccess/IndexSerializer.cpp:421-436 | the first segment of a term goes to the tail of the current page exactly if its first posting fits there, else to the start of a fresh page, and is the longest cut that fits |
| `BlockBuilder.PageBuilder.PackContinuations` | IndexAccess/IndexSerializer.cpp:441-472 | the rest goes to consecutive continuation pages that together hold exactly the rest; no page but the last has room for the posting that follows |
| `BlockBuilder.PageBuilder.PackTerm` | IndexAccess/IndexSerializer.cpp:421-482 | a packed term's location and pages hold its whole posting list, earlier bytes stay, and the number of continuation pages is bounded by the bytes |
| `BlockBuilder.MaxDocId` | IndexAccess/IndexSerializer.cpp:449-460 | the header loop computes the last document id of the segment |
| `IndexBuilder.BuildBlocks` | IndexAccess/IndexSerializer.cpp:310-490 | for every store of sorted lists the result stores, in key order, exactly the keys of at most 26 bytes with non-empty lists, each located on its own pages |
| `IndexBuilder.SortTerms` | IndexAccess/IndexSerializer.cpp:315-320 | terms come out in byte order, each key of the store once |
| `IndexBuilder.OpenTerm` | IndexAccess/AdvancedIndexReader.cpp:55-81 | build, look up and open: nothing for a key not indexed, else the key's documents and quantised frequencies in order - all of them if and only if the continuation count fits 16 bits, a part from the front otherwise |
| `IndexBuilder.FewBytesFewPages` | IndexAccess/IndexSerializer.cpp:421-482 | a list of at most 65535 * (page size - 22) bytes has a continuation count that fits |
| `LeafWriter.Writer.WriteLeafEntry` | IndexAccess/IndexSerializer.cpp:354-401 | a record is appended after all earlier ones; pages never overflow and a new one is begun only when needed |
| `LeafWriter.Writer.FlushLeaf` | IndexAccess/IndexSerializer.cpp:338-352 | closing a page keeps the records and gives it a head entry with its first key |
| `LeafWriter.Writer.Finish` | IndexAccess/IndexSerializer.cpp:338-401 | the finished table holds exactly the records written, each page 1 to 160 of them |
| `TermTable.RecordRoundTrip` | IndexAccess/IndexSerializer.cpp:372-384 | a record reads back as its key and its location at field width |
| `TermTable.UpperBound` | IndexAccess/BlockTable.h:866-870 | the head search counts the head entries not above the key |
| `TermTable.LowerBoundInPage` | IndexAccess/BlockTable.h:877-887 | the search inside a leaf page finds the first record not below the key |
| `TermTable.FindTermData` | IndexAccess/BlockTable.h:852-907 | the two-level lookup returns what scanning all stored entries would: each written key its own location, every other byte string nothing |
| `TermTable.FindAt` | IndexAccess/BlockTable.h:852-907 | in a sorted table the scan finds every stored key |
| `TermMphf.HasDuplicate` | IndexAccess/IndexSerializer.cpp:108-116 | the sort-and-compare pass reports a duplicate if and only if two terms are equal |
| `TermMphf.FillBuckets` | IndexAccess/IndexSerializer.cpp:118-123 | every term is in the bucket of its hash, once |
| `TermMphf.TryDisplacement` | IndexAccess/IndexSerializer.cpp:149-168 | a displacement is accepted if and only if it sends the bucket to free, pairwise different slots |
| `TermMphf.FindDisplacement` | IndexAccess/IndexSerializer.cpp:146-177 | the search takes the first displacement that works and fails only if none below the limit does |
| `TermMphf.PlaceMulti` | IndexAccess/IndexSerializer.cpp:135-177 | the pass places exactly the terms of multi-term buckets, or names a bucket no displacement fits |
| `TermMphf.FreeSlots` | IndexAccess/IndexSerializer.cpp:179-184 | the list of free slots is complete: with the used ones it makes up all slots |
| `TermMphf.PlaceSingles` | IndexAccess/IndexSerializer.cpp:185-199 | the pass over single-term buckets never runs out of free slots; it can only fail on a slot beyond 31 bits |
| `TermMphf.TryBuildTermMphf` | IndexAccess/IndexSerializer.cpp:97-237 | success gives distinct terms their own slots, reached through their bucket's displacement, with their locations stored there; failure means equal terms, more than 2^31 of them, or a consistent partial placement and a bucket of unplaced terms that no displacement fits |
| `TermMphf.EverySlotTaken` | IndexAccess/IndexSerializer.cpp:97-237 | term to slot is onto: every slot belongs to some term |
| `TermMphf.FindTermDataMphf` | IndexAccess/BlockTable.h:809-850 | lookup returns every stored term's own location, through direct and displacement slots; any other key gets the location of the term in its slot only if the fingerprints agree |
| `TermMphf.SlotAddress` | RustBlade/src/IndexAccess/BlockTable.rs:1373-1378 | addressing an entry by page and index and by byte offset is the same |
| `MergeSpec.MergeIsSortedUnion` | IndexAccess/IndexContext.h:720-766 | the merge of sorted dictionaries is sorted and looks every key up as the union of the inputs, equal keys combined |
| `MergeSpec.MergeIsGood` | IndexAccess/IndexContext.h:595-599 | base ids below and delta ids from a split point make every merged list ascending again |
| `MergeCursor.LeafCursor.GoCurrent` | IndexAccess/IndexContext.h:2016-2038 | the cursor finds the record at its indices, moving over the ends of pages |
| `MergeCursor.LeafCursor.Advance` | IndexAccess/IndexContext.h:1733-1738 | advancing drops exactly the current entry of the table |
| `MergeCursor.LeafCursor.ReadPostingBytes` | IndexAccess/IndexContext.h:2053-2071 | the copied bytes are exactly the encoding of the term's postings, over all its pages |
| `MergeCursor.LeafCursor.PostingBytesSize` | IndexAccess/IndexContext.h:2040-2051 | the size from the page headers is the length of the encoding |
| `MergeWriter.Shape` | IndexAccess/IndexContext.h:1952-1971 | the planned continuation segments cut the rest of the postings without loss |
| `MergeWriter.AddIndex` | IndexAccess/IndexContext.h:1909-2004 | a term is placed whole or the batch stays as it was, and an empty batch takes every term within the scratch size |
| `Merge.Output.AddLeafTermEntry` | IndexAccess/IndexContext.h:1762-1800 | adding the record cannot fail once the capacity question was answered yes |
| `Merge.Output.TryAdd` | IndexAccess/IndexContext.h:1833-1862 | one attempt at a term records it whole or leaves the pages and records as they were, and never fails on an empty batch |
| `Merge.Output.DumpBatch` | IndexAccess/IndexContext.h:687-718 | dumping a batch renumbers its leaf and index pages by what was dumped before; every term written so far stays readable |
| `Merge.LocatedShift` | IndexAccess/IndexContext.h:687-718 | pages appended behind a file are found at their batch number plus the file's length |
| `Merge.HeadsOf` | IndexAccess/IndexContext.h:692-703 | head entries rebuilt from the leaf pages are the batch's heads, renumbered |
| `MergeLoop.AddOne` | IndexAccess/IndexContext.h:1833-1849 | a single-source term: bytes beyond the scratch size fail in every state, and otherwise only a batch that holds something can refuse |
| `MergeLoop.AddBoth` | IndexAccess/IndexContext.h:1851-1873 | a term of both sources: base bytes then delta bytes, frequencies summed, with the same failure condition |
| `MergeLoop.TryNext` | IndexAccess/IndexContext.h:720-751 | the comparison picks the smaller term, or both when equal; on an empty batch it is written if and only if its bytes fit the scratch buffer, and a refused attempt leaves terms, pages, records and files as they were |
| `MergeLoop.Turn` | IndexAccess/IndexContext.h:720-766 | one turn writes the next term and advances its sources, or leaves the sources and dumps the batch; a term that fits waits at most one dump, one that does not is never written |
| `MergeLoop.RunTurns` | IndexAccess/IndexContext.h:720-766 | if some term of the merge does not fit the scratch buffer, the sources are not used up after any number of turns: the loop does not end |
| `MergeLoop.MergeIndexes` | IndexAccess/IndexContext.h:665-776 | when every term fits the scratch buffer, whatever the page and batch sizes, the loop ends and its output is an index of the sorted union of the two inputs (within 2^32 pages it can be merged again) |
| `MergeRead.BuiltIsIndex` | IndexAccess/IndexSerializer.cpp:310-490 | a finished build whose record fields are wide enough is an index of exactly the terms of the store, each with its whole quantised list |
| `MergeRead.BuiltIsMergeable` | IndexAccess/IndexContext.h:595-599 | if the stored frequency bytes are below 0x80 and the ids in a range, its terms meet the hypotheses of the merge |
| `MergeRead.OpenIndexed` | IndexAccess/AdvancedIndexReader.cpp:55-81 | looking a key up in any index, built or merged, and draining the reader yields the key's postings |
| `MergeRead.OpenMerged` | IndexAccess/IndexContext.h:642-656 | in a merged index every key reads back as its base postings followed by its delta postings |
| `DocSets.SeekAllAtLeast` | RustBlade/src/IndexAccess/IndexReaderImpl.rs:86-91 | seeking in every child seeks in the documents that at least m children have |
| `DocSets.PivotKeeps` | RustBlade/src/IndexAccess/IndexReaderImpl.rs:34-69 | driving one child to the largest current document loses no common document |
| `DocSets.LeastHead` | RustBlade/src/IndexAccess/IndexReaderImpl.rs:307-343 | the smallest current document is the next result if enough children stand on it, and may be passed if too few do |
| `DocSets.SeekWithout` | RustBlade/src/IndexAccess/IndexReaderImpl.rs:559-584 | seeking in the base seeks in the difference, wherever the exclusion lags |
| `DocSets.SameDocs` | RustBlade/src/IndexAccess/IndexReaderImpl.rs:637-652 | sorted documents are determined by their members, so each meaning fixes one cursor sequence |
| `DocSets.SeekTwice` | RustBlade/src/IndexAccess/IndexReaderImpl.rs:644-648 | two seeks are one seek to the larger target |
| `DocSets.PostingCursor` | RustBlade/src/IndexAccess/AdvancedIndexReader.rs:130-186 | next and seek of a posting list are next and seek of its documents, which puts the posting reader under the composite readers |
| `Readers.Reader.GoNext` | RustBlade/src/IndexAccess/IndexReaderImpl.rs:72-84 | for every nested tree of readers, next drops exactly the current document |
| `Readers.Reader.GoUntil` | RustBlade/src/IndexAccess/IndexReaderImpl.rs:86-91 | for every nested tree of readers, seeking drops exactly the documents below the target |
| `Readers.Reader.IsEnd` | RustBlade/src/IndexAccess/IndexReaderImpl.rs:93-95 | a reader is at its end if and only if no document is left |
| `Readers.Reader.GetDocumentID` | RustBlade/src/IndexAccess/IndexReaderImpl.rs:97-103 | while documents are left the current document is the first of them; at the end it is the end marker for the readers that return it - all but a posting leaf and a difference over one - and for a posting leaf always the document decoded last |
| `Readers.StaleDocument` | RustBlade/src/IndexAccess/AdvancedIndexReader.rs:188-194 | stepped off the only posting of its list, a posting leaf is at its end and still returns that posting's document |
| `Readers.DifferenceDocument` | RustBlade/src/IndexAccess/IndexReaderImpl.rs:585-590 | a difference is at its end exactly when its base is, and returns what its base returns |
| `Readers.Reader.FromDocs` | RustBlade/src/IndexAccess/IndexReaderImpl.rs:628-634 | a vector leaf stands before exactly the documents it is given |
| `Readers.Reader.AlignToPivot` | RustBlade/src/IndexAccess/IndexReaderImpl.rs:34-69 | the intersection comes to stand on its first common document; the documents left in the children fall with every restart |
| `Readers.Reader.Sweep` | RustBlade/src/IndexAccess/IndexReaderImpl.rs:50-61 | a pass that breaks off has moved some child strictly forward and lost no common document |
| `Readers.Reader.RefreshCurrentDoc` | RustBlade/src/IndexAccess/IndexReaderImpl.rs:179-196 | the union's cached document and matching children are those of the smallest current document |
| `Readers.Reader.AlignToMatch` | RustBlade/src/IndexAccess/IndexReaderImpl.rs:307-343 | the weak-and reader comes to stand on the next document with enough children, skipping only documents with too few |
| `Readers.Reader.SkipExcluded` | RustBlade/src/IndexAccess/IndexReaderImpl.rs:559-573 | the difference comes to stand on the first base document the exclusion does not have |
| `Readers.Reader.BoostMatchesBase` | RustBlade/src/IndexAccess/IndexReaderImpl.rs:443-456 | true if and only if the boost's documents, as first built, include the current one; the visited documents do not change |
| `Readers.Reader.GetScore` | RustBlade/src/IndexAccess/IndexReaderImpl.rs:491-501 | the score is a function of the document alone, fixed when the tree was built, the posting leaves adding that of their stored frequency: no order of next, seek, score and source calls changes it |
| `Readers.Reader.GetSourceMask` | RustBlade/src/IndexAccess/IndexReaderImpl.rs:503-513 | the sources are those of exactly the leaves that have the document, a boost's included when it has it; asking moves boosts at any depth and no visited document |
| `Readers.Reader.FromPosting` | RustBlade/src/IndexAccess/AdvancedIndexReader.rs:130-222 | a posting reader is a leaf that stands before exactly the documents of its list |
| `Readers.Reader.AndOf` | RustBlade/src/IndexAccess/IndexReaderImpl.rs:24-32 | a new intersection stands before exactly the documents all children have |
| `Readers.Reader.OrOf` | RustBlade/src/IndexAccess/IndexReaderImpl.rs:155-169 | a new union stands before exactly the documents some child has |
| `Readers.Reader.WeakAndOf` | RustBlade/src/IndexAccess/IndexReaderImpl.rs:282-297 | a new weak-and stands before exactly the documents at least m (at least one) children have |
| `Readers.Reader.NotOf` | RustBlade/src/IndexAccess/IndexReaderImpl.rs:548-557 | a new difference stands before exactly the base documents the exclusion does not have |
| `Readers.Reader.BoostOf` | RustBlade/src/IndexAccess/IndexReaderImpl.rs:423-441 | a new boost stands before exactly the base documents |
| `TreeLowering.OpenAdvancedReader` | RustBlade/src/IndexAccess/IndexContext.rs:907-925 | a key is looked up in the index on disk and its posting reader opened before the whole list of the key |
| `TreeLowering.BuildIndexReader` | RustBlade/src/IndexAccess/IndexContext.rs:2091-2198 | in each of the three build modes, lowering a tree over the pages of an index, dropping empty branches on the way, yields a reader of exactly the documents of the tree that the mode makes of it |
| `TreeLowering.BuildWeakAnd` | RustBlade/src/IndexAccess/IndexContext.rs:2130-2178 | a lowered weak-and counts matches over the children the mode reads: all of them, or those with documents, or the flattened ones that are rare or else all the flattened ones with documents; it asks for the smaller of m and their number, or in the flat mode for 1, 2 or 3 by their number |
| `TreeLowering.EstimateDocFreq` | RustBlade/src/IndexAccess/IndexContext.rs:41-56 | the estimate is the recorded frequency of a term, the capped sum over a disjunction, and 0 for any other node |
| `TreeLowering.FlattenWeakAndNodes` | RustBlade/src/IndexAccess/IndexContext.rs:58-84 | the nodes under nested disjunctions in order, those of high document frequency only if allowed |
| `TreePruning.ExactIsItself` | RustBlade/src/IndexAccess/IndexContext.rs:2130-2178 | a mode leaves a tree as it is if the tree has no weak-and, or if the mode takes weak-and children as they are and none asks for more matches than it has children |
| `TreePruning.PrunedIsSameIff` | RustBlade/src/IndexAccess/IndexContext.rs:2145-2172 | for a weak-and that asks for at least one match, dropping the children without documents and lowering the number asked for keeps its documents if and only if enough children are left, or none, or no document has all that are left |
| `MergeRead.LookupDocFreq` | RustBlade/src/IndexAccess/IndexContext.rs:41-47 | the document frequency the index records for a key, 0 for a key it does not hold |
| `VectorSearch.BuildVectorIndexReader` | RustBlade/src/IndexAccess/IndexContext.rs:2200-2209 | the hits of the graph search, sorted by document, make a leaf that visits the documents of exactly the nodes found, each with its score and the vector source |
| `StreamIndex.AdvancedIndexWriter.CountTerms` | RustBlade/src/IndexAccess/AdvancedIndexWriter.rs:54-71 | the counting loops hold each word and each adjacent pair with its number of occurrences |
| `StreamIndex.AdvancedIndexWriter.Write` | RustBlade/src/IndexAccess/AdvancedIndexWriter.rs:49-76 | a write puts the document, in the posting store, under exactly the stream keys of its words and adjacent pairs, with their counts, and changes nothing else |
| `StreamIndex.PairsWithinWords` | RustBlade/src/IndexAccess/AdvancedIndexWriter.rs:49-76 | after any history of writes of clean words, the documents the index has under a pair are among those it has under both words, per stream; keys over 26 bytes are not indexed |
| `StreamIndex.BigramInjective` | RustBlade/src/Compiler/EvalExpression.rs:129-134 | the separator makes a pair's text split one way only |
| `QueryCompiler.GroupMatches` | RustBlade/src/Compiler/IndexSearchCompiler.rs:130-148 | a term group stands for the documents that have the term on one of its streams |
| `QueryCompiler.PairMatches` | RustBlade/src/Compiler/IndexSearchCompiler.rs:267-289 | a document of a pair group has both words on one of the group's streams, and the pair is one the index can hold |
| `BigramArm.DefaultArmWithin` | RustBlade/src/Compiler/IndexSearchCompiler.rs:370-398 | when every term is covered by a pair, or some pair cannot be in the index, documents of the bigram arm match the unigram arm |
| `BigramArm.UnchangedIff` | RustBlade/src/Compiler/IndexSearchCompiler.rs:313-398 | in every mode, for every run of clean terms: after all histories of writes the arm is without effect if and only if - default mode - there is no pair, a pair has no storable key, or each term is a word of a pair whose streams are among its own; - weak-and mode - each storable pair on each of its streams brings as many terms as are asked for |
| `BigramArm.DefaultUnchanged` | RustBlade/src/Compiler/IndexSearchCompiler.rs:370-398 | default mode, all terms on the same streams: after any history of writes the arm changes no query's documents |
| `BigramArm.MixedStreamsDiffer` | RustBlade/src/Compiler/IndexSearchCompiler.rs:267-289 | on mixed streams the arm can add documents: a concrete query and a history |
| `BigramArm.WeakAndArmWithin` | RustBlade/src/Compiler/IndexSearchCompiler.rs:313-352 | a document of one pair has the matches the weak-and asks for, if each storable pair brings enough terms; up to five terms always do |
| `BigramArm.WeakAndUnchangedIff` | RustBlade/src/Compiler/IndexSearchCompiler.rs:313-352 | for terms on the same streams, the weak-and bigram arm is without effect after every history if and only if at most five filtered terms are left or no adjacent pair of them has a key the index can hold |
| `BigramArm.ArmAddsNothing` | RustBlade/src/Compiler/IndexSearchCompiler.rs:341-398 | in every mode, with or without its arm a run of terms has the same documents under that mode's condition |
| `BigramArm.MinusUnchanged` | RustBlade/src/Compiler/IndexSearchCompiler.rs:400-415 | the same holds with excluded terms, whose arm must not exclude more |
| `BigramArm.FilterFacts` | RustBlade/src/Compiler/IndexSearchCompiler.rs:202-221 | the filter keeps exactly the terms of two bytes or more, or else the non-empty ones, each once, in the order of first occurrence |
| `QueryParser.ParseItems` | RustBlade/src/Compiler/IndexSearchCompiler.rs:424-468 | the item loop yields the disjunction of the trees of the clauses between OR words, NOT words and minus signs deciding which text is excluded |
| `QueryParser.QueryUnchanged` | RustBlade/src/Compiler/IndexSearchCompiler.rs:424-468 | a whole query has the same documents with and without its bigram arms when each of its runs meets its mode's condition |
| `QueryParser.QueryUnchangedAfter` | RustBlade/src/Compiler/IndexSearchCompiler.rs:424-468 | and so for the index of any history of writes: such a query finds the same documents with its bigram arms and without |
| `QueryParser.CompiledIsPlain` | RustBlade/src/Compiler/IndexSearchCompiler.rs:370-398 | in default mode a compiled query has no weak-and at all |
| `QueryParser.CompiledIsSane` | RustBlade/src/Compiler/IndexSearchCompiler.rs:313-339 | no compiled weak-and asks for more matches than it has children, so taking weak-and children as they are leaves every compiled query as it is |
| `SearchPath.BuiltIndexSays` | IndexAccess/IndexSerializer.cpp:310-490 | write and build: the index has under every key exactly the documents the history of writes put there, keys over 26 bytes left out |
| `SearchPath.MergedSays` | IndexAccess/IndexContext.h:595-776 | a merged index says what the two histories, one after the other, would leave |
| `SearchPath.Search` | RustBlade/src/IndexAccess/IndexContext.rs:2091-2198 | in every build mode, a tree lowered over a built or merged index finds exactly the written documents of the tree the mode makes of it, which is the tree itself when it has no weak-and or weak-and children are taken as they are |
| `SearchPath.Answer` | RustBlade/src/Compiler/IndexSearchCompiler.rs:424-468 | through parser, lowering, lookups and posting readers: a query finds exactly the written documents of its tree as the build mode reads it - in default query mode under every build mode, and in the weak-and modes when children are taken as they are, exactly those the query stands for |
| `SearchPath.AnswerWithDelta` | RustBlade/src/IndexAccess/IndexContext.rs:743-756 | over a base index and a delta not yet merged, under the same condition on the modes, a query finds the documents either of the two finds |
| `TopK.Execute` | Executor/IndexSearchExecutor.cpp:74-118 | the bounded heap keeps the best k of all documents the reader visits, each with its score and sources, in result order; without a bound, all of them |
| `TopK.BoundedIsPrefix` | Executor/IndexSearchExecutor.cpp:81-118 | the result for k is the first k of the result without a bound |
| `TopK.ExecuteWithVector` | RustBlade/src/Executor/IndexSearchExecutor.rs:70-124 | the score-only heap keeps k documents none of which scores below one left out, sorted by score |
| `TopK.ScoresAgree` | RustBlade/src/Executor/IndexSearchExecutor.rs:189-204 | place by place, the score-only result has the scores of the result whose ties are broken by document |
| `VectorIndex.FreshDiskAnn.constructor` | RustBlade/src/Embeddings/Embeddings.rs:159-175 | an empty graph is well formed, its degree bound clamped to 2..255 |
| `VectorGraph.LayersDistinct` | RustBlade/src/Embeddings/Embeddings.rs:383-388 | no two layers of any nodes share a region |
| `VectorGraph.OtherRegion` | RustBlade/src/Embeddings/Embeddings.rs:397-407 | rewriting one region leaves every other as it was |
| `VectorIndex.FreshDiskAnn.Neighbors` | RustBlade/src/Embeddings/Embeddings.rs:389-396 | the slice of the flat vectors is the node's live links on the level, all to nodes that have it |
| `VectorIndex.FreshDiskAnn.AllocateLinks` | RustBlade/src/Embeddings/Embeddings.rs:355-369 | new layers are unused cells behind all others, or nothing changes when 32-bit offsets would not do |
| `VectorIndex.FreshDiskAnn.SetNeighbors` | RustBlade/src/Embeddings/Embeddings.rs:397-407 | a layer is replaced by the first maxNeighbors links given, and the graph stays well formed |
| `VectorIndex.FreshDiskAnn.SortLayerByScore` | RustBlade/src/Embeddings/Embeddings.rs:546-559 | the live links of a layer are reordered by score, then id, and nothing else changes |
| `VectorIndex.FreshDiskAnn.LinkBack` | RustBlade/src/Embeddings/Embeddings.rs:560-593 | of the old links and the new one the best are kept: nothing dropped ranks before anything kept, and only that layer changes |
| `VectorIndex.FreshDiskAnn.Connect` | RustBlade/src/Embeddings/Embeddings.rs:336-347 | a new node's links on a level are ranked and not empty, and each chosen node links back unless it is full of links that rank before |
| `VectorIndex.FreshDiskAnn.AddNode` | RustBlade/src/Embeddings/Embeddings.rs:313-354 | every addition keeps the flat graph well formed - disjoint regions, bounded degree, distinct links to other nodes that have the level, unused cells empty, entry point on the top level - and joins the new node on every level it shares; a refused one changes nothing |
| `VectorIndex.FreshDiskAnn.GreedySearchLayer` | RustBlade/src/Embeddings/Embeddings.rs:432-452 | the greedy walk ends on a node no neighbour of which scores higher |
| `VectorIndex.FreshDiskAnn.SearchLayer` | RustBlade/src/Embeddings/Embeddings.rs:476-536 | best-first search returns the best max(ef, 1) of all it saw, distinct and ranked; if fewer than ef come back they are exactly the nodes reachable from the entry |
| `GraphSearch.Offer` | RustBlade/src/Embeddings/Embeddings.rs:508-527 | looking at a new neighbour keeps the kept nodes the best of those seen |
| `VectorIndex.FreshDiskAnn.SearchNodes` | RustBlade/src/Embeddings/Embeddings.rs:211-249 | hits are distinct and ranked; with topK 0 every node is returned exactly once, otherwise the best topK of all the bottom-level search visited, fewer only if they are all that can be reached |
| `VectorGraph.ReachableStays` | RustBlade/src/Embeddings/Embeddings.rs:492-528 | a closed set of nodes around the entry holds everything reachable from it |

## Left out

- Readers as separate types: one class with a kind tag stands for the reader interface; a child is owned by one parent, so sharing a cursor between parents is not modelled.
- Readers: `GetTermFreq`, `SetDebug` and `Close` of the composites, and a `limit` of `GoUntil` other than the default; they would add easy members. Source masks are sets of bit numbers.
- `VectorSearch.BuildVectorIndexReader`: asks that the graph holds each document once; with a document added twice the code visits it twice. A tree with a text query is answered by the text alone, as in the code.
- Failed page reads in the posting reader and in the merge cursor: there a page read succeeds; failed reads are part of the cache model.
- Header parsing, file sizes and the path sidecar.
- The 32-bit reference count of a slot and the 64-bit ring sequence do not wrap in the model.
- Condition variables, futexes and spinning: a wait is a later re-check of its guard.
- The sequential `GetBlock` path, except for its window load, which is modelled for one thread; C++ falls back to a direct get when the load fails, Rust returns nothing.
- Cache progress: `BlockCacheProof.EveryScheduleProgresses` bounds the effective steps of every schedule, and `BlockCacheProof.NeverStuck` has one enabled while work is left; that a real scheduler takes it is not stated.
- Merge: documents, path table, vectors, header and temporary files; only the term streams and posting pages are merged. The check that delta ids start at the base document count is the hypothesis that a split point separates the ids.
- Merge: the largest id of a continuation header comes from the same one-byte frequency reading as in the builder, which is the code's reading for frequencies below 0x80.
- Perfect hash: hash and seed functions are parameters; the loop over 32 retry seeds is left out (one seed's attempt is modelled), the power of two is found by doubling and not by bit smearing, and the flags field is left out. A key that was never stored is rejected only by its fingerprint, as in the code.
- `StreamIndex`, `QueryParser`: tokenising, stemming and field prefixes. An item arrives with its terms; words are byte strings and hold no separator byte.
- Query compiler: stream-set parsing, vector queries, and the difference between the three boost modes, which differ in weights and not in documents.
- The builders' `arms = false` forms are the comparison object of the bigram claims and are not in the source.
- Floating point: BM25, cosine, embeddings and document priors. Scores are integers, so no NaN and no rounding.
- `TopK`: the heap is an unordered sequence whose worst element is found by a scan; a hit's score is the reader's score plus an abstract prior; packing the source bits above a 59-bit document id, `ExecuteBounded` and snippets are left out.
- `VectorIndex`: document vectors are left out; the heaps of the search are sets with an arbitrary choice among ties, so the claims hold for every heap order. Hits stand as node ids, not document ids.
- Store statistics, Bloom and element filters, the search worker queue, io_uring, memory pinning, the HTTP service, command line, viewer and tools.
