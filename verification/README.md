# DB7: proofs about the storage engine

DB7 is a database storage engine in C++. This project models its cores and proves what they are for:

- **The B-link tree index** (`ByteOrder`, `PageLayout`, `SplitSpace`, `SeparatorCap`, `BLinkTree`, `LeafScan`). Pages have right
  links and high fences; a split publishes the right page first and inserts the separator into the parent later. The tree is
  modelled twice. A step machine has any number of threads and one latched or validated page operation per step (`BLinkSteps`,
  `BLinkSafety`, `BLinkRuns`, `BLinkTheorems`, `BLinkRaces`, `BLinkExact`, `BLinkReads`; `BLinkOps` for operations from
  beginning to end; `BLinkUnique` for unique inserts, which hold several leaves latched). The class `BTreeIndex` has the loops of
  one thread and runs on pages that are 8192 bytes each (`PageBytes`, `PageImage`, `Compaction`, `SlottedPage`): every page
  stands for a node, the nodes for a tree, and the tree for a set of keys, which is what the operations are specified on.
  `WrapCap` is about the length of its keys.
- **Key encoding** (`KeyEncoding`, `TextEncoding`): byte order of keys is typed order of rows, for any schema.
- **Multi-version rows** (`Mvcc`, `MvccSafety`, `MvccReads`, `MvccWrites`, `MvccStatus`, `MvccUnique`): transactions as a step
  machine in which a commit restamps its records one at a time; `MvccTable` is the page with version pointers and chunks as a class, and
  `UpdateRace` has an update as the two steps it is. `UniqueIndex` puts the walks of `BLinkUnique` and these rows together.
- **The buffer pool** (`PoolSteps`, `PoolSafety`, `PoolTheorems`, `PoolPins`): the claim and undo protocol as a step machine; `BufferPool`
  is the pool of one thread with its partitions and its sweep.
- **Optimistic page sections** (`OptimisticLock`), **PAX pages** (`Pax`) and **the undo buffer** (`UndoBuffer`).
  `Counting` is a lemma on set sizes that the machines share.

`dafny verify dfyconfig.toml` checks everything.

## How to read the model

Each step machine has an invariant, a lemma that every step keeps it, and a lemma that every run does; the results about runs
follow from it. Classes and their methods are tied by `ensures` to functions on values, and lemmas say what those functions
are for. `hide` only keeps definitions out of single proofs.

Where the code falls short of its intent, the code is modelled as it is and the condition is exact:

- The space test subtracts in 16 bits. It is right if and only if the entry is not longer than the heap offset
  (`HasSpaceExact`). On inner pages it cannot wrap if and only if no key is longer than 128 bytes (`NeverWrapsIff`). A test that
  says no never wrapped, so inner splits always fit up to 818 bytes (`InnerHalvesFit`); with a test that did not wrap, the limit
  would have to be 788 bytes (`ExactCap`).
- The split root is released before the root mutex is taken. In between, and only then, the root has another page on its level
  (`RootNotAloneIff`). A thread that has split such a page and looks for the parent level finds a root that is too low
  (`LostIff`), goes on to write its separator into a page of the child's own level, and the tree is one no longer
  (`LostWriteBreaks`). All other results about runs are about those in which this write does not happen; these are exactly the
  runs in which every state is a tree (`TreeHoldsIff`). With root split and new root in one step, as in the TLA+ specification
  (`Config.atomicRoot`), they are all runs (`AtomicRunsAreSafe`, `LosesIffRootSplitInTwoSteps`,
  `BreaksIffRootSplitInTwoSteps`).
- `InternalGet` reads the right link after validation, so the page may have been split in between. A read repeats a key if and
  only if its reader follows such a link to a page not above all it has found, unless the key is deleted meanwhile
  (`RepeatsIffBehind`, `BehindComesTwice`, `NeverBehindInOrder`). With the link of the validated page (`Config.snapshotLink`)
  that cannot happen (`SnapshotLinkInOrder`, `RepeatsIffLinkReadAgain`).
- `SelectIntoChunk` takes the deletion status from the newest record. Column values are right for all chains
  (`SnapshotCorrect`); the status is right if and only if the newest state and the one where the walk stops agree on it
  (`StatusExact`), which the row's own fields tell except in one case (`StatusByFields`), in which nothing can
  (`FieldsCannotDecide`). They disagree under a newer delete (`StatusFails`), and when an update has gone to a row after a
  committed raw delete, as it tests the page's deletion bit only (`StatusAfterRevival`).
- Nothing in `Table::Update` keeps it off a row that a raw delete has deleted. A key of a unique index has two live rows if and
  only if such a row is updated while another of its key is live (`MvccUnique.OneLiveIff`, `TwoLive`). Of what others do, just
  such an update, and a page delete of the row by another, undo a uniqueness test (`PassedTestLostIff`), and the second does no
  harm (`ClearedForGood`). The results on snapshots are about runs that do not update a row once another has replaced it;
  an entry goes in beside a live row only if a row has been updated between its test and the end of the walk
  (`UniqueIndex.OneLiveIff`, `EntryIsAlone`).
- `Table::UpdateUndo` overwrites the row before it swaps the version pointer, and a raw delete does not take the page latch that
  would keep it out. If it moves the chain's head in between, the update is tried again on values already overwritten, or
  refused with the row left overwritten. Rows lead back to their older images if and only if no update of other values finishes
  after its head has moved (`RowsRightIff`, `SwapExact`, `RefuseExact`, `RefusedButRead`). The results on reads are about runs
  without that, in which updates are as good as one step (`UnspoiltIsAtomic`).
- `GetVictim` tests and takes a frame under the frame's latch, but `PageVisit` pins without it. Map, frames and counts agree all
  the same (`MapMatchesFrames`, `NoPageTwice`, `PinsConserved`), but a pin can lose its page: if and only if, when it found the
  page, a sweeper had latched the frame for another page or an undoable claim would give it back to another (`PinLostIff`). The
  first cannot happen with test and taking in one step, as in the TLA+ specification (`Config.atomicVictim`,
  `SwitchesIffVictimInTwoSteps`); the second still can (`SlipRun`).
- The undo iterator reads a chunk size behind every record, but INSERT and DELETE records have no chunk. Iteration is right if
  and only if every size read makes up the record's portion (`IterationExact`). A commit restamps through this iterator; the
  results on restamping (`RestampStepInvisible`, `RestampVersions` of the table, the Restamp steps of `Mvcc`) are about commits
  whose iterator reaches the records of the transaction, that is, whose undo buffer meets that condition.
- The comment at include/access/key_encoder.hpp:134-135 speaks of eight times the input; the code reserves 52 bytes for a
  string, and that is what is modelled. A key fits if and only if its strings do on average (`KeyFitsBound`). The code points of
  a string pass through the same buffer at four bytes each, and that fits if and only if `BufferSuffices` says so; twelve bytes
  of input can be too much (`SixLettersOverrun`).
- The insert of the sequential index can stop in three ways: `HeapWraps`, `TooFewEntries` (deletes give no heap back, so a full
  leaf may have fewer than two entries) and `NoPages` (page numbers stay below 80000). These are outcomes, not preconditions.
  When page numbers are left, the insert goes through if and only if `Absorbs` says so.

## Model

| member | source | states |
|---|---|---|
| ByteOrder.CmpFull | include/access/index/layouts/varlen/varlen_layout_leaf.hpp:96-106 | the full comparison is a total order on byte strings, equal only for equal strings |
| ByteOrder.PrefixOrderRefined | include/access/index/layouts/varlen/varlen_layout_leaf.hpp:76-89 | among keys with prefix-free columns the comparison without the identifier never contradicts the full one, and is zero if and only if the columns are equal |
| ByteOrder.SamePrefixConvex | include/access/index/layouts/varlen/varlen_layout_leaf.hpp:268-292 | entries with equal columns are contiguous: nothing with other columns sorts between two of them |
| ByteOrder.SearchKeyIsFirst | include/access/index/btree.hpp:582-587 | the search key with identifier 0 sorts before every entry with the same columns |
| ByteOrder.BeforeDecides | include/access/index/layouts/varlen/varlen_layout_leaf.hpp:96-106 | a first differing byte decides the order whatever follows it |
| KeyEncoding.ValueKeeps | include/access/key_encoder.hpp:66-111 | per type, encodings keep the order of the values by a byte both have; equal bytes if and only if equal values (-0.0 equals 0.0, all NaN are one value above all numbers) |
| KeyEncoding.MaskedOrder | include/access/key_encoder.hpp:88-100 | normalising and flipping the bits of a double turns its numeric order into unsigned order |
| KeyEncoding.MagnitudeOrder | include/access/key_encoder.hpp:88-100 | the exponent and fraction fields, read as one number, are ordered as the magnitudes they stand for |
| KeyEncoding.SignedAsUnsigned | include/access/key_encoder.hpp:78-85 | two's complement with the top bit flipped is the value shifted by half the range |
| KeyEncoding.BigEndianOrder | include/access/key_encoder.hpp:60-64 | big-endian bytes are ordered as the numbers, decided inside the bytes |
| TextEncoding.PointBefore | include/access/key_encoder.hpp:50-52 | of two code points the smaller has the smaller UTF-8 bytes, decided by a byte both have, across all four lengths |
| TextEncoding.PointReads | include/access/key_encoder.hpp:50-52 | a reader of UTF-8 gets the code point back from the bytes, of which there are no more than needed |
| TextEncoding.TextBefore | include/access/key_encoder.hpp:37-57 | the bytes of NUL-closed strings are ordered as their code points, by a byte both have |
| TextEncoding.EncodeText | include/access/key_encoder.hpp:42-57 | the code points are put into the buffer at the cursor, four bytes each, and re-encoded in place without running ahead of what is still to be read; the string and its NUL come out, and what they do not cover of the code points stays behind them |
| KeyEncoding.TextKeeps | include/access/key_encoder.hpp:37-57 | NUL-closed strings keep the order of their code points, and none is a prefix of another |
| KeyEncoding.CellKeeps | include/access/key_encoder.hpp:70-76 | with the null prefix, null comes before every value and equals only null |
| KeyEncoding.RowKeeps | include/access/key_encoder.hpp:193-201 | for any list of columns the encoded columns keep the lexicographic order of the rows, and distinct rows differ at a byte both have |
| KeyEncoding.KeyOrder | include/access/key_encoder.hpp:193-215 | the full comparison of two keys is the order of (columns, identifier), zero if and only if both agree |
| KeyEncoding.KeysArePrefixFree | include/access/key_encoder.hpp:193-215 | the keys of any schema are prefix-free, which is what the index asks of them |
| KeyEncoding.CellReads | include/access/key_encoder.hpp:66-111 | a cell is read back from its bytes: null or not behind the null byte, integers as numbers, doubles up to the sign of zero and the kinds of NaN, strings as their UTF-8 up to the NUL |
| KeyEncoding.KeyParts | include/access/key_encoder.hpp:193-215 | the columns and the identifier are found in the key again |
| KeyEncoding.BuildKey | include/access/key_encoder.hpp:193-215 | the buffer starts with exactly the key, and nothing is written beyond the furthest reach of a string's code points or of the key |
| KeyEncoding.KeyFitsBound | include/access/key_encoder.hpp:113-148 | for any columns, a key is not longer than the computed size if and only if its strings with their NULs take at most 52 bytes each on average, not counting what null cells leave free (there are none in the code) |
| KeyEncoding.ShortTextsFit | include/access/key_encoder.hpp:132-135 | so it is enough that every normalised string has at most 51 bytes |
| KeyEncoding.BufferSuffices | include/access/key_encoder.hpp:42-55 | building a key stays inside the key buffer if and only if the key fits and every string's code points do, at four bytes each from where the string starts |
| KeyEncoding.SixLettersOverrun | include/access/key_encoder.hpp:42-55 | six letters U+0390, twelve bytes of input: the key has 45 bytes, the buffer 60, and the decomposition reaches to byte 72 |
| PageLayout.HasSpaceExact | include/access/index/layouts/varlen/varlen_layout_leaf.hpp:306-316 | the 16-bit space test is right if and only if the key and its header are not longer than what lies below the heap offset |
| PageLayout.WrappedTestAccepts | include/access/index/layouts/varlen/varlen_layout_leaf.hpp:306-316 | a concrete page and key where the subtraction wraps and the test accepts a key that does not fit |
| PageLayout.CalcHeapExact | include/access/index/layouts/varlen/varlen_layout_leaf.hpp:36-39 | without a wrap the aligned offset is the old one less the entry's footprint |
| PageLayout.InsertSeqSorted | include/access/index/layouts/varlen/varlen_layout_leaf.hpp:167-179 | inserting a new key at the found position keeps the entries sorted |
| PageLayout.InsertSeqMembers | include/access/index/layouts/varlen/varlen_layout_leaf.hpp:167-179 | insertion adds just the entry, with multiplicity |
| PageLayout.InsertKeepsSpace | include/access/index/layouts/varlen/varlen_layout_leaf.hpp:294-304 | an insert that fits keeps slots below heap and heap within the page |
| PageLayout.DeleteKeepsSpace | include/access/index/layouts/varlen/varlen_layout_leaf.hpp:394-410 | a delete keeps the space invariant; it gives no heap back |
| PageLayout.FindSplitPoint | include/access/index/layouts/varlen/varlen_layout_leaf.hpp:181-198 | the split point leaves at least one entry on either side |
| SplitSpace.LeafHalvesFit | include/access/index/layouts/varlen/varlen_layout_leaf.hpp:338-392 | leaf keys of 8 to 818 bytes: after a split by key bytes both halves have room for fence, entries and the pending key |
| SplitSpace.InnerHalvesFit | include/access/index/layouts/varlen/varlen_layout_intermediate.hpp:261-316 | inner pages: whenever the space test says no, both halves take the pending separator, for all separators of 9 to 818 bytes |
| SplitSpace.CutBalance | include/access/index/layouts/varlen/varlen_layout_leaf.hpp:181-198 | what the scan for the split point guarantees about the key bytes of the halves |
| SeparatorCap.ExactCap | include/access/index/layouts/varlen/varlen_layout_intermediate.hpp:187-206 | with a space test that did not wrap, splits of inner pages leave room for the pending separator if and only if no separator is longer than 788 bytes |
| PageBytes.PackedThere | include/access/index/layouts/varlen/varlen_layout_leaf.hpp:41-54 | an entry written at an offset is read back as it was (leaf and inner format) |
| PageBytes.MovedThere | include/access/index/layouts/varlen/varlen_layout_leaf.hpp:56-69 | an entry copied byte by byte is the same entry at its new place |
| PageBytes.GoodPush | include/access/index/layouts/varlen/varlen_layout_intermediate.hpp:43-58 | an appended entry is aligned, disjoint from all others, and leaves them as they were |
| PageBytes.SlotInserted | include/access/index/layouts/varlen/varlen_layout_models.hpp:44-47 | shifting the slots up and writing the gap inserts one offset |
| PageBytes.SlotRemoved | include/access/index/layouts/varlen/varlen_layout_models.hpp:49-52 | shifting the slots down removes one offset |
| PageImage.InsertOk | include/access/index/layouts/varlen/varlen_layout_leaf.hpp:294-304 | appending to the heap and inserting the slot is the sorted insert of the node the bytes stand for |
| PageImage.RemoveSlotOk | include/access/index/layouts/varlen/varlen_layout_leaf.hpp:394-410 | removing a slot is the delete of the node the bytes stand for |
| PageImage.AppendLastOk | include/access/index/layouts/varlen/varlen_layout_intermediate.hpp:318-323 | appending with a slot behind the others adds the entry at the end |
| PageImage.FenceOk | include/access/index/layouts/varlen/varlen_layout_leaf.hpp:361-374 | an entry appended and named by max_val becomes the high fence |
| PageImage.RepackedOk | include/access/index/layouts/varlen/varlen_layout_leaf.hpp:357-359 | a repacked page without a fence uses exactly the heap its entries need |
| Compaction.SortedDescending | include/access/index/layouts/varlen/varlen_layout_leaf.hpp:231-238 | the indexes come out as a permutation in descending offset order |
| Compaction.MoveOk | include/access/index/layouts/varlen/varlen_layout_leaf.hpp:56-69 | moving the next entry in descending order never moves it down and writes over no entry that has not moved |
| Compaction.PackedOk | include/access/index/layouts/varlen/varlen_layout_leaf.hpp:226-244 | after all moves every slot names the entry it named before, and the heap is exactly used |
| SlottedPage.SlottedPage.constructor | include/access/index/layouts/varlen/varlen_layout_models.hpp:55-58 | a fresh page stands for an empty node |
| SlottedPage.SlottedPage.MemMove | include/access/index/layouts/varlen/varlen_layout_models.hpp:44-52 | the move reads all source bytes as they were, whichever way the ranges overlap |
| SlottedPage.SlottedPage.FindInsertPosition | include/access/index/layouts/varlen/varlen_layout_leaf.hpp:108-127 | the binary search returns the first entry not below the key |
| SlottedPage.SlottedPage.FindChild | include/access/index/layouts/varlen/varlen_layout_intermediate.hpp:111-122 | the binary search returns the first entry above the key |
| SlottedPage.SlottedPage.GetChild | include/access/index/layouts/varlen/varlen_layout_intermediate.hpp:211-219 | the child of the last separator not above the key |
| SlottedPage.SlottedPage.FindDeletePosition | include/access/index/layouts/varlen/varlen_layout_leaf.hpp:150-165 | finds the key whenever it is on the page |
| SlottedPage.SlottedPage.FindSplitPoint | include/access/index/layouts/varlen/varlen_layout_leaf.hpp:181-198 | both loops together compute the split point of the node |
| SlottedPage.SlottedPage.HasSpace | include/access/index/layouts/varlen/varlen_layout_leaf.hpp:306-316 | the test on the header fields is the node's test |
| SlottedPage.SlottedPage.HasSplit | include/access/index/layouts/varlen/varlen_layout_leaf.hpp:318-332 | the fence test on the bytes is the node's test |
| SlottedPage.SlottedPage.HighPrefixCmp | include/access/index/layouts/varlen/varlen_layout_leaf.hpp:246-261 | the prefix test of the fence on the bytes is the node's test |
| SlottedPage.SlottedPage.Get | include/access/index/layouts/varlen/varlen_layout_leaf.hpp:268-292 | the scan over the slots returns exactly the page's keys with the columns, as the page read of the node |
| SlottedPage.SlottedPage.AppendHeap | include/access/index/layouts/varlen/varlen_layout_leaf.hpp:41-54 | writes the packed entry below the heap offset and moves the offset |
| SlottedPage.SlottedPage.ShiftRightInsert | include/access/index/layouts/varlen/varlen_layout_models.hpp:44-47 | memmove and store insert the slot, the rest of the page unchanged |
| SlottedPage.SlottedPage.Insert | include/access/index/layouts/varlen/varlen_layout_leaf.hpp:294-304 | the bytes after an insert stand for the node with the entry inserted in order |
| SlottedPage.SlottedPage.Delete | include/access/index/layouts/varlen/varlen_layout_leaf.hpp:394-410 | the bytes after a delete stand for the node without the key's entry |
| SlottedPage.SlottedPage.MoveHeap | include/access/index/layouts/varlen/varlen_layout_leaf.hpp:56-69 | one in-place move keeps all entries readable through their slots |
| SlottedPage.SlottedPage.CompactHeap | include/access/index/layouts/varlen/varlen_layout_leaf.hpp:226-244 | in-place compaction keeps every entry of the first n slots and closes all gaps |
| SlottedPage.SlottedPage.CopyHalfRight | include/access/index/layouts/varlen/varlen_layout_leaf.hpp:200-219 | the right page gets the old fence and the upper entries in order |
| SlottedPage.SlottedPage.KeepLeft | include/access/index/layouts/varlen/varlen_layout_leaf.hpp:357-359 | the left page keeps the lower entries, repacked |
| SlottedPage.SlottedPage.Split | include/access/index/layouts/varlen/varlen_layout_leaf.hpp:338-392 | in bytes: right page inherits fence and link, left gets the sentinel and the new page number, the pending entry goes to its half; both stand for the halves of the split node |
| SlottedPage.SlottedPage.SplitHalves | include/access/index/layouts/varlen/varlen_layout_intermediate.hpp:261-296 | the same before the pending entry goes in |
| SlottedPage.SlottedPage.CreateRoot | include/access/index/layouts/varlen/varlen_layout_intermediate.hpp:318-323 | a new root holds the empty key for the old root and the separator for the new page |
| BLinkTree.SplitKeepsEntries | include/access/index/layouts/varlen/varlen_layout_leaf.hpp:338-392 | the entries of both halves in sequence are the old ones with the new one inserted |
| BLinkTree.SplitMembers | include/access/index/layouts/varlen/varlen_layout_leaf.hpp:338-392 | the two halves hold the old entries and the new one, and no others |
| BLinkTree.PutKeepsTree | include/access/index/btree.hpp:269-272 | an admissible insert keeps the tree invariant (separator is the child's low fence, levels, fences partition each level) |
| BLinkTree.SplitPutKeepsTree | include/access/index/btree.hpp:75-114 | a split keeps the invariant before any parent knows the new page |
| BLinkTree.NewRootKeepsTree | include/access/index/btree.hpp:50-66 | a new root over the old one and its right neighbour keeps the invariant |
| BLinkTree.RemoveKeepsTree | include/access/index/btree.hpp:457-469 | a delete keeps the invariant |
| BLinkTree.PutContents | include/access/index/btree.hpp:262-272 | a leaf insert adds just its key to the contents, an inner one nothing |
| BLinkTree.SplitPutContents | include/access/index/btree.hpp:273-281 | a leaf split with its key adds just that key |
| BLinkTree.NewRootContents | include/access/index/btree.hpp:50-66 | a new root changes no contents |
| BLinkTree.RemoveContents | include/access/index/btree.hpp:457-469 | a delete removes just its key |
| BLinkTree.Reachability | include/access/index/btree.hpp:156-207 | from the root, following child or right link, every key is led to the leaf whose range holds it; the descent ends because level and pages to the right go down |
| BLinkTree.Descend | include/access/index/btree.hpp:156-207 | a descent from any page not to the right of a key, down to any level, ends at that level's page whose range holds the key |
| BLinkTree.RightStep | include/access/index/btree.hpp:177-181 | a right link leads to the neighbour whose low fence is this page's high fence |
| BLinkTree.DownStep | include/access/index/btree.hpp:182-192 | the child chosen covers the key or lies to its left, one level down |
| LeafScan.PageMatchesExact | include/access/index/layouts/varlen/varlen_layout_leaf.hpp:268-292 | a page read returns exactly the page's entries with the key's columns, ascending |
| LeafScan.FenceTellsAll | include/access/index/layouts/varlen/varlen_layout_leaf.hpp:246-261 | when the fence prefix test fails, every key with the columns lies below the fence |
| LeafScan.FenceExact | include/access/index/layouts/varlen/varlen_layout_leaf.hpp:246-261 | the fence prefix test holds if and only if some key with the columns is not below the fence |
| BLinkRuns.NextKeeps | include/access/index/btree.hpp:156-469 | every latched or validated page step of every operation keeps the invariant, for any number of threads, except the write of a lost separator (see BLinkExact.LostWriteBreaks) |
| BLinkRuns.RunInv | include/access/index/btree.hpp:156-469 | so it holds in every state of every run in which no lost separator is written |
| BLinkRuns.ReachableKeysFound | include/access/index/btree.hpp:156-207 | in every state reachable without writing a lost separator, every stored key is found from the root, even while separators are on their way up |
| BLinkRuns.LeafSplitKeeps | include/access/index/btree.hpp:273-298 | a leaf split that publishes the right page before its separator keeps the invariant |
| BLinkRuns.ParentSplitKeeps | include/access/index/btree.hpp:370-395 | an inner split during propagation keeps the invariant |
| BLinkRuns.InstallRootKeeps | include/access/index/btree.hpp:286-290 | installing a new root keeps the invariant |
| BLinkRuns.RedescendDownKeeps | include/access/index/btree.hpp:209-260 | the second descent to the parent level keeps the path invariant |
| BLinkRuns.FollowLinkKeeps | include/access/index/btree.hpp:436-445 | a reader that goes on to the next page keeps what it knows about its result |
| BLinkRuns.GetIsRegular | include/access/index/btree.hpp:402-455 | in runs without the write of a lost separator, a finished Get has every key that was stored all along, and only keys stored at some time in between |
| BLinkTheorems.WritesAreAtomic | include/access/index/btree.hpp:262-302 | the contents change in one step of each writer, by its key; no other step changes them |
| BLinkOps.WriterDoesOneThing | include/access/index/btree.hpp:495-580 | over any run: a thread that starts an insert or a delete of a key and comes to its end has changed the contents in exactly one of its own steps, by adding or removing that key |
| BLinkOps.ReaderReads | include/access/index/btree.hpp:582-588 | over any run: a thread that starts a read and comes to its end has changed nothing, and has all keys with the columns that were stored in every state meanwhile, and none that was stored in no state meanwhile |
| BLinkOps.CanStart | include/access/index/btree.hpp:495-588 | an idle thread can start any operation on any key |
| BLinkOps.CanMoveIff | include/access/index/btree.hpp:156-469 | in every run, a thread at an operation can go on if and only if its separator is not lost and it is not at the leaf of a key to insert that is stored already, or of one to delete that is not |
| BLinkTheorems.QuiescentNeedsNoLinks | include/access/index/btree.hpp:354-400 | once no separator is on its way, descents never have to go right |
| BLinkTheorems.ParentUnique | include/access/index/btree.hpp:354-400 | a page has one parent entry |
| BLinkTheorems.AtomicRootNeverLost | specs/btree_ly_index/btree_index.tla:245-254 | with root split and root installation in one step, no separator is ever without a page to go to |
| BLinkTheorems.SnapshotLinkInOrder | include/access/index/btree.hpp:430-437 | with the link taken from the validated snapshot, a Get returns its keys in strictly ascending order |
| BLinkTheorems.UnchangedLinkIsAhead | include/access/index/btree.hpp:436-445 | a reader whose page still has the link it was validated with goes on to a page above all it has found |
| BLinkRaces.LosesIffRootSplitInTwoSteps | include/access/index/btree.hpp:281-293 | some run leaves a separator without a page if and only if the split root is released before the new root is installed |
| BLinkRaces.RepeatsIffLinkReadAgain | include/access/index/btree.hpp:430-437 | some run returns an entry twice if and only if the right link is read after validation |
| BLinkExact.RootNotAloneIff | include/access/index/btree.hpp:281-293 | in every reachable state the root has another page on its level if and only if some thread stands between splitting the root and installing the new one |
| BLinkExact.LostIff | include/access/index/btree.hpp:209-230 | a thread that looks for the parent level anew has no page to go to if and only if the page it split is on the level of the root; then some other thread stands between splitting the root and installing the new one |
| BLinkExact.LostWriteBreaks | include/access/index/btree.hpp:354-367 | the code then writes the separator into a page of the child's own level, and that always breaks the tree: an inner page leads to its own level, or a leaf holds an entry that leads somewhere |
| BLinkExact.TreeHoldsIff | include/access/index/btree.hpp:156-469 | over all runs of the code, the tree invariant holds in every state if and only if no lost separator is written |
| BLinkExact.AtomicRunsAreSafe | specs/btree_ly_index/btree_index.tla:245-254 | with root split and root installation in one step, no run writes a lost separator |
| BLinkExact.BreaksIffRootSplitInTwoSteps | include/access/index/btree.hpp:281-293 | some run breaks the tree if and only if the split root is released before the new root is installed |
| BLinkReads.NeverBehindInOrder | include/access/index/btree.hpp:402-455 | a read whose reader never follows a link to a page that is not above all it has found returns its keys in strictly ascending order |
| BLinkReads.BehindComesTwice | include/access/index/btree.hpp:430-445 | if it does, any key it has found at or above that page's low fence comes twice, provided the key stays stored |
| BLinkReads.RepeatsIffBehind | include/access/index/btree.hpp:402-455 | over any stretch without deletes, a finished read returns some key twice if and only if its reader once followed a link to a page not above all it had found; otherwise its keys ascend |
| BLinkUnique.StepKnows | include/access/index/btree.hpp:525-560 | what a unique insert knows of the leaves it holds latched survives every step of the others: writes and splits of other leaves, inner splits, new roots |
| BLinkUnique.MoveKeeps | include/access/index/btree.hpp:505-568 | every step of unique inserts and of all other operations keeps the invariant: latched leaves are disjoint, reach from the search key's leaf to the one looked at, and their keys have been tested |
| BLinkUnique.RunKeeps | include/access/index/btree.hpp:505-568 | so every run does, for any number of threads |
| BLinkUnique.AllTestedAtEntry | include/access/index/btree.hpp:529-567 | when the entry goes in, every stored key with its columns has been tested, whatever the others have done since the walk began; and the leaf it goes into covers it |
| BLinkUnique.OneWalkPerKey | include/access/index/btree.hpp:533-537 | no two unique inserts of the same columns hold latches at the same time, the race the comment on latch crabbing speaks of |
| BTreeIndex.BTreeIndex.constructor | include/access/index/btree.hpp:472-491 | an index with one empty leaf, a page of bytes, holds no keys |
| BTreeIndex.BTreeIndex.DropToLeaf | include/access/index/btree.hpp:156-207 | ends at a leaf not to the right of the key, with the inner pages passed on the stack |
| BTreeIndex.BTreeIndex.DropToLevel | include/access/index/btree.hpp:209-260 | ends at the given level with that page on top of the stack |
| BTreeIndex.BTreeIndex.GoRight | include/access/index/btree.hpp:116-152 | walks to the page whose range holds the key |
| BTreeIndex.BTreeIndex.CreateNewRoot | include/access/index/btree.hpp:50-66 | installs a new page of bytes as root, no contents change |
| BTreeIndex.BTreeIndex.SplitPage | include/access/index/btree.hpp:75-114 | in bytes: the page and a new one stand for the halves of the split node, all other pages for what they stood for |
| BTreeIndex.BTreeIndex.SplitNode | include/access/index/btree.hpp:75-114 | the page pair after a split is the split of the tree; returns the right page's low fence |
| BTreeIndex.BTreeIndex.SplitAndClimb | include/access/index/btree.hpp:282-302 | after a split, the stack leads to the page that has to take the separator: the one passed on the way down, or the one found from the root |
| BTreeIndex.BTreeIndex.PutAbove | include/access/index/btree.hpp:366-369 | a page above takes the separator, and the index is settled again, if and only if its space test did not wrap |
| BTreeIndex.BTreeIndex.PropagateInsert | include/access/index/btree.hpp:354-400 | the separator finds its parent, through any number of splits, and the index is settled again, if and only if each page it comes to has no wrap in its space test and has room or can be split |
| BTreeIndex.BTreeIndex.InsertIntoLeaf | include/access/index/btree.hpp:262-302 | adds the key if and only if the leaf and, as far as pages split, the pages above absorb it; else it stops in one of the two ways the page layout leaves open |
| BTreeIndex.BTreeIndex.Insert | include/access/index/btree.hpp:495-503 | on pages of bytes, set add, for keys of any length the index takes: while page numbers are left, it succeeds if and only if the leaf and, as far up as pages split, the pages above it absorb the key (Absorbs); with keys of at most 128 bytes, if and only if the leaf takes it |
| BTreeIndex.BTreeIndex.Delete | include/access/index/btree.hpp:574-580 | on pages of bytes, set remove |
| BTreeIndex.BTreeIndex.Get | include/access/index/btree.hpp:582-587 | on pages of bytes, exactly the entries with the key's columns, ascending, over any number of leaves |
| BTreeIndex.BTreeIndex.InsertUnique | include/access/index/btree.hpp:505-568 | conflict if and only if some stored entry with the columns conflicts; else the key goes to the leaf that covers it, and is added if and only if the pages absorb it |
| BTreeIndex.FindStartPosition | include/access/index/layouts/varlen/varlen_layout_leaf.hpp:129-148 | the search by columns returns the first entry not before them |
| BTreeIndex.CheckUnique | include/access/index/layouts/varlen/varlen_layout_leaf.hpp:412-439 | the loop over one page finds a conflict if and only if there is one on the page |
| BTreeIndex.ShortSeparatorsDoNotWrap | include/access/index/layouts/varlen/varlen_layout_intermediate.hpp:230-240 | with keys of at most 128 bytes the space test of inner pages never wraps |
| BTreeIndex.LiftsKept | include/access/index/btree.hpp:354-400 | whether a separator goes through above a level depends only on the root and the pages from that level on |
| WrapCap.NeverWrapsIff | include/access/index/layouts/varlen/varlen_layout_intermediate.hpp:230-240 | the space test of inner pages never wraps if and only if no key is longer than 128 bytes |
| WrapCap.WidePageWraps | include/access/index/layouts/varlen/varlen_layout_intermediate.hpp:230-240 | a concrete inner page, 57 separators of 129 bytes and one of 68, whose test accepts a separator it has no room for |
| MvccSafety.StepKeeps | src/transaction/transaction_manager.cpp:4-19 | every step of every transaction keeps the invariant on clock, latch, stamps, chains and images |
| MvccSafety.RunKeeps | src/transaction/transaction_manager.cpp:4-19 | so every run does |
| MvccSafety.BeginPassKeeps | include/shared/locks/adaptive_spin_lock.hpp:13-21 | who passes the latch began before every commit that is still restamping |
| MvccSafety.CommitTickKeeps | src/transaction/transaction_manager.cpp:12-17 | a commit time taken while holding the latch is later than every start that has passed it |
| MvccSafety.ConflictDecides | include/transaction/transaction_util.hpp:22-37 | the conflict test fails for just those whose newest record is their own or was committed before they began |
| MvccSafety.UpdateLog | include/access/chunk_utils.hpp:41-54 | the saved values lead back from the new row to the old one |
| MvccReads.OlderOnChain | src/access/table.cpp:37-56 | down a chain stamps do not increase, and another writer's older record was committed before the newer writer began |
| MvccReads.WritersAreSerial | include/transaction/transaction_util.hpp:22-37 | no lost updates: of two writers of a row, one had committed before the other began |
| MvccReads.FirstWriterWins | src/access/table.cpp:37-48 | a write goes through if and only if the newest record is the writer's own or was committed before it began, and the row is not deleted by the test made |
| MvccReads.SettledIsSuffix | src/access/table.cpp:221-238 | the records committed before a start are a suffix of the chain |
| MvccReads.NewerIffUnsettled | src/access/table.cpp:221-223 | a stamp looks newer to a running reader if and only if its owner had not committed when the reader began |
| MvccReads.SnapshotCorrect | src/access/table.cpp:203-242 | for any chain and any column subset a read gives the row after all commits before the reader's start, or the newest one if it wrote it last; NotVisible if and only if the row was not there |
| MvccReads.StatusExact | src/access/table.cpp:215-241 | for any chain, the reported status is right if and only if the newest state of the row and the one where the reader's walk stops are both deleted or both not |
| MvccStatus.StatusByFields | src/access/table.cpp:215-241 | in every run, the state where the walk stops is told by the kinds of the records and the deletion bit, so the condition can be checked on the row; only a walk past all records of a row that BitOfEither describes is left open |
| MvccStatus.FieldsCannotDecide | src/access/table.cpp:215-241 | that one cannot be decided: two runs leave the same fields of the row and the same transactions, the reader is told Deleted in both, and is right in just one |
| MvccStatus.RunsBitmapsOk | src/access/table.cpp:42-46 | in every run, a row's deletion bit is from before its first record, with at most an update and a raw delete after, or from a page delete that is its newest record |
| MvccReads.StatusWhereDeletesLast | src/access/table.cpp:215-241 | where deletes come last, it is wrong if and only if the chain's head is a delete newer than the reader and not its own |
| MvccReads.StatusAfterRevival | src/access/table.cpp:42-46 | a run in which a row with a committed raw delete is updated, and a reader from before the update, who should see it deleted, is told Visible |
| MvccReads.StatusFails | src/access/table.cpp:215-241 | a run in which a reader is told Deleted for a row it should see alive |
| MvccReads.CarefulKeeps | include/transaction/transaction_context.hpp:137-158 | writes to rows that are not deleted keep deletes last |
| MvccReads.RepeatableRead | src/access/table.cpp:203-242 | over any run of the others, a transaction that does not write the row reads it the same |
| MvccWrites.OwnWriteRead | src/access/table.cpp:25-57 | whoever has inserted, updated or deleted a row reads, in any columns, the values it wrote and the others as they were, and Deleted just after a delete |
| MvccWrites.LaterReads | src/access/table.cpp:203-242 | until the row is written again, so does everybody who begins after the writer's commit, whatever happens meanwhile |
| MvccWrites.BitIff | src/access/table.cpp:177-199 | over any run, a row's deletion bit is set if and only if it was at the start or a page delete of the row has gone through |
| MvccWrites.PageDeleteIsFinal | src/access/table.cpp:42-46 | after a page delete, whatever happens, nobody updates or deletes the row any more |
| MvccWrites.AbortIsFinal | src/transaction/transaction_manager.cpp:12-13 | after its abort a transaction takes no step, and no reader ever counts its records as committed |
| MvccReads.RestampInvisible | include/transaction/transaction_context.hpp:56-60 | reads and conflict tests of a running transaction come out the same however far any commit has restamped |
| MvccReads.RestampStepInvisible | include/transaction/transaction_context.hpp:56-60 | so a commit restamped record by record reads as if it were stamped at once |
| MvccTable.MergeChunks | include/access/chunk_utils.hpp:56-69 | the nested loops with break give the chunk the saved values of the columns it has |
| MvccTable.DataChunk.Write | include/access/data_chunk.hpp:124-133 | writes the column it finds |
| MvccTable.Table.UpdateSingle | include/access/chunk_utils.hpp:41-54 | saves the row's values of the chunk's columns and overwrites them; other rows unchanged |
| MvccTable.Table.UpdateUndo | src/access/table.cpp:25-57 | on records and pointers: the row becomes the updated row if and only if the test allows it |
| MvccTable.Table.DeleteUndoRaw | src/access/table.cpp:122-148 | the raw delete: a delete record in front, page untouched |
| MvccTable.Table.Delete | src/access/table.cpp:153-199 | the delete under the page lock: record, and the row's deletion bit and no other |
| MvccTable.Table.Insert | src/access/table.cpp:80-115 | a new row with an insert record as its only version |
| MvccTable.Table.SelectIntoChunk | src/access/table.cpp:203-242 | the walk along the pointers gives the read of the row the page stands for |
| MvccTable.Table.RestampVersions | include/transaction/transaction_context.hpp:56-60 | all records of the transaction on the page get the commit time, no others |
| MvccTable.RestampLoopIsSteps | include/transaction/transaction_context.hpp:56-60 | the loop is a run of single restamp steps |
| MvccUnique.UniqueTestExact | include/transaction/transaction_context.hpp:115-135 | the uniqueness test passes if and only if the row's delete is the tester's own or was committed before it began |
| MvccUnique.PassedTestLostIff | include/transaction/transaction_context.hpp:115-135 | of all steps that do not end the tester, just two kinds undo a passed test: an update of the row, and a page delete of it by another |
| MvccUnique.PassedTestsStayIff | include/access/index/btree.hpp:505-568 | over any steps of any transactions while the tester runs, a passed test stays passed all along if and only if none of these undoes it |
| MvccUnique.ClearedForGood | include/transaction/transaction_context.hpp:115-135 | that a row was deleted for the tester, and has not been updated since, survives every step but an update of the row, also after the tester's end |
| MvccUnique.OneLiveIff | include/access/index/btree.hpp:505-568 | over any run of inserts through the index and any other steps, no key ever has two live rows if and only if no deleted row is ever updated while another row of its key is live |
| MvccUnique.SecondLiveIff | src/access/table.cpp:42-46 | a single row step gives a key its second live row if and only if it is such an update |
| MvccUnique.RunsUnique | include/access/index/btree.hpp:505-568 | in runs that update no replaced row: of two rows of a key, one was deleted, by the other's inserter or by a commit before it began, and not updated since |
| MvccUnique.OneSeen | include/access/index/btree.hpp:505-568 | in runs that update no replaced row, no snapshot holds two live rows of a key |
| MvccUnique.TwoLive | src/access/table.cpp:42-46 | a run with a committed raw delete, an insert of the key and an update of the deleted row, in which the key has two live rows and its writer sees both |
| MvccUnique.GetTidForModify | include/transaction/transaction_context.hpp:137-158 | of the rows in index order the first that is not deleted for good: found, or in conflict; none if and only if all are deleted for good |
| MvccUnique.ModifyStaysSafe | include/transaction/transaction_context.hpp:137-158 | what was found is not deleted at the later write, or the write is refused |
| UniqueIndex.InvAt | include/access/index/btree.hpp:505-568 | in every run of the tree's page operations and the row steps together, every stored key has its row, and who inserts is running and has inserted the row; the rows a walk has tested stay deleted for its owner in runs that update no row between its test and the end of the walk |
| UniqueIndex.JointRefines | include/access/index/btree.hpp:505-568 | every such run is a run of the index that takes an entry in one step |
| UniqueIndex.TestsHoldAtEntry | include/access/index/btree.hpp:529-567 | in such runs, when the entry goes in, every stored key with its columns is of a row that is deleted for the inserter, though the leaves were tested one after the other |
| UniqueIndex.OneLiveIff | include/access/index/btree.hpp:505-568 | in every run, no two stored keys with equal columns are ever of live rows if and only if no deleted row is updated beside a live one and no entry goes in beside one |
| UniqueIndex.EntryIsAlone | include/access/index/btree.hpp:529-567 | the second does not happen in runs that update no row between its test and the end of the walk |
| UniqueIndex.OneSeen | include/access/index/btree.hpp:505-568 | no snapshot holds two live rows with equal columns, in runs that update neither such a row nor a replaced one |
| UniqueIndex.InsertsOrConflicts | include/access/index/btree.hpp:505-568 | over any run, a unique insert of a key ends with just that key added, or without a change while some stored key with its columns is of a row that fails the test at that moment |
| UniqueIndex.WalkCanMove | include/access/index/btree.hpp:530-567 | in every run a walk can go on, unless the next leaf is latched by another or its key is stored already |
| UpdateRace.UnmovedIsUpdate | src/access/table.cpp:37-56 | saving the old values and swapping the version pointer, with the head unmoved in between, is the update in one step |
| UpdateRace.SwapExact | src/access/table.cpp:37-56 | after a successful swap the saved values lead back to the old row if and only if the head has not moved since it was first read, or the update changes nothing |
| UpdateRace.RefuseExact | src/access/table.cpp:42-47 | a refusal on a retry leaves the row right if and only if the update changes nothing |
| UpdateRace.RetryIff | src/access/table.cpp:39-47 | after the head has moved, the retry goes on if and only if the newest record is the updater's own and the deletion bit is not set |
| UpdateRace.RowsRightIff | src/access/table.cpp:25-57 | over any run of any number of updates, raw deletes and commits: all rows at rest lead back to their older images in every state if and only if no update of other values finishes after its head has moved |
| UpdateRace.UnspoiltIsAtomic | src/access/table.cpp:59-75 | then the rows go through steps of the machine with one-step updates, and readers, who wait for the page latch, read its rows |
| UpdateRace.RefusedButRead | src/access/table.cpp:42-47 | a run in which an update meets a raw delete and is refused, and its writer then reads the value it was refused |
| PoolSafety.StepKeeps | src/storage/buffer_pool/buffer_pool.cpp:37-154 | every step of every thread keeps the pool invariant, whether GetVictim tests and takes a frame in one step or in two |
| PoolSafety.RunKeeps | src/storage/buffer_pool/buffer_pool.cpp:37-154 | so every run does |
| PoolSafety.LatchStep | src/storage/buffer_pool/buffer_pool.cpp:44-46 | finding a frame evictable and keeping its latch keeps the invariant |
| PoolSafety.TakeStep | src/storage/buffer_pool/buffer_pool.cpp:46-56 | taking the latched frame keeps the invariant, also when others have pinned it since it was tested, and when it held the wanted page |
| PoolSafety.PutDone | include/storage/buffer_pool/buffer_partitions.hpp:39-46 | a successful Put settles the page in its frame |
| PoolSafety.StaleStep | include/storage/buffer_pool/buffer_partitions.hpp:48-56 | removing the victim's old entry leaves map and frames agreeing |
| PoolSafety.UndoStep | src/storage/buffer_pool/buffer_pool.cpp:67-73 | giving a claim back leaves map and frames agreeing |
| PoolTheorems.MapMatchesFrames | src/storage/buffer_pool/buffer_pool.cpp:101-147 | in every run an unclaimed frame holds a page if and only if the map sends the page to it |
| PoolTheorems.NoPageTwice | src/storage/buffer_pool/buffer_pool.cpp:101-147 | in every run no page is settled in two frames |
| PoolTheorems.PinsConserved | include/storage/page.hpp:67-70 | in every run a frame's count is the number of outstanding pins |
| PoolTheorems.SafePinHolds | src/storage/buffer_pool/buffer_pool.cpp:75-95 | a pin keeps its page until released if, when the page was found, no sweeper had latched the frame for another page and no undoable claim would give it back to another |
| PoolPins.UsesWhatItHolds | src/storage/buffer_pool/buffer_pool.cpp:88-94 | in every run, whenever a thread begins to use a frame, the frame holds the page it wants |
| PoolPins.PinGives | src/storage/buffer_pool/buffer_pool.cpp:101-147 | over any run, a thread that asks for a page and comes to use a frame has its pin counted on a frame that holds this page |
| PoolPins.MissedVisit | src/storage/buffer_pool/buffer_pool.cpp:88-97 | a visit that finds another page leaves the frame its page, flags and the pins of the others |
| PoolPins.VisitUndone | src/storage/buffer_pool/buffer_pool.cpp:88-97 | with nothing in between it leaves frames and map as they were |
| PoolPins.RefusedGoesOn | src/storage/buffer_pool/buffer_pool.cpp:138-146 | with nothing in between, a refused claim is given back and the page pinned in the frame that has it, or looked up again |
| PoolPins.ResidentPinned | src/storage/buffer_pool/buffer_pool.cpp:108-117 | a page in its frame is pinned there, with one more pin and no other change |
| PoolPins.VictimWasFree | src/storage/buffer_pool/buffer_pool.cpp:44-46 | a frame is found for a claim only if it is not pinned, not dirty, not being read, and neither latched nor claimed by another |
| PoolPins.RunsMark | src/storage/buffer_pool/buffer_pool.cpp:49-51 | in every run a claimed frame is marked as being read |
| PoolPins.UndoGivesBack | src/storage/buffer_pool/buffer_pool.cpp:67-73 | over any run, a claim that is undone gives the frame back with the page it held when it was taken, no read under way, and the pins of the others |
| PoolPins.CanMoveIff | src/storage/buffer_pool/buffer_pool.cpp:37-147 | in every run a thread can go on if and only if it is not looking for a frame, or there is one to take |
| PoolTheorems.TakingSwitches | src/storage/buffer_pool/buffer_pool.cpp:46-56 | a sweeper that has latched a pinned frame for another page can always move, and its next step writes that page |
| PoolTheorems.UndoSwitches | src/storage/buffer_pool/buffer_pool.cpp:67-73 | so can a claim that goes back to another page |
| PoolTheorems.PutSettles | src/storage/buffer_pool/buffer_pool.cpp:119-131 | a claim for the pinned page that Put accepts makes the pin safe |
| PoolTheorems.PinLostIff | src/storage/buffer_pool/buffer_pool.cpp:75-95 | the others can take the page from a pin only if somebody was about to change it when it was found, and then they can; only for a claim of a page not in the map yet that needs a third thread and a frame |
| PoolTheorems.SwitchesIffVictimInTwoSteps | src/storage/buffer_pool/buffer_pool.cpp:46-60 | some pin that is not on an undoable claim can lose its page if and only if GetVictim tests and takes the frame in two steps |
| PoolTheorems.SlipRun | src/storage/buffer_pool/buffer_pool.cpp:67-95 | also with an atomic GetVictim, a pin through an outdated frame number can land on a claim that is undone |
| BufferPool.BufferPartitions.Get | include/storage/buffer_pool/buffer_partitions.hpp:32-37 | the frame of the page, or not found |
| BufferPool.BufferPartitions.Put | include/storage/buffer_pool/buffer_partitions.hpp:39-46 | insert if absent, and the frame the page has now |
| BufferPool.BufferPartitions.Delete | include/storage/buffer_pool/buffer_partitions.hpp:48-56 | removes the entry only if it still names the frame |
| BufferPool.BufferPool.GetVictim | src/storage/buffer_pool/buffer_pool.cpp:37-65 | the sweep goes on from where it stood, across the 32-bit wrap of its counter, to the first evictable frame, takes it, and stops behind it |
| BufferPool.BufferPool.PageVisit | src/storage/buffer_pool/buffer_pool.cpp:75-95 | pins if the frame still holds the page, else leaves it as it was |
| BufferPool.BufferPool.Pin | src/storage/buffer_pool/buffer_pool.cpp:101-147 | the page where it was with one more pin, or in an evicted frame with the old entry gone; map and frames agree |
| BufferPool.BufferPool.Reserve | src/storage/buffer_pool/buffer_pool.cpp:156-177 | a new page gets an evicted frame without a read |
| BufferPool.BufferPool.Unpin | src/storage/buffer_pool/buffer_pool.cpp:149-154 | one pin less |
| OptimisticLock.StepKeeps | include/shared/thread_local_util.hpp:64-108 | every step of lock, read, write and unlock keeps the invariant |
| OptimisticLock.RunKeeps | include/shared/locks/adaptive_version_lock.hpp:15-37 | so every run does |
| OptimisticLock.SectionConsistent | include/shared/thread_local_util.hpp:86-108 | when Unlock returns true, everything read since Lock is one content, the one the page has still |
| OptimisticLock.EntersIff | include/shared/thread_local_util.hpp:69-84 | a thread that looks at the version enters its section if and only if nobody is writing the page, and else counts a failed try; it takes no lock |
| OptimisticLock.CountsIff | include/shared/thread_local_util.hpp:96-107 | over any run, the Unlock of a section without a lock returns true if and only if no write of its page has begun since it was entered; then it leaves the tries as they were, and else adds one |
| OptimisticLock.OptimisticHoldsNothing | include/shared/thread_local_util.hpp:69-84 | such a section holds no lock of any page |
| OptimisticLock.ReadsLastWritten | include/shared/locks/adaptive_version_lock.hpp:15-37 | a read sees what was last written to the page |
| OptimisticLock.ClearForgets | include/shared/thread_local_util.hpp:22-26 | once a thread has cleared its state, its next section is without a lock again |
| OptimisticLock.NoWriteUnderway | include/shared/thread_local_util.hpp:86-108 | no write to the page is under way then |
| OptimisticLock.SharedLocksPaired | include/shared/thread_local_util.hpp:69-95 | a thread holds the shared lock if and only if it is inside a section that will release it |
| OptimisticLock.FailsOnce | include/shared/thread_local_util.hpp:96-101 | after a failed section, until the thread clears its state, it is inside a section only with the shared lock, and Unlock returns true |
| OptimisticLock.WritersAlone | include/shared/locks/adaptive_version_lock.hpp:15-27 | a writer excludes other writers and shared sections |
| Pax.AllFits | src/storage/layouts/pax.cpp:17-36 | for power-of-two sizes whose padding leaves room, all columns of all rows end within the page |
| Pax.RowsExact | src/storage/layouts/pax.cpp:17-27 | n rows, with a bit each and the padding of the worst case, have room on the page if and only if n is at most the row count |
| Pax.CellsApart | src/storage/layouts/pax.cpp:52-54 | cells are aligned, lie behind the bitmap and within the page, and are pairwise disjoint |
| Pax.PaxLayout.constructor | src/storage/layouts/pax.cpp:12-36 | the loops compute the row count and the column starts |
| Pax.PaxLayout.CalcOffset | src/storage/layouts/pax.cpp:52-54 | the offset of the cell |
| Pax.PaxLayout.Update | src/storage/layouts/pax.cpp:60-70 | writes one cell; every other cell, the deletion bits and the header stay |
| Pax.PaxLayout.Get | src/storage/layouts/pax.cpp:78-81 | reads the cell |
| Pax.PaxLayout.Delete | src/storage/layouts/pax.cpp:72-76 | sets one row's bit; other bits, header and cells stay |
| Pax.PaxLayout.IsDeleted | src/storage/layouts/pax.cpp:83-87 | the row's bit |
| Pax.PaxLayout.IncrementHeaderCount | src/storage/layouts/pax.cpp:43-50 | returns the old count and adds to it; the rest of the page stays |
| Pax.OrBitOk | src/storage/layouts/pax.cpp:72-76 | or-ing one bit into a number changes that bit only |
| Pax.BitIs | src/storage/layouts/pax.cpp:83-87 | bit k of a byte is its binary digit for 2^k |
| Pax.OrBitAdds | src/storage/layouts/pax.cpp:72-76 | or-ing a bit in adds 2^k if it was clear and nothing if it was set |
| UndoBuffer.IterationExact | include/storage/undo_buffer.hpp:132-184 | begin to end visits each record once in allocation order if and only if the size read behind each record makes up its portion |
| UndoBuffer.InsertReadsOn | include/storage/undo_buffer.hpp:154-166 | one INSERT with anything but zeros behind it: the iterator does not reach the end after it |
| UndoBuffer.UndoBuffer.NewEntry | include/storage/undo_buffer.hpp:120-130 | the portion is behind the others of the last segment, or first in a new one if and only if it has no room left |
| UndoBuffer.UndoBuffer.WriteRecord | include/storage/undo_buffer.hpp:46-87 | the record reads back with its type, no next one, its timestamp and its row; nothing below it is written |
| UndoBuffer.ReadBack | include/storage/undo_buffer.hpp:26-30 | eight bytes written as a number are read as that number |
| UndoBuffer.UndoBuffer.UndoRecordForUpdate | include/transaction/transaction_context.hpp:98-104 | the last record of the buffer is an UPDATE with the transaction's timestamp, the row and the chunk's header behind it; all bytes that were in use are as they were, and the iteration is as right as it was |
| UndoBuffer.UndoBuffer.UndoRecordForInsertOrDelete | include/transaction/transaction_context.hpp:84-96 | the same for an INSERT or DELETE without a chunk; the iteration stays right if and only if the word behind it happens to be zero |
| UndoBuffer.UndoBuffer.RestampVersions | include/transaction/transaction_context.hpp:56-60 | the iterator loop stamps every record and changes nothing but timestamps |
| UndoBuffer.FixedBumpArena.Allocate | include/shared/arena/fixed_bump_arena.hpp:26-31 | bumps by the size rounded up to eight |

## Left out

- BLinkExact.LostWriteBreaks: which page of the level takes a lost separator is left open, as a leaf's fences are read there in the format of inner pages; nothing is said about the tree after it.
- BLinkOps.WriterDoesOneThing: keys carry the row's identifier, so an insert is of a key that is not stored; one that is, and a delete of a key that is not, for which the code has an assertion (include/access/index/layouts/varlen/varlen_layout_leaf.hpp:404-405), stop at the leaf.
- BLinkSteps: whether a page has room is left open in the concurrent model, so the results hold for every page size; room is treated in SplitSpace, SeparatorCap and BTreeIndex.
- MvccTable.Table.UpdateUndo: the method is one thread's, so its swap always succeeds; the swap that fails, and the retry on values already overwritten, are in UpdateRace.
- UpdateRace: loading the head, testing it and saving the old values are one step, as only raw deletes and restamps can come in between; the data latch is one per row rather than per page, which allows more.
- PoolSteps: Reserve follows the same claim steps and is modelled in the sequential class only; UndoState is one step under its latch.
- KeyEncoding.TextKeeps: which code points a string decomposes and folds into is utf8proc's; a string is the list of these, without NUL, and its errors for malformed input are not modelled.
- KeyEncoding.BuildKey: strings of more than twelve bytes are stored out of line, and the code reads the inline bytes all the same; the model starts from the code points.
- OptimisticLock: the version counter is unbounded, so its wrap at 64 bits is not captured.
- BTreeIndex.BTreeIndex.DropToLeaf: the stack of passed pages is unbounded, the code's holds 16. The buffer pool between the index and its pages is not part of this class; BufferPool models it by itself.
- SlottedPage.SlottedPage: header fields are fields of the class rather than the first 20 bytes of the page; the two padding bytes of an inner entry are written as zeros.
- PageImage.Abs: the child stored with a high fence is not part of the node; nothing reads it.
- Mvcc: record owners and row histories are for the proofs only; transaction and commit times stay below 2^63.
- UniqueIndex: the rows of one leaf are tested in one step, which ClearedForGood makes as good as one after the other; all inserts into the index are unique ones.
- MvccUnique.RunsUnique: nothing is said of runs that update a row after another has replaced it, beyond OneLiveIff; TwoLive is such a run.
- Rollback and garbage collection: the code has only a flag for aborts; an aborted transaction is one that never commits.
- Disk manager, I/O scheduling, file cache: a page read is a later step that clears the I/O flag.
- Catalog, schema and chunk builders, printing, log records, object pool reuse and free-space managers: plumbing; page ids for new pages are fresh by assumption.
- C++ memory ordering and the ownership of key buffers: memory is sequentially consistent and separators are values.
- Liveness: retry loops are modelled step by step; that they end under contention is not claimed.
