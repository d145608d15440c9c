# ShibaDB in Dafny

A model of the storage core of ShibaDB, an embedded database, with proofs of what it keeps and what it
promises. The tree, the batches, the pager and its log, the page cache and the engine are classes whose
methods take the steps the C code takes; group commit and file replacement are state machines over their
atomic steps; encodings and checksums are functions, with the loops that compute them as methods.

`dafny verify dfyconfig.toml` checks everything.

## How the parts fit

* **Tree** (`Keys`, `Shape`, `Nodes`, `Splits`, `Room`, `PageTxn`, `Trees`, `Reclaim`, `Refusals`, `Growth`,
  `Commits`, `Batches`, `Stores`, `CrowdedTree`). Keys are mapped to reals in `[0, 1)` so that byte order becomes
  `<`. `Shape` says what a tree is: every page has an interval, a height and a parent, and the children of a page
  divide its interval. It proves that each local change (split, new root, dropped leaf, merge, renamed page,
  collapsed root) keeps the shape and what the tree holds. `Batches` carries the changes out on pages: every put and
  delete makes the expected change to the map of contents, keeps every page either in the tree or on the free chain,
  and never fails by blaming the tree itself. `Growth` and `Refusals` say from the pages and the free pages alone
  which puts and deletes are refused, what a put makes of the pages, and that no leaf is left empty. `Stores` puts
  whole batches on top, all or nothing.
* **Reading the tree** (`Graphs`, `Verifiers`, `Cursors`, `Listing`). The structural check, the lookup and the
  scan over arbitrary decoded pages, and the proof that every committed tree passes the check and lists its
  contents in key order.
* **Pages on disk** (`Durability`, `GroupCommit`, `Replacing`, `PageCaches`, `ProbeTable`, `Polynomials`,
  `Checksums`, `CrcTables`, `Codec`, `LittleEndian`). What a crash may leave of the log, the data file and the superblock, and what
  recovery makes of it; the group-commit protocol; the replacement of the data file; the CLOCK cache over a
  linear-probing table with backward-shift deletion; sliced and zeroed-range CRC-32 as the
  remainder of a polynomial division; the node format.
* **Engine** (`Rows`, `RowSteps`, `CompositeKeys`, `Reads`, `Scans`, `Compaction`, `Engines`,
  `Generations`). Objects in chunks under generations, secondary indexes with reverse rows and unique guards,
  transactions, cursors, compaction and the rewrite of older keys, each against a model of objects and indexes;
  generations over the whole life of a store.

## Findings

**Replacing a data file can lose a log.** The removal of the old log (src/replace.c:178-183) relies on the
rename before it being on disk. That is so when the directory sync after the rename
(src/engine.c:4225 for backup, src/engine.c:4489 for compaction) has succeeded. It is not so in two cases: the
process is killed between the rename and that sync, so that the next open finds the marker and the renamed
file and finishes (src/replace.c:257-262) without syncing the directory first; or the sync fails and the program
goes on to remove the log anyway (src/engine.c:4230-4235, src/engine.c:4488-4555). A system crash that then
keeps the removal and forgets the rename leaves the old file without its log, and recovery opens it.

* `CrashSafe`: from a reachable state, no crash does harm if and only if the rename and the removal of the log
  are not both waiting for a directory sync.
* `Replaced`: without those two events, every run, with any number of replacements, kills and crashes, ends
  up open for use with the old file and its log or another file and no log, and with no marker.
* `HazardLoses`: after each such event there is a continuation that ends open for use without the log.
  `HazardArises`: both events can happen in every replacement of a file with a log.

**A delete can be refused for want of room.** When an internal node that is left with one child shares
children with its sibling, the separator that moves up may be longer than the one it replaces, and the parent
may then no longer fit its page (src/btree.c:504-512). The delete answers buffer-too-small, the batch fails and
nothing is stored. A put is different: `Room` proves that puts of entries that take at most half a page never
fail for want of room in a page.

* `Batches.Batch.Delete`: at every capacity a page can have (include/shibadb.h:22), a key that is there is refused
  if and only if `DeleteRefused` holds of the pages before the call; every other delete of it succeeds.
  `DeleteRefused` follows the way of the key: its leaf holds nothing else and was not allocated by this transaction,
  and upwards from it each page is left with one child and joins its sibling, until one is too large to join and the
  best cut moves up a key for which the parent has no room.
* `RefusalArises`: for every page capacity from 60 to 65536 bytes there is a committed tree, with no entry above
  half of the room, whose only entry cannot be deleted.
* `SeparatorDecides`: with such entries a cut always exists, so the length of the new separator alone decides.

**A batch can commit an empty leaf.** A leaf that runs empty leaves the tree, unless its page was allocated by the
same transaction (src/btree.c:1423-1425). `Batches.Batch.Delete` states both cases exactly; `Tidier` is the law over a
batch: every empty leaf but the root was empty before or was allocated by the batch. So trees that are changed by
single operations, or by batches of puts only or deletes only, have none (`Stores.BTree.Put`, `Delete`, `Apply`).

**Comments that the code does not follow.** The comment on recovery speaks of skipping transactions up to the
checkpoint; the scan stops at the first transaction that does not carry the next number (src/wal.c:1051-1504),
and the model does that. A comment in object deletion calls the deletion of a row idempotent; the tree answers
not-found for a missing key (src/btree.c:1369-1471), and the model does that.

## Model

| member | source | states |
|---|---|---|
| Keys.RankIsOrder | src/btree.c:15-31 | mapping keys to reals turns the byte order of the comparison into `<`, and different keys into different reals |
| Keys.Compare | src/btree.c:15-31 | the loop answers negative, zero or positive exactly as one key is before, equal to or after the other |
| Nodes.LowerBound | src/btree.c:214-234 | the binary search finds the place that divides the entries at the key |
| Nodes.Route | src/btree.c:214-242 | the child entered is the one whose interval holds the key |
| Nodes.LeafPut | src/btree.c:663-728 | the leaf stays sorted and its view is the old one with the key mapped to the new value; entries are inserted or replaced in one place |
| Nodes.ChildRemoved | src/btree.c:244-265 | taking a child out of a node removes exactly its separator from the view and keeps the order |
| Nodes.SepInserted | src/btree.c:730-765 | inserting a separator and its child between two others adds exactly that to the view |
| Splits.LeafSplitPoint | src/btree.c:767-810 | the cut returned is admissible, no admissible cut has a smaller larger side, and no earlier one an equal; zero only if no cut is admissible |
| Splits.InnerSplitPoint | src/btree.c:867-910 | the same for internal nodes, where the middle entry moves up |
| Splits.BestUnique | src/btree.c:767-910 | so the cut is a function of the node and the room |
| Splits.SplitExists | src/btree.c:767-965 | an overflowing node with no entry above half of the room and not much too large has an admissible cut |
| Splits.GrownSplits | src/btree.c:767-965 | a node that fitted and gained or changed one entry fits or can be cut, if no entry takes more than half of the room |
| Room.GrownStorable | src/btree.c:967-1051 | such a node is also valid for the encoder, so it can be stored in one page or two |
| PageTxn.Txn.constructor | src/pager.c:1479-1492 | a new transaction has taken nothing and sees the committed free chain |
| PageTxn.Txn.Allocate | src/pager.c:1565-1675 | hands out the head of the free chain, else the next page; the page was not taken before; refuses only at the limit |
| PageTxn.Txn.FreePage | src/pager.c:1677-1780 | puts a page of the file that is not free at the head of the free chain, and refuses every other |
| PageTxn.Txn.ReadLink | src/pager.c:1590-1640 | the link of the first free page is the next page of the chain, from this transaction's record or from disk |
| PageTxn.Txn.Put | src/pager.c:1494-1563 | a page is recorded once and only if it is in the file and fits |
| PageTxn.Txn.Commit | src/pager.c:1801-1900 | succeeds exactly when there is a record and every page taken has one; the disk is overlaid with the records |
| PageTxn.OverlayChain | src/pager.c:1677-1780 | after the commit the free chain is linked on disk as it was in the transaction, and pages off the chain are untouched |
| Shape.SetLeaf | src/btree.c:663-728 | changing what a leaf holds keeps the shape of the tree |
| Shape.SplitLeaf | src/btree.c:767-865 | splitting a leaf keeps the shape and what the tree holds |
| Shape.SplitInner | src/btree.c:867-965 | splitting an internal node keeps both, with the grandchildren under their new parent |
| Shape.GrowRoot | src/btree.c:1321-1361 | a new root over both halves of the old one keeps both |
| Shape.DropAfter | src/btree.c:529-661 | dropping an empty leaf that is not a first child keeps both; the leaf before it takes its interval and link |
| Shape.DropFirst | src/btree.c:529-661 | dropping an empty first child keeps both; the next child takes its interval |
| Shape.Merge | src/btree.c:416-446 | joining two neighbours keeps both |
| Shape.Rename | src/btree.c:419-432 | moving a node to another page keeps both |
| Shape.Collapse | src/btree.c:621-644 | the only child of the root becoming the root keeps both |
| Shape.Shallow | src/btree.c:1369-1400 | a tree whose internal nodes branch and whose pages are below 2^n is lower than n |
| Trees.HeightBound | src/btree.c:1369-1400 | with 64-bit page ids no tree reaches the depth of 64 at which the walks give up |
| Batches.Batch.constructor | src/btree.c:1199-1216 | a batch begins with the committed tree and its contents |
| Batches.Batch.Get | src/btree.c:1218-1290 | answers from the contents as changed so far: the value, not-found, or buffer-too-small with the size |
| Batches.Batch.Put | src/btree.c:1292-1367 | the contents gain exactly this entry; the answer, the pages of the tree and the free pages afterwards are exactly those that follow from the pages before; overflow only when no free page is left; no leaf is left empty; a failure is remembered and refuses the rest; with small entries only the page limit can refuse |
| Batches.Batch.InsertRecursive | src/btree.c:967-1051 | below a page, the entry is put and the page stored, or split with the new separator handed up |
| Batches.Batch.Settle | src/btree.c:1010-1050 | a grown node is stored in its page or split; small entries always find room |
| Batches.Batch.SplitLeafPage | src/btree.c:767-865 | both halves stored in two pages, the separator and the right page returned, the contents unchanged |
| Batches.Batch.SplitInnerPage | src/btree.c:867-965 | the same for an internal node |
| Batches.Batch.GrowTree | src/btree.c:1321-1361 | the root page becomes the parent of its old left half and the right half |
| Growth.PutFits | src/btree.c:1033-1040 | a put whose grown leaf fits its page succeeds, changes nothing else and takes no page |
| Growth.OverflowMeans | src/pager.c:1643-1651 | a put is refused for want of pages only if fewer are left than the tree has levels, and one; then none is left |
| Growth.PutFills | src/btree.c:1292-1367 | a put leaves no leaf empty that was not empty before |
| Growth.HalvesStorable | src/btree.c:767-965 | both halves of an admissible cut can be stored |
| Batches.Batch.Grab | src/pager.c:1565-1675 | the head of the free chain, else the next page of the file; overflow exactly when the chain is empty and the file at its limit |
| Batches.Batch.Delete | src/btree.c:1369-1471 | not-found exactly when the key is absent, and then nothing changes; else the contents lose exactly this key, or the pages before the call say that it is refused for want of room, exactly then; a leaf that runs empty leaves the tree and is free, unless it is the root or was allocated by the transaction, and else only this leaf changes; small entries stay small |
| Batches.Batch.Descend | src/btree.c:1380-1471 | reaches the leaf whose interval holds the key and remembers pages and slots of the path |
| Batches.Batch.ReclaimLeaf | src/btree.c:529-661 | an empty leaf is not in the tree any more: the leaf before it is linked past it, its page freed, its parent settled; no other leaf changes its entries; refused exactly when the pages above it say so |
| Batches.Batch.Relink | src/btree.c:544-600 | the leaf linked past the empty one is the one whose interval ends where its begins, found by the path; none only if the empty leaf is the first |
| Batches.Batch.ReclaimInternal | src/btree.c:267-527 | a page with one child is joined with its sibling or shares its children, and parents likewise up to the root; the contents are unchanged; refused exactly when the pages above it say so |
| Batches.Batch.MergeInternal | src/btree.c:416-446 | the joint node replaces both, and the parent loses a child or is dealt with in turn |
| Batches.Batch.ShareInternal | src/btree.c:447-516 | both pages and the separator between them are stored anew, cut at the best place; buffer-too-small exactly when there is no cut or the parent has no room for the key that moves up |
| Batches.Batch.CollapseRoot | src/btree.c:621-644 | the only child of the root becomes the root and its page is freed |
| Growth.DeletedTidier | src/btree.c:1423-1446 | after a delete every empty leaf but the root was empty before or was allocated by the transaction |
| Growth.TidierStill | src/btree.c:1423-1446 | and so it is after any run of operations of a batch |
| Refusals.OneWay | src/btree.c:1369-1400 | a key has one way from the root to a leaf |
| Refusals.DeleteDecided | src/btree.c:1369-1471 | so whether its delete is refused is decided by the pages on that way |
| Refusals.RefusedKept | src/btree.c:267-527 | changes below a page of the way do not change what the pages above it decide |
| Refusals.DropDecided | src/btree.c:602-661 | taking out the leaf hands the decision to the page that is left with one child |
| Refusals.ShareDecided | src/btree.c:447-516 | sharing is possible if and only if the best cut is one and the parent fits with its key |
| Refusals.SeparatorDecides | src/btree.c:447-516 | with entries of at most half the room there is a cut, and the new separator alone decides |
| CrowdedTree.NoRoom | src/btree.c:447-516 | two nodes of small entries whose only cut moves up a key that the parent has no room for |
| CrowdedTree.RefusalArises | src/btree.c:1369-1471 | for every page capacity there is a committed tree of small entries and a key in it whose delete is refused |
| Batches.Batch.Commit | src/btree.c:1473-1506 | a sound batch yields a committed tree with its contents; an empty one changes nothing; a failed one answers its failure |
| Stores.BTree.constructor | src/btree.c:1053-1102 | a new tree is one empty leaf with no contents |
| Stores.BTree.Get | src/btree.c:1125-1197 | answers from the committed contents |
| Stores.BTree.List | src/btree.c:1645-1811 | lists exactly the committed entries from a key on, in key order |
| Stores.BTree.Put | src/btree.c:1519-1543 | one entry is put, or nothing changes; the answer is exactly the one that follows from the pages; overflow only if fewer pages are left than the tree has levels, and one; no leaf is left empty |
| Stores.BTree.Delete | src/btree.c:1545-1563 | one entry goes, or nothing changes; not-found and buffer-too-small exactly for the keys and trees that call for it; an emptied leaf is free afterwards, and no leaf is left empty |
| Stores.BTree.Apply | src/btree.c:1199-1506 | a batch of puts and deletes has the effect of all of them in order, or none; puts alone and deletes alone leave no leaf empty |
| Verifiers.Verifier.VerifyNode | src/btree.c:1967-2054 | accepts a page exactly as a layout fits it: intervals, one depth for all leaves, linked leaves, no page twice |
| Cursors.Verify | src/btree.c:2056-2148 | accepts if and only if the pages form a tree; then the marks are exactly its pages and the counts are right |
| Cursors.Lookup | src/btree.c:1125-1197 | on accepted pages, finds the value of the key or answers that no leaf has it |
| Cursors.Cursor.Next | src/btree.c:1718-1811 | moves to the next entry of the listing, over empty leaves too |
| Cursors.Scan | src/btree.c:1565-1811 | from a key on, reads exactly the rest of the listing |
| Listing.CommittedListing | src/btree.c:2056-2126 | every committed tree is accepted by the check, and its leaves list its contents |
| Listing.PagesPartition | src/btree.c:2056-2126 | the pages the check reaches and the pages of the free chain are all pages of the file, none is both, none twice |
| Listing.ReadableIsTree | src/btree.c:51-79 | the pages that decode to nodes are exactly the pages of the committed tree |
| GroupCommit.InvKept | src/pager.c:2178-2343 | every step of every thread keeps the invariant |
| GroupCommit.Safety | src/pager.c:2255-2294 | in every reachable state: one leader at most, durable at most written, and everything acknowledged was in the log before a completed sync began |
| GroupCommit.AckedSurvives | src/pager.c:2212-2294 | no crash that leaves at least the synced log loses an acknowledged transaction |
| GroupCommit.RunGrows | src/pager.c:2255-2294 | no watermark ever moves back, written, durable, synced or appended; what is acknowledged stays so; after a failed sync the durable watermark never moves again |
| GroupCommit.FailedOnce | src/pager.c:2244-2252 | commits are refused only after a sync has failed |
| GroupCommit.RefusedOnce | src/pager.c:2255-2294 | a committer is told of a failure only after a sync has failed |
| GroupCommit.HarmedOnce | src/pager.c:2296-2343 | the pager asks for recovery only after a write, a sync or a checkpoint has failed |
| GroupCommit.SyncServes | src/pager.c:2212-2294 | after a sync that succeeds, in every later state, all that was published when it began is durable, and every committer of it, followers included, has been told so or is told so when it looks next |
| GroupCommit.LeaderTakes | src/pager.c:2212-2218 | a leader takes everything that is published when it begins, its own transaction included |
| GroupCommit.WritesFreely | src/pager.c:2193-2211 | a thread writes a transaction to the log without waiting for anyone, whether or not another is syncing |
| GroupCommit.PublishesFreely | src/pager.c:2193-2211 | and so it publishes it |
| GroupCommit.FinishAcks | src/engine.c:4684-4737 | a commit that is answered well is acknowledged, and goes on to empty a log that is due |
| GroupCommit.NoSyncMeanwhile | src/pager.c:2296-2343 | no step that empties, replaces or closes the log happens during a sync, and outside the drain none happens while a commit is in flight |
| GroupCommit.CountIsWindow | src/engine.c:4684-4737 | the in-flight counter is the number of threads between taking a ticket and coming back |
| GroupCommit.Helper | src/pager.c:2255-2294 | whoever waits on the condition variable waits for a thread that can move without the engine mutex |
| GroupCommit.NoDeadlock | src/engine.c:4684-4737 | while any thread is busy some busy thread can move |
| GroupCommit.DrainShrinks | src/pager.c:2296-2343 | every step that others take while a thread drains brings it nearer to its end |
| GroupCommit.DrainEnds | src/pager.c:2296-2343 | so draining lasts a bounded number of steps |
| GroupCommit.DrainDone | src/pager.c:2325-2336 | once nobody is left unanswered, a thread that drains goes on to empty the log |
| Durability.CrashRecovers | src/wal.c:1051-1504 | whatever a crash leaves, replay yields the pages after some transaction that is not older than the last one on disk |
| Durability.ImageInside | src/pager.c:1494-1563 | after any run of transactions every page has an id above zero and below the next page id |
| Durability.Pager.Read | src/pager.c:1157-1320 | cache, log index or data file: the committed page if there is one; ids outside the file and a pager that needs recovery are refused |
| Durability.Pager.Evict | src/page_cache.c:257-274 | forgets exactly this cached page, which changes no read |
| Durability.Pager.Commit | src/pager.c:1801-2142 | a commit that lands extends the history by one transaction and, if synced, is safe from crashes; one that fails has landed or torn, and blocks the pager; what was safe stays safe |
| Durability.Pager.Checkpoint | src/pager.c:742-973 | for every outcome of its I/O steps: it answers done exactly when all succeed; the superblock moves exactly when it is stored behind synced pages; the log is emptied only behind it, and is empty when done; the pager is blocked exactly when the superblock is not known to be stored; at every point a crash recovers at least what was safe |
| Durability.Pager.Flush | src/pager.c:742-930 | the log is synced before any page is written, and the data file after all of them |
| Durability.Pager.WritePages | src/pager.c:800-930 | after all indexed pages are written the data file is the committed image; done exactly when none tears |
| Durability.Pager.constructor | src/pager.c:273-485 | opening after a crash finds some history that is not shorter than what was safe |
| Durability.Pager.CountTransactions | src/wal.c:1051-1504 | the scan counts the transactions that follow the superblock without a gap |
| Durability.Pager.ApplyTransactions | src/wal.c:1051-1504 | applying them yields the committed image; done exactly when none tears, else the files are still recoverable |
| Durability.Pager.Recover | src/pager.c:372-485 | for every outcome of its I/O steps: it answers done exactly when all succeed, and then the superblock is at the end of the history, the data file is the committed image and the log is empty; when any step fails recovery can be done again |
| ProbeTable.Find | src/page_cache.c:26-43 | finds the frame of a page if and only if it is in the table |
| ProbeTable.Insert | src/page_cache.c:46-56 | the table maps the new page to its frame and the others as before |
| ProbeTable.DeleteAt | src/page_cache.c:64-95 | the table loses exactly the entry at the slot, and every other entry can still be found |
| ProbeTable.HoleMoved | src/page_cache.c:64-95 | moving an entry back into the hole keeps the table in order and brings the hole nearer to an empty slot |
| PageCaches.PageCache.constructor | src/page_cache.c:97-154 | an empty cache |
| PageCaches.PageCache.Get | src/page_cache.c:172-190 | returns the bytes put last for a cached page, whose frame gains its chance; nothing else changes |
| PageCaches.PageCache.Put | src/page_cache.c:225-255 | the page is stored, with a chance only if it was there before; another goes only if every frame is in use, only one, and the one the clock chooses |
| PageCaches.PageCache.Remove | src/page_cache.c:257-274 | exactly this page goes and its frame is free |
| PageCaches.PageCache.ClockEvict | src/page_cache.c:192-223 | the page that goes is in the first frame from the hand on without a chance, or at the hand if all have one; the frames passed lose their chance, the hand stops behind, within one full turn and one step more |
| Checksums.TableIs | src/checksum.c:21-294 | the entries of table k are k + 1 bytes of rounds of the bitwise checksum |
| Checksums.EightBytes | src/checksum.c:296-319 | a word xored with four bytes and looked up, with the other four bytes looked up as they are, is eight bitwise byte steps |
| Checksums.SliceIs | src/checksum.c:296-319 | the eight lookups of one turn of the fast loop are eight bitwise byte steps |
| Checksums.Continue | src/checksum.c:296-319 | the fast loop and the byte loop after it compute the bitwise checksum of any data from any state |
| Checksums.Crc32 | src/checksum.c:321-324 | the result, inverted, is the remainder of the message polynomial, with its first 32 bits inverted and followed by 32 zeros, on division by the generator given by its exponents |
| Checksums.CrcUnique | src/checksum.c:321-324 | no other word is that remainder |
| Checksums.BitPoly | src/checksum.c:21-294 | a bit step multiplies by x modulo the generator |
| CrcTables.FirstTable | src/checksum.c:22-55 | the entries of the first table at the bytes with one bit are the numbers of the source |
| CrcTables.TableAdds | src/checksum.c:21-294 | in every table the entry of a sum is the sum of the entries, so these fix all others |
| Polynomials.OneRemainder | src/checksum.c:321-324 | there is at most one remainder |
| Checksums.Crc32ZeroedRange | src/checksum.c:326-343 | the checksum with a range taken as zero is that of the data with zeros there; zero if the range does not lie inside |
| Codec.DecodeEncoded | src/btree_page.c:63-300 | decoding the encoding of a node gives the node |
| Codec.EncodeDecoded | src/btree_page.c:63-300 | a payload that is accepted is the encoding of the node it gives, so no two payloads give one node |
| Codec.EncodedLength | src/btree_page.c:192-249 | the computed size is the number of bytes of the encoding |
| Codec.HeaderLies | src/btree_page.c:268-276 | the four magic bytes, kind, count and link lie where the format says |
| Codec.EntryFields | src/btree_page.c:278-300 | the sizes, the key, and the value or the child of every entry lie where the format says |
| Codec.Decode | src/btree_page.c:63-190 | the loop answers as the specified decoding: the node, or which check fails |
| Codec.SizeOf | src/btree_page.c:192-249 | the size, exactly for nodes that can be encoded |
| Codec.Encode | src/btree_page.c:251-300 | writes the encoding at the start of the buffer and nothing else, or answers why not and writes nothing |
| LittleEndian.LeRoundTrip | src/codec.c:23-67 | reading what was written gives the number |
| LittleEndian.FromLeRoundTrip | src/codec.c:23-67 | writing what was read gives the bytes |
| Replacing.CrashKept | src/replace.c:152-193 | what one crash leaves is sound if and only if it does not forget the rename and keep the removal of the log |
| Replacing.CrashSafe | src/replace.c:152-193 | no crash can do harm now if and only if the rename and the removal are not both pending |
| Replacing.EventKept | src/replace.c:90-275 | every event, but a crash while both are pending, keeps the invariant |
| Replacing.Replaced | src/replace.c:90-275 | over every run in which each rename is followed by its sync: open for use means the old file with its log or another without, and no marker |
| Replacing.HazardLoses | src/engine.c:4215-4235 | after every kill between rename and sync, and every failed sync, the log can be lost |
| Replacing.HazardArises | src/engine.c:4215-4235 | both can happen in every replacement of a file with a log |
| Replacing.RecoveryEnds | src/replace.c:211-275 | each step of recovery or replacement is nearer to being open for use |
| CompositeKeys.KeysInjective | src/engine.c:527-628 | rows of all kinds have different keys |
| CompositeKeys.ParseOfPair | src/engine.c:3218-3261 | reading a key gives the namespace and user key it was made of |
| CompositeKeys.PairOfParse | src/engine.c:3218-3261 | only keys of the layout are read |
| CompositeKeys.UserOrder | src/engine.c:577-598 | within a namespace rows are in the order of the user keys |
| CompositeKeys.SpacePrefix | src/engine.c:6086-6120 | the keys that start like a namespace are exactly its objects |
| CompositeKeys.EntryPrefix | src/engine.c:1723-1768 | the keys that start like a term are exactly its entries |
| CompositeKeys.PrefixInterval | src/engine.c:6617-6690 | the keys that start with given bytes lie together |
| CompositeKeys.RewriteOfOld | src/engine.c:4911-4949 | the rewrite of a key in the older layout is the key of the same fields in the new one |
| CompositeKeys.OldOfRewrite | src/engine.c:4911-4949 | every key that is rewritten was of the older layout, with the same fields |
| CompositeKeys.RowsRewritten | src/engine.c:5080-5125 | every row of the older layout ends up under its key in the new one |
| Rows.PiecesJoin | src/engine.c:836-883 | the chunks of a value joined are the value; none is empty or too long |
| Rows.PieceCount | src/engine.c:736-834 | their number is the size divided by the chunk size, rounded up |
| RowSteps.PutKept | src/engine.c:960-1042 | the rows left by a put stand for the model with the new version |
| RowSteps.DropKept | src/engine.c:1145-1209 | the rows left by a delete stand for the model without the object |
| RowSteps.EntryKept | src/engine.c:1978-2059 | index entries are right after a document put |
| RowSteps.ReverseKept | src/engine.c:2621-2686 | so are the reverse rows |
| RowSteps.GuardKept | src/engine.c:2184-2242 | so are the unique guards, for any terms without a conflict |
| Reads.ObjectGet | src/engine.c:1044-1143 | the loop over chunks answers as specified: the bytes, not-found, too small a buffer, or corrupt |
| Reads.GetReturns | src/engine.c:1044-1143 | on sound rows a get answers exactly from the model |
| Scans.RangeCursor.First | src/engine.c:6412-6434 | starts at the first row of the range and counts anew |
| Scans.RangeCursor.SeekTo | src/engine.c:6436-6471 | starts at the key or the lower bound, whichever is later; too long a key is refused |
| Scans.RangeCursor.Next | src/engine.c:6473-6499 | one row further, or at the end; refused before the start |
| Scans.RangeCursor.Load | src/engine.c:6086-6196 | shows key and bytes of the row, or ends at the bound, the namespace or the limit |
| Scans.RangeCursor.Walk | src/engine.c:6412-6499 | from its start to its end the cursor gives exactly the objects of the range in order, up to the limit |
| Scans.ReadRange | src/engine.c:6198-6303 | the same for a cursor opened with bounds, limit and start; bad names, bounds or kinds are refused |
| Scans.ScanPrefix | src/engine.c:6617-6690 | exactly the entries with the prefix, in order, up to the limit |
| Scans.ListNamespaces | src/engine.c:6692-6792 | each kind and namespace with an object, once |
| Scans.IndexVisit | src/engine.c:3047-3216 | visits in order and stops where the visitor says, though the cursor is sought anew after each visit |
| Scans.VisitedOnce | src/engine.c:3047-3216 | no document twice, whatever stale entries there are |
| Scans.VisitExact | src/engine.c:3047-3216 | on sound rows the documents visited are exactly those that have the term now |
| Compaction.Compact | src/engine.c:4376-4414 | copies exactly the live rows, or some row cannot be read |
| Compaction.SameGet | src/engine.c:4376-4414 | every get answers as before, for any rows that can be read, stale ones included |
| Compaction.SameGuard | src/engine.c:3481-3732 | every uniqueness check answers as before |
| Compaction.SameVisit | src/engine.c:3481-3732 | every index visit gives the same documents |
| Compaction.CompactedKept | src/engine.c:3481-3732 | the copy stands for the same objects and indexes, with nothing stale |
| Engines.Engine.constructor | src/engine.c:1253-1359 | a new engine has no rows |
| Engines.Engine.AllocGeneration | src/engine.c:406-434 | hands out the next generation and records it |
| Engines.Engine.Plan | src/engine.c:736-834 | chunks are as long as they may be: two chunk rows fit a leaf, and with one byte more they would not, or the target size is reached; which argument or limit each refusal stands for |
| Engines.ChunkRowHalf | src/engine.c:736-834 | so every chunk row takes at most half of a leaf |
| Engines.Engine.WriteChunks | src/engine.c:836-883 | writes exactly the pieces of the value |
| Engines.Engine.DeleteChunks | src/engine.c:929-958 | removes exactly the chunks of one version |
| Engines.Engine.ObjectPut | src/engine.c:960-1042 | the model gains exactly this version, its generation is new, and no row of the old version is left; with a tree that works, it succeeds whenever name, size and counter allow |
| Engines.Engine.ObjectDelete | src/engine.c:1145-1209 | the model loses exactly this object; not-found exactly when it is absent |
| Engines.Engine.IndexCreate | src/engine.c:1770-1825 | the index is defined, and an existing one is not redefined |
| Engines.Engine.IndexDefinition | src/engine.c:1848-1894 | whether an index is defined and unique |
| Engines.Engine.GuardCheck | src/engine.c:1896-1976 | conflict exactly when another document holds the term now |
| Engines.Engine.CheckTerms | src/engine.c:2731-2800 | all terms valid, defined and without conflict, or which is not |
| Engines.Engine.WriteTerm | src/engine.c:1978-2059 | the entry and, for a unique index, the guard |
| Engines.Engine.WriteReverse | src/engine.c:2621-2686 | one reverse row for each term, by ordinal |
| Engines.Engine.ReclaimGuard | src/engine.c:2184-2242 | a guard goes only if this document owns it |
| Engines.Engine.ReclaimTerm | src/engine.c:2250-2327 | the entry of the old version and its guard go |
| Engines.Engine.ReclaimReverse | src/engine.c:2346-2411 | walking the reverse rows removes every index row of the old version |
| Engines.Engine.DocumentPut | src/engine.c:2731-2911 | the model gains exactly this version with its terms; conflict only if a unique value is taken; not-found only if an index is undefined; with a tree that works, it succeeds whenever nothing of this stands in the way |
| Engines.Engine.DocumentDelete | src/engine.c:2972-3021 | the model loses exactly this document and all its index rows |
| Engines.Engine.Apply | src/engine.c:5315-5653 | one operation has its effect on the model, and a stored version is newer than any before |
| Engines.Engine.Transact | src/engine.c:5229-5300 | all the operations in order, or none; with a tree that works, none only if after some of them the next one is not acceptable; the committed counter row is the last generation stored, or as before if none was |
| Engines.GenerationsRise | src/engine.c:406-434 | the versions stored by one transaction have ever higher generations |
| Engines.AboveAll | src/engine.c:406-434 | each is above every version there was before |
| Generations.NeverAgain | src/engine.c:770-785 | through any mix of transactions, failures, reopenings and compactions, a generation that was committed is below every later one, even after its rows are gone |
| Generations.NeverRevived | src/engine.c:770-785 | so no row left behind by an old version ever belongs to a version stored later |
| Generations.CounterKept | src/engine.c:361-434 | once there is a counter row it stays, and never moves back |
| Engines.HistoryClean | src/engine.c:5268-5283 | transactions leave nothing stale behind |
| Engines.OneHolder | src/engine.c:1896-1976 | a unique value has at most one document |
| Engines.NothingStale | src/engine.c:3481-3732 | in a clean store every row is live |
| Engines.SeedByScan | src/engine.c:314-358 | the highest generation on any row |
| Engines.Engine.Seed | src/engine.c:366-396 | the counter is the counter row, else the highest generation on any row, and every later version is still new |
| Engines.Engine.Compact | src/engine.c:4276-4660 | the same objects and indexes, only live rows, and a counter that is still above all of them |

## Left out

- The layers are not composed: the engine works on a map of rows that stands for the tree, the tree on a map of pages that stands for the pager, and the pager on a cache that may forget any page and so stands for the CLOCK cache.
- PageTxn.Txn.FreePage: the branch for a page with data recorded in the same transaction is not modelled, since the tree records its pages only at commit.
- Engines.Engine.Transact: a failed operation fails the whole transaction; that the code keeps an explicit transaction usable after a refusal that wrote nothing is not modelled.
- Scans.IndexVisit: the visitor only decides whether to go on; changes it makes to the database are not modelled.
- Durability.Pager.Commit: bytes of the log are not modelled; a record is whole or torn, and a torn one is recognised. A crash keeps any part of what was not synced.
- Replacing.Replaced: the log is there or gone; that compaction first empties it and then removes it is one step.
- Checksums.TableIs: the tables are given by their recurrence; of the literal numbers in the source those of the first table at single-bit bytes are compared with it.
- The staged nodes of a batch are a map from page to node, not the growing array of the source.
- Encryption, key management, random numbers and SHA-256 (a digest is any function of the bytes).
- Running out of memory, size overflows below 64 bits, and the distinction between kinds of I/O errors.
- Older formats: version 1 and 2 logs, legacy headers, documents written before reverse rows existed.
- Relaxed durability, in which a commit is acknowledged without a sync.
- Reverse cursors, snapshots' version counting, database verification of rows, information calls and the convenience layer.
- The byte encodings of row values, superblocks, log frames and replace markers.
- Windows paths and the Windows variants of the file operations.
- Thread scheduling outside group commit: all other operations hold the engine mutex throughout.
