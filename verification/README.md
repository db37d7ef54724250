# Minigraf, verified

Minigraf is an embedded bi-temporal Datalog store. This project models the parts of it whose correctness is
hardest to see and proves them with Dafny 4.11. `dafny verify dfyconfig.toml` checks everything.

What is modelled, from the bytes upwards:

- **Slotted pages and the B+tree index** (`SlottedPage`, `BTreePages`, `BTreeModel`, `BTreeScan`, `BTreeMerge`,
  `BTreeBuild`, `BTreeRebuild`, `BTreeCheckpoint`, `BTreeSave`). Pages are 4096 bytes filled in place. A `Tree` is the shape the
  pages encode; `Stored(c, pages, t)` says that a page file holds it, leaf chain included. Bulk build and incremental rebuild
  are proved to store exactly the given entries and the sorted merge, descent and range scan to answer exactly from them, and one
  save to leave every index stored, ready for the next.
- **Packed fact pages** (`PackedPages`): what is packed is read back under the references handed out.
- **The write-ahead log** (`Wal`, `WalWriter`): entries on the wire, the scan that recovers them from a file cut anywhere, and
  a state machine of the file and its writer over opens, appends that succeed or tear, power losses, closes and deletes.
- **Durability** (`Recovery`, `RecoverySteps`, `RecoveryReplay`, `RecoveryRuns`, `RecoveryExample`, `Database`): a state machine of
  writes, checkpoints, failed saves, failed log deletes, crashes at any point and reopens. The invariant is proved over every run.
  `Database` is the object itself, over the log's real bytes and the fact store, and each of its methods is a step of that machine.
- **The fact store** (`Facts`, `ValueEncoding`, `FactStore`, `NetView`): pending facts with their duplicate keys and
  indexes, as-of views and the net-asserted view.
- **Index lookups** (`IndexKeys`, `KeyRanks`, `PendingLookups`, `CommittedLookups`, `SavedLookups`, `Lookups`, `SaveRuns`,
  `RecoveryLookups`): pending facts through the in-memory indexes, committed ones through the stored trees and the packed pages
  that any number of saves leave, in order, against a full scan.
- **The page cache** (`PageCache`, `CacheProtocol`): the LRU cache as an object, and queries and checkpoints interleaved over it.
- **Rule evaluation** (`Datalog`, `Invocations`, `Matcher`, `PatternOrder`, `LeastModel`, `SeenFacts`, `Reachability`, `Evaluator`,
  `Stratified`, `Stratum`, `StratifiedModel`, `StratifiedEvaluation`, `DependencyGraph`, `Stratification`): what a rule body means,
  literal by literal, the hash joins that compute it, what the order of patterns can change, the fixpoint loop against the least model,
  reachability as the ends of paths, strata with negation, and the assignment of strata.

Assumptions, stated once:

- postcard is a codec whose decoding undoes its encoding (`Codec.Valid`, `FactCodec.Valid`; a fact never encodes to no bytes).
  `Codecs.IndexCodecExists` and `Codecs.FactCodecExists` show that there are such codecs. CRC32 is an arbitrary function: nothing
  is assumed about collisions.
- Index keys are compared only by their order. They are modelled as rational numbers; `KeyRanks.EavtRanked`,
  `AevtRanked`, `AvetRanked` and `VaetRanked` give the embeddings of the four key orders. Entries of one index may share a key.
- Committed facts carry a transaction count of at least 1, as every allocated count is.
- A tree starts at page 1 or later (0 ends the leaf chain), page ids fit in 64 bits, an index entry is at most 4080 bytes and a
  separator at most 4072.
- What the operating system does (how many bytes of a write arrive, whether a sync or a delete succeeds, which bytes survive a
  power loss) is a parameter of the step it affects.
- A page write or a header write either happens or does not, as the source's own comments take it.
- The entity a keyword names is an arbitrary function of the keyword (`Datalog.Ids`), not assumed injective.

Things the proofs turned up, all modelled as the code has them:

- The documentation of `range_scan` speaks of keys in a closed range; the code excludes `end`, and so does the model.
- A range scan that starts at a key several entries share can miss those in earlier leaves: its answer is complete if and only if
  no leaf before the one it descends to holds that key (`BTreeScan.RangeScan`; `BTreeScan.SharedKeyMissed` is such a page file). Lookups are not
  affected: no fact has the key a lookup starts at (`CommittedLookups.StartFree`).
- The fill check of internal nodes counts one child pointer less than the node will hold. It never overflows a page, because the limit
  it compares with leaves more room than that (`BTreeBuild.TakeGroup`).
- The index range of an entity ends at its successor, which wraps for the all-ones UUID. On the committed index that range is empty and
  the entity's facts are missed (`Lookups.AllOnesMissed`); on the pending index it is reversed, which `BTreeMap::range` answers with a panic
  as soon as a fact is pending (`PendingLookups.ReversedIff`, modelled as a failure).
- Two pending facts under one key hide the earlier one, as README.md:64 of the repository records (`PendingLookups.SharedKeyHidden`);
  once committed both are found (`CommittedLookups.CommittedIff`).
- NaN shares its index encoding with one negative subnormal (`ValueEncoding.FloatKeyCollisions`).
- Joins treat a keyword and the entity it names as one value, and the two zeros, and keep the form met first, so the order of the
  patterns can show in the bindings (`PatternOrder.OrderShows`). It shows in nothing but the form of a value
  (`PatternOrder.OrderKeeps`), and over given entities and values it never shows if and only if no two of them are forms of one value
  (`PatternOrder.OrderFreeIff`). Rules with negations are joined in the optimizer's order, others as written.
- Derived facts are told apart by the encoding of their values, which NaNs and one subnormal share. A fact that has the key of another
  is dropped, and the result is then short of the least model (`SeenFacts.EncodingHides`); over the values of a program results are least
  models throughout if and only if no two of those values share an encoding (`SeenFacts.AlwaysLeastIff`, `SeenFacts.ToldApartIff`).
- A variable bound to null becomes a plain symbol when it is substituted into a `not` body and then matches nothing, so
  the negation never blocks that binding (`Matcher.NullEscapesNegation`; `Datalog.Blocked` is the exact condition). A head with a
  null-bound variable cannot be instantiated: an error in a positive rule, skipped in a rule with negation.
- A rebuild after a checksum mismatch lowers the recorded checkpoint to the highest fact count. A failed transaction whose entry is still
  in the log then comes back, in full, exactly when its count lies between the two (`RecoveryRuns.RebuildBringsBack`; the run is
  `RecoveryExample.FailedWriteReturns`); acknowledged ones are never affected.

## Model

| member | source | states |
|---|---|---|
| `Bytes.LERoundTrip` | src/storage/btree_v6.rs:37-60 | Reading a little-endian field gives back the number written, for every width |
| `Bytes.LastDigit` | src/storage/btree_v6.rs:50-60 | Each further byte of a field weighs 256 times the one before |
| `Bytes.U16IsField` | src/storage/btree_v6.rs:37-47 | The two-byte fields of slot directories are little-endian fields, read and written |
| `SlottedPage.SlotsDisjoint` | src/storage/btree_v6.rs:69-105 | Two records of a page never overlap each other, and none overlaps the slot directory |
| `SlottedPage.PutRecordHolds` | src/storage/btree_v6.rs:85-103 | Adding a record below the others keeps all of them readable and adds this one |
| `SlottedPage.ReadSlotHeld` | src/storage/btree_v6.rs:815-840 | The bounds checks of a slot read pass on a held page and the record comes back whole |
| `SlottedPage.ReadSlotIff` | src/storage/btree_v6.rs:815-840 | On any page, damaged ones included, a slot reads as a record if and only if its directory entry lies inside and leads to those bytes inside the page |
| `BTreePages.EncodeLeafPage` | src/storage/btree_v6.rs:69-105 | A leaf page is 4096 bytes and holds exactly the given records, in order, with its type, count and link |
| `BTreePages.EncodeInternalPage` | src/storage/btree_v6.rs:129-194 | An internal page holds its separators in slots and its children by rank, the last one in the header |
| `BTreePages.WithNextHolds` | src/storage/btree_v6.rs:567-583 | Rewriting the link of a leaf changes nothing else the page holds |
| `BTreeScan.ChooseChild` | src/storage/btree_v6.rs:770-801 | The separators of a node lead to the one child whose keys can include the key |
| `BTreeScan.FindLeafForKey` | src/storage/btree_v6.rs:750-811 | Descent ends, in the unique leaf that can hold the key, for every stored tree |
| `BTreeScan.DecodeLeaf` | src/storage/btree_v6.rs:815-840 | Decoding a leaf page returns exactly the entries encoded in it |
| `BTreeScan.ReadLeafEntries` | src/storage/btree_v6.rs:815-840 | The decoding loop computes the decoding function, errors included |
| `BTreeScan.ScanLeaf` | src/storage/btree_v6.rs:925-935 | One leaf adds exactly its entries in range, and stops at the first key past the end |
| `BTreeScan.RangeScan` | src/storage/btree_v6.rs:897-944 | On every stored tree a scan returns the refs of entries with start <= key < end, in key order, but those before the leaf that covers start; all of them if and only if no earlier leaf holds the start key; the chain walk ends |
| `BTreeScan.OnceNotMissed` | src/storage/btree_v6.rs:897-944 | Where the start key is not shared a scan misses nothing |
| `BTreeScan.SharedKeyMissed` | src/storage/btree_v6.rs:897-944 | A page file with a stored tree on which the scan from a shared key returns the second of its two entries only |
| `BTreeCheckpoint.ScanExact` | src/storage/btree_v6.rs:897-944 | A ref is in the answer if and only if some entry with start <= key, and key < end where there is an end, has it |
| `BTreeMerge.MergePermutes` | src/storage/btree_v6.rs:436-451 | Merging keeps every entry with its multiplicity |
| `BTreeMerge.MergeSorted` | src/storage/btree_v6.rs:436-451 | Merging two sorted lists is sorted, shared keys included |
| `BTreeMerge.MergeSplit` | src/storage/btree_v6.rs:689-706 | Merging commutes with cutting both lists at a key, which is what routing batches to leaves relies on |
| `BTreeMerge.TargetBounds` | src/storage/btree_v6.rs:614-619 | As many shares of the target as there are usable fills hold everything, and the target is never above the usable fill, or the page where one is enough |
| `BTreeMerge.PairsBound` | src/storage/btree_v6.rs:599-644 | If every two adjacent leaves exceed the target, there are at most 2*ceil(T/3060)-1 leaves |
| `BTreeMerge.PairsOne` | src/storage/btree_v6.rs:614-619 | Entries that fit one page are never split |
| `BTreeBuild.TakeGroup` | src/storage/btree_v6.rs:364-409 | The children of one node fit its page although the check counts one pointer too few; at least two are taken while two are left, and as many as the 3072-byte limit lets |
| `BTreeBuild.BuildNode` | src/storage/btree_v6.rs:365-413 | The node written holds exactly that group of children and their separators |
| `BTreeBuild.BuildLevel` | src/storage/btree_v6.rs:361-428 | A level is over the same leaves, in order, with at most half as many nodes, rounded up |
| `BTreeBuild.BuildInternalLevels` | src/storage/btree_v6.rs:330-430 | Building levels ends in one root over the same leaves; children have smaller page ids than their parent |
| `BTreeBuild.PackLeaves` | src/storage/btree_v6.rs:241-272 | Bulk packing writes all but the current leaf, losing no entry; a leaf is closed exactly when the next entry would take it past 3072 bytes |
| `BTreeBuild.PatchLinks` | src/storage/btree_v6.rs:292-320 | Every leaf but the last ends up linked to the next page, its records untouched |
| `BTreeBuild.BuildBtree` | src/storage/btree_v6.rs:235-323 | The tree stored holds exactly the given entries, in order, in leaves each filled until the next entry does not fit, on pages of its range; no page outside is written |
| `BTreeBuild.EmptyTree` | src/storage/btree_v6.rs:275-279 | An empty index is a stored tree of one empty leaf |
| `BTreeRebuild.LeafEmitter.Push` | src/storage/btree_v6.rs:556-565 | A pushed page is held back until its link is known; the one before is written with this page's id |
| `BTreeRebuild.LeafEmitter.ReleaseHeld` | src/storage/btree_v6.rs:567-583 | The held page is written with only its link changed |
| `BTreeRebuild.LeafEmitter.Finish` | src/storage/btree_v6.rs:585-589 | All pushed leaves are written and chained, the last one to 0 |
| `BTreeRebuild.EmitPacked` | src/storage/btree_v6.rs:599-644 | The leaves emitted hold exactly the entries, each within a page: one leaf if they fit one, otherwise at most 2*ceil(T/3060)-1 |
| `BTreeRebuild.TakeBatch` | src/storage/btree_v6.rs:691-699 | A leaf gets exactly the pending entries below the next leaf's first key |
| `BTreeRebuild.MergeExtends` | src/storage/btree_v6.rs:689-706 | Merging leaf by leaf gives a prefix of the merge of everything |
| `BTreeRebuild.RebuildLeaf` | src/storage/btree_v6.rs:700-705 | A leaf without pending entries is copied, one with them is repacked into the merge |
| `BTreeRebuild.RebuildLeaves` | src/storage/btree_v6.rs:681-706 | The leaves emitted hold the merge, and each untouched old leaf's page is among them |
| `BTreeRebuild.RebuildBtreeIncremental` | src/storage/btree_v6.rs:656-709 | The stored tree holds exactly the sorted merge, on pages of its range, and each old leaf no pending key routes to is carried over with only its link changed |
| `BTreeCheckpoint.ValidateLeafSlots` | src/storage/btree_v6.rs:498-518 | Accepts exactly the pages whose slots all lie inside |
| `BTreeCheckpoint.FindLeftmostLeaf` | src/storage/btree_v6.rs:715-744 | Following first children ends in the first leaf of the chain |
| `BTreeCheckpoint.CollectLeafPages` | src/storage/btree_v6.rs:459-492 | The snapshot is the file's own leaf pages, all of them, in order; the cycle guard never trips on a stored tree |
| `BTreeSave.SavePages` | src/storage/persistent_facts.rs:897-977 | One save writes the fact pages and then all indexes, each the stored sorted merge of what it held and its pending entries, carries over every leaf no pending key routes to with only its link changed, and touches no page before |
| `BTreeSave.SavedHasTrees` | src/storage/persistent_facts.rs:897-977 | After a save all indexes are stored below the new page count, as the next save needs |
| `BTreeCheckpoint.ScansAgree` | src/storage/btree_v6.rs:656-709 | Two stored trees with the same entries, such as a rebuild and a bulk build of the merge, answer every scan from an unshared key alike |
| `PackedPages.PackFacts` | src/storage/packed_pages.rs:58-170 | Facts are laid out in order, each page holding its share without overlap and closed only when the next record does not fit; refused if and only if a record exceeds 4080 bytes |
| `PackedPages.RefResolves` | src/storage/packed_pages.rs:173-252 | Reading the page and slot a ref names gives back that fact |
| `PackedPages.ReadFactHeld` | src/storage/packed_pages.rs:173-252 | Every slot of a packed page decodes to its fact |
| `PackedPages.ReadFactIff` | src/storage/packed_pages.rs:173-252 | On any page a slot reads as a fact if and only if the page is a whole packed page with that many slots and the bytes of the slot decode to it |
| `PackedPages.ReadAllWithRefs` | src/storage/packed_pages.rs:269-295 | Reading any run of pages returns what its packed pages hold, in order with their refs, skips others, and fails on a bad one |
| `PackedPages.PagesIff` | src/storage/packed_pages.rs:269-295 | What a run of pages reads as: every slot of each packed page, nothing of another; it fails if and only if a slot does not read |
| `PackedPages.LaidReads` | src/storage/packed_pages.rs:269-295 | A run of packed pages reads as all its facts in order with their true refs |
| `PackedPages.BatchesJoin` | src/storage/packed_pages.rs:269-295 | Batches packed one after the other read back as their concatenation, with consecutive refs |
| `Wal.SerializeEntry` | src/wal.rs:93-115 | An entry is refused if and only if one of its facts is too large, otherwise serialised |
| `Wal.ParseFactsAgrees` | src/wal.rs:379-413 | Facts parse back whole, and a cut anywhere inside them is noticed |
| `Wal.ParseEntryAgrees` | src/wal.rs:339-422 | A written entry parses back where it is whole and to nothing where any byte of its end is missing; the count bound never rejects it |
| `Wal.ParseEntryExact` | src/wal.rs:339-422 | On any bytes an entry parses if and only if its first four bytes are the checksum of the rest, then come its count, the number of its facts, and the facts as length-prefixed records that decode to them |
| `Wal.SerializedEntry` | src/wal.rs:93-115 | What is written is such an entry |
| `Wal.DamagedStops` | src/wal.rs:415-419 | An entry whose bytes carry another checksum ends the scan at its start |
| `Wal.ReadEntry` | src/wal.rs:339-422 | One step of the scan loop: the entry at an offset, found exactly where one lies under its checksum |
| `Wal.ScanCut` | src/wal.rs:332-426 | A log cut at any byte scans to exactly the entries before the cut and the offset where they end |
| `Wal.ScanLog` | src/wal.rs:332-426 | Header, whole entries and a strict prefix of one more: the scan returns the whole entries and their end |
| `Wal.ReadFacts` | src/wal.rs:374-409 | The fact loop of an entry computes the parse, and collects exactly the payload bytes it consumed |
| `Wal.ScanEntries` | src/wal.rs:332-426 | The entries returned lie back to back from byte 32 to the offset returned, each under its own checksum, and no entry follows there |
| `WalWriter.LogFile.OpenOrCreate` | src/wal.rs:145-199 | A short file is re-initialised, a torn end cut off and synced; refused if and only if the header is not a log's |
| `WalWriter.LogFile.AppendEntry` | src/wal.rs:219-244 | Refused after a failure; a rejected entry changes nothing; a torn one poisons the writer |
| `WalWriter.LogFile.Delete` | src/wal.rs:253-278 | A deleted log is no log |
| `WalWriter.InvScan` | src/wal.rs:332-426 | In every reachable state the scan finds exactly the whole entries handed to the writer |
| `WalWriter.ReadyAtEnd` | src/wal.rs:145-199 | A writer that has not failed sits at the end of the valid entries |
| `WalWriter.RunInv` | src/wal.rs:140-279 | The invariant holds after every run of opens, appends, tears, power losses, closes and deletes |
| `WalWriter.AckedAppendExtends` | src/wal.rs:219-244 | After any run, an acknowledged append extends what a scan recovers by exactly that entry |
| `WalWriter.PowerLossKeeps` | src/wal.rs:231-244 | After any run, a power loss keeps a prefix of the recoverable entries and loses none acknowledged in Full mode |
| `WalWriter.OpenRecovers` | src/wal.rs:169-193 | Opening a log changes nothing recoverable |
| `WalWriter.AppendRecovers` | src/wal.rs:219-244 | An append adds its entry exactly when all its bytes reached the file, acknowledged or not |
| `RecoveryRuns.InvStep` | src/db.rs:754-812 | Every step, failing ones included, keeps what is saved, logged and pending consistent with the history |
| `RecoverySteps.InvWrite` | src/db.rs:612-649 | A write that fails at any point leaves the store as it was; one that succeeds adds exactly its facts |
| `RecoverySteps.InvCheckpoint` | src/db.rs:754-812 | A checkpoint that skips, fails to save, or fails to delete the log loses nothing promised and doubles nothing |
| `RecoverySteps.InvCrash` | src/db.rs:503-533 | A crash anywhere, with a log cut anywhere its syncs allow, loses nothing promised; only unsaved log entries are dropped |
| `RecoveryReplay.InvReopen` | src/db.rs:414-454 | Replay after any crash brings back what was logged and not saved, and continues the transaction counts above all of it |
| `RecoveryReplay.RebuiltCount` | src/storage/persistent_facts.rs:343-422 | The checkpoint count a rebuild recovers covers all saved transactions and is never above the recorded one |
| `RecoveryReplay.ReplayContent` | src/db.rs:503-533 | Replay adds exactly the contributions of the log entries above the checkpoint, each once, in order |
| `RecoveryRuns.Durable` | src/db.rs:537-550 | At every point of every run an open database shows exactly the contributions of some attempts, each once and in order: every acknowledged one but those a power loss dropped from an unsynced log, failed ones in full or not at all, nothing else. In full means that for every fact of the transaction one with its entity, attribute, encoded value, window, count and polarity is visible |
| `RecoveryRuns.ContributionArrives` | src/graph/storage.rs:302-323 | A transaction contributes its facts in order of arrival, duplicates once, and so every fact of it in full |
| `RecoveryRuns.CrashKeepsShown` | src/db.rs:537-550 | A process crash at any point followed by a reopen shows all that was shown before |
| `RecoveryRuns.CrashDropsNothing` | src/db.rs:537-550 | A process crash drops no log entry |
| `RecoveryRuns.RebuildBringsBack` | src/storage/persistent_facts.rs:343-422 | An open with a rebuild shows an attempt that a plain open of the same files does not if and only if it is whole in the log, has facts, and its count lies above all saved facts and not above the recorded checkpoint; nothing shown is lost |
| `RecoveryExample.FailedWriteReturns` | src/storage/persistent_facts.rs:343-422 | A run in which a failed write, absent after a checkpoint, is shown after a crash and a rebuild |
| `Database.Database.WalWriteBatch` | src/db.rs:1288-1317 | The log after a batch, opened lazily; success exactly when it was written and synced as asked |
| `Database.Database.WriteBatch` | src/db.rs:612-643 | The write path over real log bytes is the protocol's write step, reports its acknowledgement, and is a batch step of the fact store |
| `Database.Database.DoCheckpoint` | src/db.rs:754-812 | A checkpoint over real log bytes is the protocol's checkpoint step, complete exactly when it reports so |
| `Database.Database.Execute` | src/db.rs:612-656 | A command is a write step, followed by a checkpoint step if and only if the write was acknowledged and the log then holds at least the threshold of entries; its success is the completion of the checkpoint, or else the acknowledgement |
| `Database.Database.ReplayWal` | src/db.rs:503-533 | The replay loop computes the replay, its count and the restored counter |
| `Database.Database.Reopen` | src/db.rs:414-454 | Opening over real log bytes is the protocol's reopen step |
| `Database.Database.Crash` | src/wal.rs:231-244 | Losing any unsynced bytes of the log is a crash step of the protocol |
| `Database.Database.ShowsPromised` | src/db.rs:537-550 | What the object's queries see is whole contributions, in order, with every promise kept, and every fact of each shown transaction visible |
| `Database.Stamp` | src/db.rs:612-626 | Every fact of a batch carries the one transaction id and count; an assertion without a start gets the id as its start modulo 2^64, and nothing else changes |
| `PageCache.PageCache.Touch` | src/storage/cache.rs:43-52 | The page moves to the back and the order of the others is kept |
| `PageCache.PageCache.Evict` | src/storage/cache.rs:110-117 | The most recently used `capacity - 1` pages stay, whatever the order was |
| `PageCache.PageCache.GetOrLoad` | src/storage/cache.rs:83-127 | Hit, miss, backend error and disabled cache: what is returned and what the cache then holds |
| `PageCache.PageCache.PutDirtyPage` | src/storage/cache.rs:130-158 | The page is held, dirty and most recently used, unless the cache is disabled |
| `PageCache.PageCache.Invalidate` | src/storage/cache.rs:178-182 | Exactly that page is gone |
| `PageCache.PageCache.InvalidateFrom` | src/storage/cache.rs:188-192 | Exactly the pages from there on are gone |
| `PageCache.PageCache.Flush` | src/storage/cache.rs:162-174 | The backend gets every dirty page and the cache keeps all of them, clean |
| `PageCache.InsertedValid` | src/storage/cache.rs:110-126 | Eviction and insertion keep the order a duplicate-free permutation within capacity and change no other page |
| `PageCache.PutDirtyValid` | src/storage/cache.rs:130-158 | So does writing a page, cached or not |
| `PageCache.InsertedExact` | src/storage/cache.rs:110-126 | A new page comes last; every other page stays, in order, but the one at the front when the cache is full |
| `PageCache.LoadedExact` | src/storage/cache.rs:83-127 | A load adds exactly that page, clean, unless the cache is disabled or has it |
| `PageCache.PutDirtyExact` | src/storage/cache.rs:130-158 | A write leaves the page dirty and last; a page already there gives up its old place and no other page goes |
| `PageCache.BelowExact` | src/storage/cache.rs:188-192 | What lies below a page number keeps its order |
| `CacheProtocol.InvStep` | src/storage/persistent_facts.rs:868-1058 | Every step of a query or a checkpoint keeps the cache coherent, up to the page being written through |
| `CacheProtocol.CacheMirrorsBackend` | src/graph/storage.rs:414-419 | In every interleaving, while no checkpoint is active each cached page is the backend's, the LRU order is a duplicate-free permutation and size is within capacity |
| `CacheProtocol.LoadsAreCurrent` | src/storage/cache.rs:83-127 | Every page handed to a reader is the backend's page at that moment, whenever its load began |
| `CacheProtocol.FlushChangesNothing` | src/storage/cache.rs:162-174 | Between checkpoints flushing would change no page |
| `ValueEncoding.BEOrder` | src/storage/index.rs:60-111 | Big-endian byte order is number order |
| `ValueEncoding.EncodeOrder` | src/storage/index.rs:60-111 | Within a variant, byte order of the encoding is the natural order; for floats the totalOrder of section 5.10 of IEEE 754-2019 |
| `ValueEncoding.VariantOrder` | src/storage/index.rs:60-111 | Across variants byte order is null, boolean, integer, float, string, keyword, reference |
| `ValueEncoding.EncodeInjective` | src/storage/index.rs:60-111 | Apart from NaN, values with the same encoding are equal |
| `ValueEncoding.FloatKeyCollisions` | src/storage/index.rs:60-111 | Two floats share an encoding exactly when equal, both NaN, or NaN and its one subnormal twin |
| `NetView.NetAssertedFacts` | src/graph/storage.rs:537-589 | Keeps, in input order, exactly the first assertion of highest count per triple and window that outlives the triple's retractions |
| `NetView.KeptIff` | src/graph/storage.rs:537-589 | A fact is kept if and only if it is an assertion with a count above 0, no assertion of its entity, attribute, encoded value and window has a higher count or an equal one earlier, and no retraction of its entity, attribute and encoded value has one as high |
| `NetView.NetElems` | src/graph/storage.rs:537-589 | As a set, the view depends only on the set of facts, where counts do not tie |
| `NetView.NetRestricts` | src/graph/storage.rs:537-589 | Taking the view commutes with restricting to any condition on entity and attribute |
| `NetView.NetIdempotent` | src/graph/storage.rs:537-589 | The view of the view is the view |
| `NetView.NetDoubled` | src/graph/storage.rs:537-589 | Repeating the input after itself changes nothing |
| `NetView.NetDistinct` | src/graph/storage.rs:537-589 | No two kept facts share a triple and window |
| `FactStore.IndexPoints` | src/storage/index.rs:184-232 | Every index entry points to a fact with that key, and every fact's key is there, at the last such fact |
| `FactStore.LoadTwice` | src/graph/storage.rs:302-323 | Loading a batch again has no effect |
| `FactStore.NovelCovers` | src/graph/storage.rs:302-323 | After a load, for every fact of the batch one is there with its entity, attribute, encoded value, window, count and polarity |
| `FactStore.DuplicateIff` | src/graph/storage.rs:20-30 | Two facts are duplicates if and only if they agree in entity, attribute, encoded value, window, count and polarity |
| `FactStore.NovelArrives` | src/graph/storage.rs:302-323 | What a load adds is the facts that are no duplicates of one held or of an earlier one, in order of arrival |
| `FactStore.Indexes.Insert` | src/storage/index.rs:184-232 | One insert keeps all four indexes describing the facts; only references enter the reverse index |
| `FactStore.PlaceIff` | src/storage/index.rs:185-205 | Two facts share a place in the EAVT and AEVT indexes if and only if they agree in entity, attribute, window and count |
| `FactStore.ValuePlaceIff` | src/storage/index.rs:205-232 | In AVET they agree in the encoded value too; VAET lists exactly the references, two sharing a place if and only if they agree in the target as well |
| `FactStore.Store.Transact` | src/graph/storage.rs:130-167 | A batch is one step with one new count, each fact with its tuple and the given window; refused as a whole when a slot would not fit |
| `FactStore.Store.Retract` | src/graph/storage.rs:234-270 | A retraction is such a step too |
| `FactStore.Store.LoadFacts` | src/graph/storage.rs:302-323 | The facts that are no duplicates are appended in order of arrival, or none |
| `FactStore.LoadIsBatch` | src/db.rs:612-643 | Claiming a count and loading the facts stamped with it is a legal batch of the novel ones |
| `FactStore.Store.Publish` | src/graph/storage.rs:685-697 | What was pending is committed in one step and nothing is pending |
| `FactStore.Store.RestoreTxCounter` | src/graph/storage.rs:331-339 | The counter reaches the highest pending count and never moves backwards |
| `FactStore.AsOfStable` | src/graph/storage.rs:493-502 | No later run of transactions, retractions, loaded batches and checkpoints changes what is visible as of an earlier count |
| `FactStore.AsOfExact` | src/graph/storage.rs:493-502 | A fact is in the view if and only if its count is at most the one asked for, and the order is kept |
| `IndexKeys.TextSuccessor` | src/graph/storage.rs:867-883 | The range from `a` to `a` with a zero byte appended holds exactly `a` |
| `IndexKeys.RangeExact` | src/graph/storage.rs:723-904 | A lookup's index range holds a fact's key if and only if the fact matches, except for the wrapping all-ones entity, whose range holds nothing |
| `IndexKeys.KeysOrder` | src/storage/index.rs:116-133 | EAVT sorts facts by entity, attribute, valid-from, valid-to and count; AEVT by attribute and entity first |
| `IndexKeys.ValueKeysOrder` | src/storage/index.rs:138-159 | AVET sorts by attribute, encoded value, window, entity and count; VAET by target, attribute, window, source and count |
| `KeyRanks.EavtRanked` | src/storage/index.rs:116-123 | The order of EAVT keys embeds in the rationals |
| `KeyRanks.AevtRanked` | src/storage/index.rs:126-133 | So does that of AEVT keys |
| `KeyRanks.AvetRanked` | src/storage/index.rs:138-146 | So does that of AVET keys |
| `KeyRanks.VaetRanked` | src/storage/index.rs:151-159 | So does that of VAET keys |
| `PendingLookups.IndexReaches` | src/storage/index.rs:184-232 | A pending fact is reachable through both indexes if and only if no later one has its entity, attribute, window and count |
| `PendingLookups.FoundIff` | src/graph/storage.rs:723-904 | A lookup finds a pending fact if and only if it matches and no later pending fact has its entity, attribute, window and count |
| `PendingLookups.ReversedIff` | src/graph/storage.rs:723-735 | The range of a lookup is reversed exactly for the all-ones entity |
| `PendingLookups.SharedKeyHidden` | src/graph/storage.rs:723-904 | Of two values pending under one key only the later is found |
| `PendingLookups.FetchPending` | src/graph/storage.rs:723-904 | Walking the index range in key order and resolving its refs yields exactly the matching facts that no later one has the place of, ordered by entity or attribute, window and count, each once; it fails exactly on a reversed range over pending facts |
| `CommittedLookups.ScanFacts` | src/graph/storage.rs:723-904 | Scanning a stored tree and reading the packed pages its refs name yields the facts whose keys lie in range, each as often as it is stored, in key order |
| `CommittedLookups.FetchCommitted` | src/graph/storage.rs:723-904 | A lookup over the stored trees yields the committed facts in its range, each as often as it is stored, in key order |
| `CommittedLookups.CommittedIff` | src/graph/storage.rs:723-904 | A committed fact is found if and only if it matches, shared keys or not, the all-ones entity excepted |
| `CommittedLookups.TargetsPermute` | src/graph/storage.rs:723-904 | What index entries lead to, with multiplicities, does not depend on their order |
| `SavedLookups.SavedLater` | src/storage/persistent_facts.rs:1215-1258 | The refs of newly packed facts come after all committed ones, as merging equal keys needs |
| `SavedLookups.SavedReadable` | src/storage/persistent_facts.rs:897-977 | After a save each index describes exactly the committed and the new facts, under refs that read them back |
| `Lookups.GetFactsForLookups` | src/graph/storage.rs:658-670 | The answers of a list of lookups one after the other, each the pending facts found and then the committed ones, both in key order, or the filtered facts where there is no index; it fails exactly when one panics |
| `Lookups.FoundOneExact` | src/graph/storage.rs:723-904 | What one lookup finds: every committed match and every reachable pending one |
| `Lookups.AllOnesMissed` | src/graph/storage.rs:723-735 | The facts of the all-ones entity are missed once committed and indexed |
| `Lookups.LookupsAgreeWithScan` | src/graph/storage.rs:658-670 | The net view of the facts fetched by any list of lookups is the net view of the full scan, restricted, where pending keys are distinct and counts do not tie |
| `RecoveryLookups.VisibleTieFree` | src/graph/storage.rs:302-323 | In every reachable state of the database no two visible assertions of one window share a count |
| `RecoveryLookups.RunLookupsAgree` | src/graph/storage.rs:658-670 | At every point of every run the net view of what lookups fetch is that of everything visible, restricted, where pending keys are distinct |
| `SaveRuns.SortEntries` | src/storage/persistent_facts.rs:1215-1303 | The entries of an index are those of the facts it lists, each once, in key order |
| `SaveRuns.Save` | src/storage/persistent_facts.rs:868-1058 | A save appends exactly the pending facts and leaves all four indexes describing everything, or is refused on an oversized fact with nothing written |
| `SaveRuns.SaveAll` | src/storage/persistent_facts.rs:868-1058 | After any number of saves the file holds the accepted batches, in order, with all four indexes |
| `SaveRuns.LookupsAfterSaves` | src/graph/storage.rs:658-670 | After any number of saves, with any facts pending, every lookup answers from all accepted batches and the pending facts, in order and with multiplicities |
| `SaveRuns.RangeFilters` | src/graph/storage.rs:723-904 | The facts in a lookup's range are the matching ones, the all-ones entity aside |
| `Datalog.DerivesMore` | src/query/datalog/evaluator.rs:246-318 | More facts never take a derivation away while the negated ones stay |
| `Datalog.BodyReads` | src/query/datalog/evaluator.rs:1015-1111 | A body holds in two states alike that agree on the attributes it and its negations read |
| `Datalog.PlannedPermutes` | src/query/datalog/optimizer.rs:197-207 | Planning a body only reorders its patterns |
| `Datalog.PlannedSorted` | src/query/datalog/optimizer.rs:43-51 | No pattern is planned before one with fewer variables |
| `Datalog.PlannedStable` | src/query/datalog/optimizer.rs:197-207 | Patterns with equally many variables keep the order written |
| `Invocations.SatIff` | src/query/datalog/evaluator.rs:474-501 | A binding satisfies a body if and only if it binds exactly the variables of the arguments and each literal has its fact: `(p a w)` one under `:p` whose entity `a` takes and whose value `w` takes, `(p a)` one under `:p` whose entity `a` takes |
| `Invocations.FitsIff` | src/query/datalog/evaluator.rs:474-501 | The same for one fact and one literal; a free variable given twice takes one value |
| `Invocations.HeadIff` | src/query/datalog/evaluator.rs:356-441 | The fact a head derives: the predicate with a colon, the entity its first place names, its second place or `true`; none from an unbound or null place |
| `Invocations.AgreeIff` | src/query/datalog/matcher.rs:559-573 | Joined values agree if and only if they are one value, two zeros or two names of one entity, and not NaN |
| `Invocations.AcceptsIff` | src/query/datalog/matcher.rs:156-247 | A constant accepts what agrees with it, but no keyword other than itself |
| `Invocations.ForwardDerives` | src/query/datalog/evaluator.rs:246-318 | `(q ?x ?y) :- (p ?x ?y)` derives exactly `(e :q v)` for each `(e :p v)` with a value that is not null |
| `Invocations.BackwardDerives` | src/query/datalog/evaluator.rs:246-318 | With the head turned round it derives exactly `(e :q d)` for each `(d :p v)` whose value names `e` |
| `Invocations.UnaryDerives` | src/query/datalog/evaluator.rs:474-487 | `(q ?x) :- (p ?x)` derives exactly `(e :q true)` for each entity with a fact under `:p` |
| `Invocations.DifferenceDerives` | src/query/datalog/evaluator.rs:823-1146 | With `(not (s ?x ?y))` it derives the facts of `:p` whose entity has no value under `:s` that theirs accepts |
| `Invocations.EntityDifferenceDerives` | src/query/datalog/evaluator.rs:518-572 | With `(not-join [?x] (s ?x ?y))` it derives the facts of `:p` of entities with nothing under `:s` |
| `Reachability.LeastIsReach` | src/query/datalog/evaluator.rs:18-27 | The least model of the two rules of reachability adds to any base exactly the ends of its paths |
| `Reachability.EvaluatedIsReach` | src/query/datalog/evaluator.rs:18-27 | So does evaluating them, where the encoding tells the values of the base apart |
| `Matcher.MatchPatterns` | src/query/datalog/matcher.rs:251-268 | Joining pattern by pattern, through hash tables on a normalised shared variable, yields exactly the bindings that satisfy all of them, as often as the facts support them |
| `Matcher.AllMatchesSat` | src/query/datalog/matcher.rs:156-247 | A binding is found by the joins if and only if it binds exactly the patterns' variables, each to the value first met, and some fact fits each pattern under it up to the naming of entities by keywords |
| `Matcher.JoinWithPattern` | src/query/datalog/matcher.rs:436-556 | The hash join equals the nested-loop join, order and multiplicity included |
| `Matcher.BucketSuffices` | src/query/datalog/matcher.rs:500-556 | A bucket of the hash table holds every candidate that can join, in order |
| `Matcher.CandidateExact` | src/query/datalog/matcher.rs:95-247 | A fact matches a pattern in at most one way, with exactly the pattern's variables bound to what stands in their places |
| `PatternOrder.OrderShows` | src/query/datalog/matcher.rs:565-573 | Facts on which two orders of the same patterns bind a variable differently |
| `PatternOrder.OrderKeeps` | src/query/datalog/matcher.rs:436-556 | In every reordering of patterns each binding has its like: the same variables, the same values up to their form |
| `PatternOrder.OrderKeepsMatching` | src/query/datalog/matcher.rs:251-268 | Whether patterns match at all does not depend on their order |
| `PatternOrder.OrderFreeIff` | src/query/datalog/matcher.rs:565-573 | On facts over given entities and values the order never shows if and only if no two of their values are forms of one |
| `PatternOrder.TextbookIff` | src/query/datalog/matcher.rs:436-556 | On such facts matching is the textbook meaning of patterns if and only if, besides, none of the values is NaN |
| `PatternOrder.PlanKeeps` | src/query/datalog/optimizer.rs:197-207 | Planning changes a body's bindings in nothing but the form of values |
| `PatternOrder.PlanChangesNothing` | src/query/datalog/evaluator.rs:823-936 | Where no value has two forms a planned body holds exactly when the written one does |
| `Matcher.SubstitutionDecides` | src/query/datalog/evaluator.rs:443-468 | Matching the substituted body decides whether a negation blocks a binding |
| `Matcher.EvaluateNegation` | src/query/datalog/evaluator.rs:518-572 | `not` and `not-join` reject a binding exactly when their body can be satisfied under its shared part, a shared null excepted |
| `Matcher.NullEscapesNegation` | src/query/datalog/evaluator.rs:431-441 | There is a satisfiable negation that does not block, through a shared null |
| `Evaluator.EvaluateRule` | src/query/datalog/evaluator.rs:246-318 | A positive rule yields exactly what it derives; it fails exactly on negated clauses or a satisfied body whose head cannot be instantiated |
| `Evaluator.EvaluateIteration` | src/query/datalog/evaluator.rs:215-238 | One round yields exactly what some rule derives, and succeeds only when no satisfied body lacks a head |
| `Evaluator.NewFacts` | src/query/datalog/evaluator.rs:176-192 | The delta is one fact for each unseen key; refused exactly when there are more than the room left |
| `Evaluator.ForcedRound` | src/query/datalog/evaluator.rs:148-206 | What a round derives from facts of every closed set is in every closed set |
| `LeastModel.LeastIsLeast` | src/query/datalog/evaluator.rs:123-209 | Every program has a least closed set over any base: rules make no new values |
| `LeastModel.LeastUnique` | src/query/datalog/evaluator.rs:123-209 | There is only one |
| `SeenFacts.OutcomeLeast` | src/query/datalog/evaluator.rs:135-192 | An outcome is the least closed set where no two values of the program share an encoding |
| `SeenFacts.EncodingHides` | src/query/datalog/evaluator.rs:176-192 | Two values with one encoding give a program whose outcome lacks a fact of its least closed set |
| `SeenFacts.AlwaysLeastIff` | src/query/datalog/evaluator.rs:135-192 | Over the values of a program outcomes are least closed sets throughout if and only if those values are told apart |
| `SeenFacts.ToldApartIff` | src/storage/index.rs:60-111 | Values are told apart if and only if they hold at most one NaN, and none beside its twin |
| `Evaluator.EvaluateRecursiveRules` | src/query/datalog/evaluator.rs:123-209 | On success the result is an outcome: the base plus facts of the least closed set with keys of their own, closed up to keys, no satisfied body without a head, within `max_results`, a round over it within `max_derived_facts`; the least closed set itself where the values are told apart. It fails on `max_results` only when that set has more, on `max_iterations` only when it has at least that many, on `max_derived_facts` only when a round over distinct derived facts yields more, on a head only for cause, and always stops |
| `Stratified.DerivesLower` | src/query/datalog/evaluator.rs:737-748 | A negation reads the same in every state of its stratum as below it |
| `Stratified.PassCloses` | src/query/datalog/evaluator.rs:1148-1150 | One pass is a joint fixpoint of positive and mixed rules, up to keys, when nothing reads mixed predicates, or when its mixed half added nothing |
| `Stratified.EvaluateMixedRule` | src/query/datalog/evaluator.rs:823-1146 | A mixed rule, its body joined in planned order, adds one fact for each new key it derives and nothing else, within the pass and total limits; it fails on a limit only when that is too much for it |
| `Stratum.EvaluatePositiveRules` | src/query/datalog/evaluator.rs:763-807 | The positive half of a pass reaches the positive fixpoint up to keys, adds nothing the least model lacks and leaves no satisfied body without a head; it fails only for cause |
| `Stratum.EvaluateMixedRules` | src/query/datalog/evaluator.rs:809-1146 | The mixed half runs every mixed rule, adds nothing the least model lacks and no more than `max_derived_facts`; it fails on that limit only when a run of the mixed rules from a reached state adds more |
| `Stratum.EvaluateStratum` | src/query/datalog/evaluator.rs:750-1151 | A stratum ends in an outcome over the facts below it, its least model where the values are told apart, with no positive body left without a head and a last pass within `max_derived_facts`; it fails on `max_results` only when that model has more, on any other limit or a bad head only for cause |
| `StratifiedEvaluation.CollectPredicates` | src/query/datalog/evaluator.rs:671-691 | The predicates evaluated are the least set with the requested ones that is closed under invocation |
| `StratifiedModel.InvokesIff` | src/query/datalog/evaluator.rs:671-691 | The predicates listed for a rule are exactly those its body or a negation of it calls |
| `StratifiedEvaluation.RepeatsIff` | src/query/datalog/evaluator.rs:737-748 | A stratum repeats if and only if one of its rules calls the head of one of its mixed rules |
| `StratifiedEvaluation.SplitNegatesLower` | src/query/datalog/evaluator.rs:722-735 | With a stratification, no negation reads what its own stratum derives |
| `StratifiedEvaluation.Evaluate` | src/query/datalog/evaluator.rs:659-1155 | A successful evaluation is the outcome stratum by stratum, within `max_results`, and exactly the stratum-by-stratum least model where the values are told apart; it fails on `max_results` then only when that model has more, otherwise only for cause at a stratum over the completed lower ones |
| `StratifiedEvaluation.ToldChain` | src/query/datalog/evaluator.rs:737-1151 | Where the values of the program are told apart, the outcomes of the strata are their least models |
| `StratifiedModel.StratifiedModelUnique` | src/query/datalog/evaluator.rs:658-659 | Rules, strata and base facts determine that model |
| `StratifiedModel.StratifiedModelExists` | src/query/datalog/evaluator.rs:658-659 | There is one for every program and base |
| `StratifiedModel.ChainBelow` | src/query/datalog/evaluator.rs:737-748 | The models of the completed strata are part of it |
| `DependencyGraph.Search` | src/query/datalog/stratification.rs:88-103 | The depth-first search decides whether one predicate depends on another through one or more edges |
| `DependencyGraph.EdgeIff` | src/query/datalog/stratification.rs:69-86 | The edges are exactly the invocations of the rules, strict for those in negations |
| `Stratification.Raise` | src/query/datalog/stratification.rs:120-130 | An edge is raised exactly when its callee has a mixed rule and does not lead back to the caller |
| `Stratification.StratifiableIff` | src/query/datalog/stratification.rs:120-156 | The raised edges can be met if and only if no negated invocation lies on a cycle: raising rules out no program |
| `Stratification.TooHigh` | src/query/datalog/stratification.rs:150-153 | A stratum as high as the number of predicates shows that no assignment meets the edges |
| `Stratification.Stratify` | src/query/datalog/stratification.rs:105-158 | Propagation ends, in the least assignment that meets every edge, or with an error exactly when there is none |
| `Stratification.StratifyProgram` | src/query/datalog/stratification.rs:69-158 | Stratification fails exactly on a cycle through a negation; otherwise the strata are the least, and a mixed predicate called from its own stratum calls back |
| `Stratification.EvaluateProgram` | src/query/datalog/evaluator.rs:659-1155 | Stratifying and evaluating a program: refused exactly when a negated invocation lies on a cycle, otherwise its outcome, the stratified model where the values are told apart |

## Left out

- File locking, fsync and directory-sync calls, Windows delete retries, the browser backend and the join order of its build: only which bytes are durable is modelled.
- File header fields, format versions and migrations, and the legacy blob B+tree.
- The text of transactions and queries: parser, executor, aggregates, window functions, `or` / `or-join`, expressions, pseudo-attributes and user-defined functions; of the optimizer, all but the order of patterns.
- Rules that read a derived predicate through a plain pattern or a variable attribute; the stratum theorem needs bodies over stored attributes.
- Which head and dependency a stratification error names.
- The index pages a save that fails without a crash leaves behind: durability is about the facts of the main file.
- A failed page write that leaves part of a page: the cache protocol lets a page be written or not.
- Closing a handle in `Database`: the save of a dropped storage is a step of `Recovery` only.
- Reads inside an open write transaction, whose staged counts its commit replaces.
- TakeGroup: counts in unbounded integers; page ids and counts are kept below 2^64 by precondition.
