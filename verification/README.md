# Verified models of the hash and tree stores in hashcomp

This project models the parts of the repository whose correctness is hardest to see from the code, and proves properties of them for all inputs, all reachable states or all interleavings:

- **FASTER** (`src/faster`): the latch-free hash index, epoch-protected reclamation, the phases of a checkpoint, record versions across a checkpoint, recovery by log replay, index growth, the page ring and the tail of the log, and the log-structured memory allocator.
- **BzTree** (`src/bztree`): key order, search, splits that cascade up the tree, inserts, merges, node layout, and leaves under concurrent edits and a freeze.
- **Level hashing** (`src/levelhash`): the two-level table with displacement and in-place resizing.
- **Murmur hashes** (`src/mhash/util`): the incremental, byte-wise and aligned forms against the one-shot forms.

A concurrent protocol is a state machine: a datatype of steps, a guard `Enabled`, a function `Apply`, and lemmas over every run. One step is one atomic access on a sequentially consistent memory; what is grouped into one step is said at the top of each module. A sequential loop or an object that is changed in place is a method or a class proved against a specification. Fields called history in a comment record what happened and are not read by any step.

`dafny verify dfyconfig.toml` checks everything.

## Modules

| module | what it holds |
|---|---|
| `HashIndex`, `HashRuns` | tentative entries; what stays, goes and is found over a run |
| `Epoch`, `EpochDrain` | epochs and the drain list; a thread that drains or registers by itself |
| `Phases`, `PhaseRuns` | checkpoint phases; what is done when a phase is left, and that every action can be completed |
| `Cpr`, `CprOrder`, `CprLocks`, `CprRuns`, `CprMarks` | record versions and checkpoint locks; order; the version of every record and the fate of every request; the marks requests leave on the lock |
| `Recovery`, `GrowIndex`, `GrowChunks`, `GrowTable` | log replay; splitting bucket chains; handing out chunks; doubling the table |
| `TailAllocator`, `PageRing`, `RingRuns`, `Lss` | the packed tail word; frames, flushes and closes; where markers come to rest and when the log can grow; segment reference counts |
| `KeyOrder`, `BzNodes`, `BzSplit`, `BzCascade`, `BzInsert`, `BzRuns`, `BzSizes`, `BzMerge`, `BzEqualSeps`, `BzLayout`, `BzWitness` | BzTree, from the key comparison up to runs of inserts and deletes, their sizes, and two runs that fail |
| `LeafFreeze`, `LeafInsert`, `BzConsolidate` | one leaf under threads; an insert by one of them alone; copying the leaf once it is frozen |
| `LevelHash` | the level hashing table |
| `Words`, `Murmur`, `MurmurInverse` | 32-bit words as numbers with explicit wrap-around; the hashes; their inverses |
| `Sums`, `Options` | totals over sequences; optional values |

## Where the code does not do what is said about it

- `AtomicPageOffset::NewPage` is documented to return true when the page advanced; the winner of its compare-and-swap gets false (`src/faster/io/persistent_memory_malloc.h:221-222`). `TailAllocator` follows the code; the winner simply asks again.
- Thread identifiers start at 0 (`src/faster/misc/thread.h:58-63`), but the epoch table is scanned from 1. `Epoch.WaitedForIffScanned` shows that deferred actions wait for the thread at index j if and only if 1 <= j <= num_entries_; `Epoch.UnscannedOvertaken` builds the run in which an action runs under the protection of a thread outside, thread 0 included.
- The flushed marker is meant to cover finished writes only. While it is 0, a write that finishes before that of page 0 moves it past page 0. `PageRing.SafeIffFirstPageFirst` shows over runs that the claim holds if and only if no write finishes before page 0's, and `PageRing.PrefixCanFail` gives a run in which it fails.
- The log is meant to open a page whenever older ones can be written out. The constructor accepts any mutable fraction that leaves two pages mutable (`src/faster/io/persistent_memory_malloc.h:279-285`), but `RingRuns.LogGrowsIff` shows that every run can be continued to a further page if and only if at least two pages of the ring are not counted as mutable. With fewer, the tail stops two pages before the end of the ring, unless something else, such as a checkpoint, moves the read-only marker.
- Record versions along a hash chain are meant never to fall. They can fall from the moment a request that started in REST is in a retry queue while the head is of the new version, and not before: `CprOrder.OrderedUnlessEarly` and `CprOrder.EarlyLosesOrder` are the two halves. `CprLocks.OrderedWithoutCrossing` shows that the checkpoint locks keep that moment from coming unless a thread enters IN_PROGRESS while it allocates, and `CprOrder.OrderCanFail` gives a run in which one does. The chain of addresses holds in every run (`CprOrder.LinkedInRun`).
- The debug build asserts that no checkpoint lock is held when the locks are freed (`src/faster/cc/checkpoint_locks.h:127-135`). A request that is marked when its thread enters PREPARE, or pends there, and is then retried in PREPARE gives its mark back only if its version differs from the thread's (`src/faster/api/faster.h:1298`), so its mark stays. `CprMarks.OldCountAtRest` says exactly which steps leave a mark, and `CprMarks.MarkCanStay` gives a run.
- `KeyCompare` is not an order on all byte strings. `KeyOrder.TransitiveIffOneHalf` gives the alphabets on which it is one.
- A leaf split can leave the right half empty, when the largest key takes half of the bytes. Its separator then repeats the one that follows the leaf, if there is one equal to that key, and the parent's constructor aborts on the equal keys (`src/bztree/bztree.cpp:217`). `BzInsert.RoundStopsIff`, `BzCascade.SplitAbortsIff` and `BzCascade.ParentRefusesIff` say exactly when an insert aborts, and `BzWitness.InsertCanAbort` gives four inserts of byte strings into an empty tree of which the last does. Only `ALWAYS_ASSERT` counts as an abort here: a plain `assert`, such as the one on a cut of a node with two children (`src/bztree/bztree.cpp:108`), is taken as compiled out, and no run given here trips that one.
- Where the leaf is the last under its parent, the same split goes through and repeats the separator one level up. A later merge of the parent with its right sibling then puts two equal separators side by side (`BzMerge.JoinedSortedIff`), and the binary search may stop at the second and miss the record. `BzEqualSeps.MergeKeepsIff` says exactly which key is lost, and `BzWitness.MergeCanMiss` gives inserts and a delete of byte strings that take an empty tree to one on which a merge loses a record.
- `BzTree::Delete` calls `CheckMerge` with an empty stack (`src/bztree/bztree.cpp:1682-1718`), so that call never merges; the merge operations are modelled as `CheckMerge` performs them on a stack that holds the parent.

## Model

| member | source | states |
|---|---|---|
| HashIndex.TagsUniqueInEveryRun | src/faster/api/faster.h:453-576 | in every interleaving of FindOrCreateEntry calls, record installs and garbage-collecting removals, a bucket chain, which may grow meanwhile, never holds two final entries with one tag |
| HashIndex.HoldersAgree | src/faster/api/faster.h:539-576 | two callers given entries for one tag, whose installs could still succeed, were given the same slot |
| HashIndex.InvStep | src/faster/api/faster.h:512-537 | each step keeps the relation between the progress of a conflict scan and the tentative slots of the other threads |
| HashRuns.EntryStays | src/faster/api/faster.h:2101-2104 | in every run a final entry stays in its slot as long as no install succeeds there and no collector has looked there for addresses above the entry's |
| HashRuns.TruncatedRemoved | src/faster/api/faster.h:2101-2104 | a collector that looks at an entry below the new begin address and then finds the slot unchanged leaves it unused; it only takes entries with an address |
| HashRuns.TruncatedTaken | src/faster/api/faster.h:2101-2104 | a collector goes on to remove every truncated entry it looks at |
| HashRuns.InstallTakes | src/faster/api/faster.h:952-955 | an install that finds the entry it expects leaves the new record's address in the slot, under the same tag |
| HashRuns.StableEntryFound | src/faster/api/faster.h:453-576 | while a final entry of a tag stays in its slot, a search for the tag claims nothing and grows nothing: it goes towards that entry until it returns it |
| HashRuns.SearchGoesOn | src/faster/api/faster.h:539-576 | in every run a search never gives up: whatever conflicts it meets, it goes on for its tag until it returns a final entry of it |
| HashRuns.TentativeOwnedInRun | src/faster/api/faster.h:549-576 | in every run each tentative entry belongs to a search that is still at work on it |
| HashRuns.LoneSearchEnds | src/faster/api/faster.h:539-576 | in every run, while no thread is adding an entry, a search by one thread alone ends: with the entry of its tag and an unchanged chain, or with one new entry in an unused slot if there was none |
| Epoch.NoActionRunsEarly | src/faster/memory/light_epoch.h:174-280 | an action runs only after its bump, and only after every scanned thread that was protected at the bump has refreshed or unprotected, though the scan and the load and store of Protect are separate steps |
| Epoch.ActionsConserved | src/faster/memory/light_epoch.h:61-102 | at any time a registered action is in exactly one place: carried by a thread, in the drain list, or run; it is never lost and never runs twice |
| Epoch.QuiescentCountExact | src/faster/memory/light_epoch.h:217-263 | when no thread is inside an epoch call the drain count is the number of actions waiting |
| Epoch.WaitedForIffScanned | src/faster/memory/light_epoch.h:270-280 | from any initial state with two threads or more, actions wait for the thread at index j in every run if and only if the scan reads index j |
| Epoch.UnscannedOvertaken | src/faster/memory/light_epoch.h:174-280 | for every index outside the scan, thread 0 included, and whatever the sizes, a run in which an action runs while a thread protected at its bump has not refreshed |
| Epoch.UnscannedIsInvisible | src/faster/memory/light_epoch.h:270-280 | in every run, as long as an unscanned thread does not store to its entry, the same steps run the same actions from the state without its protection |
| Epoch.SafeStep | src/faster/memory/light_epoch.h:270-280 | every epoch up to the published safe one has no scanned thread left in it, although the safe epoch may move backwards |
| Epoch.InvStep | src/faster/memory/light_epoch.h:61-280 | each step of protecting, scanning, draining, pushing and swapping keeps the invariant |
| EpochDrain.DrainAlone | src/faster/memory/light_epoch.h:217-231 | a thread that drains by itself while the count is exact runs every due action from its entry on, each once, in the order of the entries, empties those entries and leaves the others |
| EpochDrain.LoneRefreshRunsAll | src/faster/memory/light_epoch.h:180-187 | in every run, when no thread is in an epoch call and every scanned thread is unprotected or in the current epoch, one refresh by any thread runs every action still waiting and empties the list |
| EpochDrain.PushAlone | src/faster/memory/light_epoch.h:244-268 | a thread that registers its action by itself while some entry is free or due comes to one it can use, and runs the action it takes out |
| Phases.NextFollowsPath | src/faster/cc/state_transitions.h:61-153 | the case table follows each action's path, word by word, and ends in REST |
| Phases.CatchUpDefined | src/faster/cc/state_transitions.h:61-153 | a thread can catch up from a local phase if and only if that phase is REST or lies on the action's path |
| Phases.PhasesCoexist | src/faster/api/faster.h:2453-2662 | during a checkpoint a thread in IN_PROGRESS, WAIT_PENDING or WAIT_FLUSH shares the store only with threads at most one phase away |
| Phases.OperatingNearFront | src/faster/memory/light_epoch.h:305-317 | an operating thread is at most one acknowledged phase behind the system state |
| Phases.NoMoveHappensTwice | src/faster/api/faster.h:2256-2260 | no global step happens twice: each successful move leaves a later state |
| Phases.CatchUpTerminates | src/faster/api/faster.h:2453-2662 | each iteration of the catch-up loop brings the thread one state closer to the one it loaded, however far the others move |
| Phases.CurrentIsNext | src/faster/api/faster.h:2453-2470 | the state an iteration handles is the next on the path, or the final one |
| PhaseRuns.LeftWhenDone | src/faster/api/faster.h:2541-2548 | in every run, when the system has left a phase every thread has handled it; and if it is WAIT_PENDING, WAIT_FLUSH, GC_IO_PENDING, GC_IN_PROGRESS, or INDEX_CHKPT of an index checkpoint, every thread found its work done while handling it |
| PhaseRuns.IndexWritten | src/faster/api/faster.h:2484-2512 | the full checkpoint leaves INDEX_CHKPT only after some thread found the index written |
| PhaseRuns.EveryRunCanFinish | src/faster/api/faster.h:2453-2662 | from every state of every run the threads can take the action to its end: back in REST, with every thread executing operations; no acknowledgement is lost |
| Cpr.InvStep | src/faster/api/faster.h:848-1187 | each step, of new operations and of retries of either version that install, finish in place or pend again, keeps what a thread knows of the entry it read: the versions it may find there in its phase |
| CprOrder.LinkedInRun | src/faster/api/faster.h:952-975 | in every run, crossed or not, each record installed points to the head it replaced, at a lower address |
| CprOrder.FreshInstallsInOrder | src/faster/api/faster.h:848-983 | whatever is pending, a record installed by an operation that is not the retry of a request from REST points to the head it replaced, of no later version |
| CprOrder.OrderedUnlessEarly | src/faster/api/faster.h:987-1187 | all installed records are in version order as long as no request from REST is queued once a new-version record is installed |
| CprOrder.LateRetryBreaksOrder | src/faster/api/faster.h:1296-1302 | from every state with a new-version head in which some thread, wherever it stands, has a request from REST queued, a continuation loses the order |
| CprOrder.EarlyLosesOrder | src/faster/api/faster.h:1320-1385 | in every run, from the very step at which such a request is first queued over the new version, a continuation loses the order |
| CprLocks.OrderedWithoutCrossing | src/faster/cc/checkpoint_locks.h:44-92 | if no thread enters IN_PROGRESS while allocating, old and new lock are never held both ways, their counts are what the threads hold and never go below zero, and all records are in order |
| CprOrder.OrderCanFail | src/faster/api/faster.h:1442-1456 | a run with two threads in which a thread crosses inside BlockAllocate and the chain ends out of order |
| CprLocks.DecisionIsSafe | src/faster/api/faster.h:892-940 | a thread in IN_PROGRESS or later that is let through has no request from REST left that is queued or could go back to the queue |
| CprLocks.NothingMarked | src/faster/api/faster.h:2433-2450 | once all threads have marked their requests, an old count of zero means none is queued or being retried |
| CprRuns.AllocatedVersion | src/faster/api/faster.h:966-970 | in every run a record that a new operation allocates is of the new version for good if and only if its thread is then in IN_PROGRESS or later; one that a retried request allocates, if and only if the request started there |
| CprRuns.NewAfterInProgress | src/faster/api/faster.h:1146-1156 | no record allocated after its thread entered IN_PROGRESS is of the old version, unless it retries an old request |
| CprRuns.InstalledVersion | src/faster/api/faster.h:952-975 | every record installed was allocated by its thread in the phase the thread is still in, has the version that goes with the operation, and replaces the head |
| CprRuns.RequestsConserved | src/faster/api/faster.h:1320-1425 | the requests of a thread deferred under a phase are those taken up again and those that wait: none is lost or retried under another phase |
| CprMarks.MarksExact | src/faster/api/faster.h:2433-2450 | as long as no thread crosses while it allocates, a thread's marks on the lock are, one for one, those of its queued requests, of the request it tries, and those it has left behind |
| CprMarks.OldCountAtRest | src/faster/api/faster.h:1296-1302 | when all requests of the old version are done, the old count is the number of marks left behind: it is zero if and only if no retried old request was taken up in PREPARE and none had to start anew |
| CprMarks.MarkCanStay | src/faster/api/faster.h:1296-1302 | a run of one thread, without crossing, that ends with no request and an old count of one |
| CprRuns.UpdateAlone | src/faster/api/faster.h:848-983 | an operation that runs by itself with no lock of the other version and no shift in its way installs its record over the head and leaves the locks as they were, but for the mark of an old request |
| Recovery.ReplayRestores | src/faster/api/faster.h:1996-2028 | whatever the fuzzy index held, replaying a well-formed log leaves each touched entry at the newest record of version at most v, or at the predecessor from before the start |
| Recovery.RecoveredChainExact | src/faster/api/faster.h:1996-2028 | from a recovered entry, the chain inside the replayed region holds exactly the slot's records of version at most v |
| Recovery.ChainOfRecord | src/faster/api/faster.h:1996-2028 | the chain from a record visits exactly its slot's records up to it, and versions only fall along it |
| Recovery.InvalidatedExactly | src/faster/api/faster.h:2014-2024 | exactly the replayed records of later versions change, and only in their invalid bit |
| Recovery.ReplayConcat | src/faster/api/faster.h:1876-1895 | replaying two stretches in turn is replaying their concatenation |
| Recovery.Store.RecoverRecord | src/faster/api/faster.h:2007-2025 | one record's replay moves the entry and the invalid bit as the specification says |
| Recovery.Store.RecoverFromPage | src/faster/api/faster.h:1996-2028 | the scan of a page replays its records in address order |
| Recovery.Store.RecoverHybridLog | src/faster/api/faster.h:1838-1905 | the page loop replays the records of all pages, the first from its start address and the last up to the tail; if each record is linked to its slot's latest earlier one, every touched entry ends up restored and every other is unchanged |
| Recovery.PagesWellFormed | src/faster/api/faster.h:1876-1895 | the records met page by page come in the order of their addresses, so links are all that a well-formed log needs |
| Recovery.EveryRecordReplayed | src/faster/api/faster.h:1838-1895 | the pages scanned leave out no record: each valid record that starts in the region, before the last byte of its page, is replayed |
| GrowIndex.SplitBuckets | src/faster/core/key_hash.h:31-34 | a doubled table sends a key to its old bucket or to that bucket's partner |
| GrowIndex.TraceBackForOtherChainStart | src/faster/api/faster.h:2136-2150 | the address returned starts the part of the chain that serves the other half: every such key is found from it as from the start |
| GrowIndex.ChainWriter.constructor | src/faster/api/faster.h:2165-2176 | a new bucket chain starts empty |
| GrowIndex.ChainWriter.AddHashEntry | src/faster/api/faster.h:2122-2133 | an entry is appended to the chain, whose buckets fill up one after the other |
| GrowIndex.SplitBucket | src/faster/api/faster.h:2176-2236 | the two new chains serve every key of their half as the old chain did, with unique tags |
| GrowTable.DoubleTable | src/faster/api/faster.h:2153-2253 | however threads take the chunks, the splits of all buckets leave a table in which every key is found exactly as in the old one, with unique tags |
| GrowTable.SplitInOrder | src/faster/api/faster.h:2153-2239 | splitting each old bucket once, in any order, leaves two new buckets that serve it; each split finds its two new buckets empty |
| GrowIndex.ServesOtherSide | src/faster/api/faster.h:2199-2222 | the entry moved to the half its head record is not in starts that half's part of the chain |
| GrowChunks.EachBucketSplitOnce | src/faster/api/faster.h:2153-2253 | however threads take chunks, no bucket is split twice, and when the old table is freed every bucket has been split and no thread is at work |
| GrowChunks.ChunkExists | src/faster/api/faster.h:2843-2846 | every bucket lies in some chunk, the last of which may be longer or shorter |
| GrowChunks.ChunkUnique | src/faster/api/faster.h:2153-2163 | no bucket lies in two chunks |
| GrowChunks.NoWorkAfterLastChunk | src/faster/memory/grow_state.h:22-37 | when the pending count is zero every chunk has been completed |
| GrowChunks.SplitsCoverTable | src/faster/api/faster.h:2153-2253 | when the old table is freed, the buckets split are exactly those of the table, each once |
| GrowChunks.SplittersGoOn | src/faster/memory/grow_state.h:22-37 | in every run a thread at work on a chunk finds the pending count above zero |
| GrowChunks.WorkEndsFreed | src/faster/api/faster.h:2153-2253 | in every run, when no thread has any work left, every chunk is done and the old table has been freed |
| TailAllocator.AllocationsDisjoint | src/faster/io/persistent_memory_malloc.h:590-604 | successful allocations do not overlap and increase in atomic order |
| TailAllocator.GrantsInPage | src/faster/io/persistent_memory_malloc.h:206-239 | every successful allocation lies within one page, behind the tail |
| TailAllocator.OffsetNeverOverflows | src/faster/io/persistent_memory_malloc.h:134-204 | in every interleaving, any further reservation changes only the 41-bit offset, never the page |
| TailAllocator.OneWinnerPerPage | src/faster/io/persistent_memory_malloc.h:206-239 | each page is advanced past by exactly one winner, in page order |
| TailAllocator.OffsetFits | src/faster/io/persistent_memory_malloc.h:134-204 | with at most 96 threads a further reservation never carries into the page |
| TailAllocator.OffsetCounts | src/faster/io/persistent_memory_malloc.h:590-604 | in every run the offset of the page is what its granted and failed reservations add up to, and each failed one did not fit |
| TailAllocator.FittingGranted | src/faster/io/persistent_memory_malloc.h:590-604 | a reservation that fits in the page is granted where the tail stood |
| TailAllocator.TurnsPage | src/faster/io/persistent_memory_malloc.h:206-239 | from every reachable state a thread that finds the page full and goes on by itself moves the tail to the next page, once, and is granted its reservation there |
| PageRing.PagesInDistinctFrames | src/faster/io/persistent_memory_malloc.h:606-640 | in every run the pages from the safe head to one past the tail occupy distinct frames |
| PageRing.ClearedExactlyOnce | src/faster/io/persistent_memory_malloc.h:682-705 | no page is cleared twice, and each is cleared before its frame is used again |
| PageRing.ClearedByTheLast | src/faster/io/persistent_memory_malloc.h:744-768 | a page is cleared by whichever of write completion and closing comes last, never before its write has finished and never after the frame has another page |
| PageRing.MarkersOrdered | src/faster/io/persistent_memory_malloc.h:988-1031 | safe head, head, flushed, safe read-only, read-only and tail stay ordered |
| PageRing.MarkersAdvance | src/faster/io/persistent_memory_malloc.h:468-478 | every marker only advances |
| PageRing.SafeIffFirstPageFirst | src/faster/io/persistent_memory_malloc.h:513-530 | however a run goes on from any of its states without a further write that finishes, the flushed marker covers finished writes only, if and only if no write finishes before page 0's |
| PageRing.FlushedPrefixDone | src/faster/io/persistent_memory_malloc.h:513-530 | if page 0 is written first, the flushed marker covers only a prefix of finished writes, despite frame reuse |
| PageRing.ScanReads | src/faster/io/persistent_memory_malloc.h:513-530 | the frame a scan reads still belongs to the page it means, so it advances over a finished write or stops, except at an unfinished page 0 |
| PageRing.FirstPageSkipped | src/faster/io/persistent_memory_malloc.h:513-530 | from every state with the marker at 0 and page 0 in flight, another write that finishes takes the marker past it |
| PageRing.PrefixCanFail | src/faster/io/persistent_memory_malloc.h:513-530 | a run in which the marker covers an unfinished page |
| PageRing.InvStep | src/faster/io/persistent_memory_malloc.h:606-790 | each step of NewPage, the shifts, the deferred callbacks and the completion callbacks keeps the invariant |
| PageRing.SlotIsRemainder | src/faster/io/persistent_memory_malloc.h:327-346 | the frame of a page is the remainder by the number of frames |
| RingRuns.MarkersAtRest | src/faster/io/persistent_memory_malloc.h:513-530 | in every run, whenever no callback is pending the log is closed up to its head, and every page below the read-only marker is written and flushed, whatever pages the scans stepped over |
| RingRuns.ComesToRest | src/faster/io/persistent_memory_malloc.h:682-790 | from every reachable state all pending callbacks can run, and then the markers are at rest |
| RingRuns.MarkersLag | src/faster/io/persistent_memory_malloc.h:988-1031 | in every run the read-only marker leaves the mutable pages, and the head all pages of the ring but four, counted back from the page after the tail |
| RingRuns.LogGrowsIff | src/faster/io/persistent_memory_malloc.h:606-640 | every run can be continued until the tail opens a further page, if and only if at least two pages of the ring are not counted as mutable |
| Lss.ReleasedExactlyOnce | src/faster/misc/lss_allocator.cc:34-55 | in every interleaving a segment has been released once if it is sealed and all its blocks are freed, and not at all otherwise |
| Lss.BlocksApart | src/faster/misc/lss_allocator.h:178-185 | live blocks of a segment do not overlap |
| Lss.BlockInside | src/faster/misc/lss_allocator.h:178-185 | every live block lies inside its segment |
| Lss.FreesNeverCarry | src/faster/misc/lss_allocator.cc:34-55 | in every state, one more free never carries into the sealed count |
| Lss.SealsAtMostOnce | src/faster/misc/lss_allocator.cc:57-93 | a request that fits a segment seals at most one: Allocate recurses at most once |
| Lss.AlignedFits | src/faster/misc/lss_allocator.cc:95-140 | contents aligned inside their block fit it, wherever the buffer lies |
| Lss.PlainFits | src/faster/misc/lss_allocator.cc:66-68 | a plain block has room for the header and the contents asked for, and less than one unit to spare |
| Lss.ContentsApart | src/faster/misc/lss_allocator.cc:57-140 | in every interleaving the header and the contents asked for of a live block, plain or aligned, lie inside the segment and clear of those of every other live block |
| Lss.ContentsAligned | src/faster/misc/lss_allocator.cc:95-140 | the contents of a live aligned block lie at a multiple of the alignment asked for |
| Lss.FittingGranted | src/faster/misc/lss_allocator.cc:57-93 | a reservation that fits the segment is granted, as one block for the request made |
| KeyOrder.MyMemcmp | src/bztree/bztree.h:240-247 | the loop returns the signed difference at the first byte that differs |
| KeyOrder.CompareIsRank | src/bztree/bztree.h:279-296 | on keys from one half of the byte range KeyCompare is the order of the keys' ranks, hence total, and equal means identical |
| KeyOrder.TransitiveIffOneHalf | src/bztree/bztree.h:279-296 | over an alphabet KeyCompare is transitive if and only if the alphabet does not mix bytes below and from 0x80 |
| KeyOrder.MixedCycle | src/bztree/bztree.h:240-290 | for all such bytes x and y three keys made of them compare in a circle |
| BzNodes.KeyOfFaithful | src/bztree/bztree.h:279-296 | for bytes below 0x80, comparing the ranks the tree model uses is comparing the keys |
| BzNodes.GetChildIndex | src/bztree/bztree.cpp:1210-1243 | the loop is the search whose results are characterised below; on separators in order it returns the last strictly below the key, or the last not above it |
| BzNodes.SearchWeak | src/bztree/bztree.cpp:1210-1243 | on separators with repetitions the search ends at the right child, or beside some separator equal to the key |
| BzNodes.LookupFindsHeld | src/bztree/bztree.cpp:1467-1495 | in a valid tree a search finds exactly the visible records of the leaves |
| BzNodes.CodeLookupIsLookup | src/bztree/bztree.cpp:1467-1495 | in a valid tree the binary searches lead to that record |
| BzSplit.SplitPoint | src/bztree/bztree.cpp:1383-1395 | the loop counts the records that go left |
| BzSplit.LeftCountBalances | src/bztree/bztree.cpp:1383-1395 | the left half is the shortest prefix with half of the bytes |
| BzSplit.RightEmptyIff | src/bztree/bztree.cpp:1383-1395 | the right half is empty if and only if all records but the last do not reach half of the bytes |
| BzSplit.SortedRecords | src/bztree/bztree.cpp:913-941 | the records copied from a frozen leaf are exactly the visible ones, in key order |
| BzSplit.LeafSplits | src/bztree/bztree.cpp:1366-1410 | the two leaves answer every key on their side of the separator as the old leaf did, within its bounds |
| BzSplit.InsertedLookup | src/bztree/bztree.cpp:170-274 | an internal node whose child gives way to its two halves answers every key as before |
| BzSplit.CutSplits | src/bztree/bztree.cpp:300-344 | an internal node cut at a separator answers every key as its two parts do |
| BzCascade.PlacedAtChild | src/bztree/bztree.cpp:200-272 | the place found by comparing keys is the place of the child that was split, and the constructor aborts if and only if the key equals the next separator |
| BzCascade.CascadeKeeps | src/bztree/bztree.cpp:277-377 | a cascade of internal splits up any stack keeps the tree valid and the answer to any key |
| BzCascade.SplitPreservesMap | src/bztree/bztree.cpp:1366-1444 | splitting the leaf a key leads to, with all it causes, keeps the tree valid and the answer to any key |
| BzCascade.CascadeAbortsIff | src/bztree/bztree.cpp:277-377 | a cascade aborts if and only if some node on the way up already has the key it is handed, or has too few children to be cut |
| BzCascade.SplitAbortsIff | src/bztree/bztree.cpp:1366-1444 | splitting the leaf a key leads to aborts if and only if it has at most two records, none visible, or its separator meets that condition on the path |
| BzCascade.ParentRefusesIff | src/bztree/bztree.cpp:1383-1410 | the leaf's parent refuses the separator if and only if the right half is empty and the leaf's largest key is the separator that follows it |
| BzCascade.SplitProceeds | src/bztree/bztree.cpp:1366-1444 | with more than two records, one visible, a right half and three children or more in every ancestor, the split completes |
| BzInsert.InsertMeans | src/bztree/bztree.cpp:1497-1619 | after any number of rounds: an insert that succeeds adds exactly its binding to a map that lacked the key, one that reports the key found it, one still splitting has changed no answer, one that aborts has come to a tree with the same answers on which the key's leaf cannot be split |
| BzInsert.RoundStopsIff | src/bztree/bztree.cpp:1497-1619 | a round aborts if and only if the key is absent, its leaf is full, and its split aborts |
| BzWitness.InsertCanAbort | src/bztree/bztree.cpp:200-240 | three inserts of byte strings below 0x80 into an empty tree succeed and the fourth aborts on a repeated separator |
| BzRuns.DeleteMeans | src/bztree/bztree.cpp:1682-1704 | a delete succeeds if and only if the key is present, keeps the tree valid and takes away that answer only |
| BzRuns.RunMeans | src/bztree/bztree.cpp:1497-1704 | after any sequence of inserts and deletes from an empty tree, with all the splits they cause, the tree is valid and answers every key as the map does |
| BzRuns.ReportsMean | src/bztree/bztree.cpp:1497-1704 | in such a sequence an insert succeeds if and only if the map lacks its key, a delete if and only if it has it |
| BzSizes.LeavesStayBelow | src/bztree/bztree.cpp:486-582 | after any sequence of inserts and deletes from an empty tree every leaf is below the split threshold |
| BzSizes.FullIff | src/bztree/bztree.cpp:486-582 | a leaf is split if and only if it would reach the threshold with the new record |
| BzSizes.RoomMeans | src/bztree/bztree.cpp:277-300 | an internal node that takes a separator stays below the threshold, and one that is cut instead would have come within a node header of it |
| BzMerge.MergePreservesMap | src/bztree/bztree.cpp:1105-1144 | merging two siblings anywhere in the tree, leaves or internal nodes of which the left ends below the separator, keeps the tree valid and the answer to any key |
| BzEqualSeps.MergeKeepsIff | src/bztree/bztree.cpp:1105-1144 | merging any two siblings anywhere in a valid tree keeps the answer to a key if and only if the key is not missed: it is the repeated separator, present, and the search stops at the second of the two |
| BzEqualSeps.MergedAnswersIff | src/bztree/bztree.cpp:1245-1364 | a merged node answers a key as its side did under the same exact condition |
| BzEqualSeps.PickInJoined | src/bztree/bztree.cpp:1210-1302 | where the binary search goes in a merged node with two equal separators, for keys on each side and for the separator itself |
| BzWitness.MergeCanMiss | src/bztree/bztree.cpp:1015-1302 | inserts and a delete of byte strings below 0x80 take an empty tree to one on which the merge that CheckMerge chooses loses a record |
| BzMerge.JoinedSortedIff | src/bztree/bztree.cpp:1245-1302 | the separators of a merged internal node are in order if and only if the left ones end below the new one |
| BzMerge.LeavesMerged | src/bztree/bztree.cpp:1304-1364 | a merged leaf answers every key as the leaf on its side of the separator did |
| BzMerge.LeafMergeFits | src/bztree/bztree.cpp:1015-1067 | a leaf merge that CheckMerge chooses fits a leaf, if two thresholds fit one |
| BzMerge.ChosenIff | src/bztree/bztree.cpp:1015-1067 | a child is merged if and only if it and a neighbour are small, with the left one if both are |
| BzLayout.MergeNodes | src/bztree/bztree.cpp:1245-1302 | the merged node holds the joined entries, its allocation is its size, and its data ends exactly at its metadata |
| BzLayout.DeleteRecord | src/bztree/bztree.cpp:978-1013 | the rebuilt parent holds the remaining entries, the merged child in place, and is exactly filled |
| BzLayout.CopyInserting | src/bztree/bztree.cpp:170-274 | the copy loop yields the range with the separator inserted, or aborts if the separator is present |
| BzLayout.HalvesAreParts | src/bztree/bztree.cpp:326-344 | the two ranges copied in a split are the halves of a cut |
| LeafFreeze.OneRecordChanges | src/bztree/bztree.cpp:486-582 | the visible records change only at a successful publish, update or delete: one record, with the payload or the words of that operation |
| LeafFreeze.FrozenForever | src/bztree/bztree.cpp:880-911 | once the frozen bit is set, no step of any insert, update or delete changes a metadata word or a visible record, and no record appears |
| LeafFreeze.CopyIsSnapshot | src/bztree/bztree.cpp:944-976 | a copy that reads each metadata word and each word of a record at a different moment after the freeze gets the record as it was at the freeze |
| BzConsolidate.CollectedAtFreeze | src/bztree/bztree.cpp:913-930 | however its reads are spread over the time after the freeze, the copy collects the visible records of the leaf at the freeze, in slot order |
| BzConsolidate.ConsolidatedExactly | src/bztree/bztree.cpp:880-976 | the sorted copy is in key order and holds exactly the records visible at the freeze, and a split divides the leaf as it was then |
| LeafFreeze.UpdateEffect | src/bztree/bztree.cpp:658-696 | an update replaces the payload of the record it found and nothing else |
| LeafFreeze.DeleteEffect | src/bztree/bztree.cpp:752-784 | a delete hides the record it found and nothing else |
| LeafFreeze.InvStep | src/bztree/bztree.cpp:486-582 | each step keeps reservations apart and every unfinished copy inside its own |
| LeafFreeze.FreezeStops | src/bztree/bztree.cpp:880-911 | after a freeze that finds its expected status no publish, update or delete succeeds, no slot is reserved, and every record stays as it was |
| LeafInsert.InsertAlone | src/bztree/bztree.cpp:486-582 | in every run an insert by a thread left alone, into a leaf that is not frozen and has room, makes exactly its record visible, in the next slot |
| LevelHash.FindEmpty | src/levelhash/level_hashing.c:285-308 | the loop finds the first empty slot of two buckets, taken slot by slot |
| LevelHash.FindKey | src/levelhash/level_hashing.c:170-178 | the loop finds the first slot of a bucket that holds the key |
| LevelHash.TryPlace | src/levelhash/level_hashing.c:285-308 | an item goes into a candidate bucket, adding one item and losing none; it fails if and only if both are full |
| LevelHash.IndexesRepeat | src/levelhash/level_hashing.c:23-33 | hashes that differ by a multiple of half the buckets share both buckets |
| LevelHash.IndexesReached | src/levelhash/level_hashing.c:23-33 | every bucket of the lower half is some hash's first, and every one of the upper half its second |
| LevelHash.TryMovement | src/levelhash/level_hashing.c:355-395 | a displacement adds one item, loses none and keeps each in a candidate bucket; it fails if and only if every item's other bucket is full |
| LevelHash.MoveUp | src/levelhash/level_hashing.c:401-442 | an item of a bottom bucket moves to a candidate bucket of the top level, or no item of the bucket can |
| LevelHash.Table.constructor | src/levelhash/level_hashing.c:53-82 | a new table is valid and empty |
| LevelHash.Table.Find | src/levelhash/level_hashing.c:162-193 | a key is found if and only if a live item has it, wherever it sits |
| LevelHash.Table.Query | src/levelhash/level_hashing.c:162-193 | the value returned is live, and the only one if the key was inserted once |
| LevelHash.Table.Update | src/levelhash/level_hashing.c:238-269 | one item with the key gets the new value, and nothing else changes |
| LevelHash.Table.Delete | src/levelhash/level_hashing.c:200-231 | one item with the key goes, and nothing else changes |
| LevelHash.Table.Insert | src/levelhash/level_hashing.c:275-348 | a successful insert adds exactly one item and loses none, a failed one changes nothing, and it fails if and only if neither slot nor move is left |
| LevelHash.Table.InsertBelow | src/levelhash/level_hashing.c:327-345 | the slot vacated by a bottom-to-top move takes the new item |
| LevelHash.Table.Resize | src/levelhash/level_hashing.c:90-155 | a completed resize keeps every item, each in a candidate bucket of the enlarged table |
| LevelHash.Operate | src/levelhash/level_hashing.c:90-442 | one operation on any table changes the live items by what it reports, reports what is live, and only a resize replaces the arrays |
| LevelHash.Run | src/levelhash/level_hashing.c:90-442 | any sequence of operations, repeated keys included, gains one item per successful insert, loses one per successful delete and none otherwise, reports what is live, and stops short only at a resize that finds no room |
| LevelHash.HistoryIsMap | src/levelhash/level_hashing.c:90-442 | as long as every insert comes when its key is absent, the live items are the bindings of the folded map and every report is what the map says |
| LevelHash.InsertsFindAbsent | src/levelhash/level_hashing.c:90-442 | a sequence that inserts no key again without a delete in between meets that condition |
| LevelHash.RunAsMap | src/levelhash/level_hashing.c:90-442 | running such a sequence keeps the table equal to the map |
| Murmur.MurmurHash1 | src/mhash/util/MurmurHash1.cpp:20-64 | the loop computes the hash as a fold over the words and the last bytes |
| Murmur.MurmurHash2 | src/mhash/util/MurmurHash2.cpp:37-86 | the loop computes the hash as a fold over the words and the last bytes |
| Murmur.MurmurHash2A | src/mhash/util/MurmurHash2.cpp:222-259 | the loop computes the hash as a fold over the words, the last bytes and the length |
| Murmur.MurmurHashNeutral2 | src/mhash/util/MurmurHash2.cpp:347-387 | for every key and seed, the byte-wise form gives the hash of MurmurHash2 |
| Murmur.MurmurHashAligned2 | src/mhash/util/MurmurHash2.cpp:402-530 | for every key, seed and alignment, the aligned form gives the hash of MurmurHash2 |
| Murmur.MurmurHash1Aligned | src/mhash/util/MurmurHash1.cpp:73-171 | for every key, seed and alignment, the aligned form gives the hash of MurmurHash1 |
| Murmur.AlignedBlocks | src/mhash/util/MurmurHash2.cpp:431-447 | joining the held-back bytes with aligned words mixes exactly the words of the unaligned key |
| Murmur.HashChunks | src/mhash/util/MurmurHash2.cpp:277-339 | for every way of cutting a key into chunks, the incremental hash is MurmurHash2A of the whole key |
| Murmur.CMurmurHash2A.constructor | src/mhash/util/MurmurHash2.cpp:280-285 | Begin starts a hash that has seen nothing |
| Murmur.CMurmurHash2A.Add | src/mhash/util/MurmurHash2.cpp:287-302 | a chunk of any length is appended to what has been seen |
| Murmur.CMurmurHash2A.MixTail | src/mhash/util/MurmurHash2.cpp:320-333 | single bytes are fed until a word is complete and at least four bytes, or none, are left |
| Murmur.CMurmurHash2A.End | src/mhash/util/MurmurHash2.cpp:304-313 | the result is MurmurHash2A of all that has been seen |
| MurmurInverse.Mix2Undone | src/mhash/util/MurmurHash2.cpp:55-61 | the word mixed in is recovered from the state before and after by the inverse multiplications and the same fold |
| MurmurInverse.Hash2Undone | src/mhash/util/MurmurHash2.cpp:37-86 | for every key MurmurHash2 maps the seeds one to one onto the hashes, with an inverse of its own constants |
| MurmurInverse.Hash2AUndone | src/mhash/util/MurmurHash2.cpp:222-259 | the same for MurmurHash2A |
| MurmurInverse.Hash1Undone | src/mhash/util/MurmurHash1.cpp:20-64 | the same for MurmurHash1 |
| MurmurInverse.OneWordDecides2 | src/mhash/util/MurmurHash2.cpp:37-86 | changing one word of a key, whole or last, always changes its MurmurHash2 |
| MurmurInverse.OneWordDecides2A | src/mhash/util/MurmurHash2.cpp:222-259 | changing one word of a key, whole or last, always changes its MurmurHash2A |
| MurmurInverse.OneWordDecides1 | src/mhash/util/MurmurHash1.cpp:20-64 | changing one word of a key, whole or last, always changes its MurmurHash1 |
| MurmurInverse.ShortKeys | src/mhash/util/MurmurHash2.cpp:37-86 | the hash value of keys of up to three bytes, for seeds that depend on them |
| MurmurInverse.LongKeys | src/mhash/util/MurmurHash2.cpp:37-86 | the hash value of listed keys of five, six and seven bytes |

## Left out

Assumptions of the models:

- Threads that take part in `Phases` and `Cpr` sit at epoch table indices 1 and up; the set of protected threads is fixed during one action and all threads start it in local phase REST.
- Versions fit their 13 bits; hash table sizes are powers of two, so the masked index is a remainder.
- `PageRing`: a deferred epoch callback is one step (`OnPagesClosed` advances the safe head before it clears pages), shifts are page-aligned (`ShiftReadOnlyToTail` is not modelled), and completion callbacks run on threads protected by the epoch.
- `Cpr`: one entry and its lock, during one checkpoint, with the head of the chain in memory; `PhaseRuns.LeftWhenDone` is what allows a thread to move on only when all have reached its phase, and past WAIT_PENDING only when no request of the old version is queued or being retried. The turn to disk after allocating is not a step (`src/faster/api/faster.h:1162-1171`). A borrow from the old count into the new one in the lock word is not modelled; it needs a thread that crosses.
- `BzNodes`: keys have bytes below 0x80 and are not empty.

Not modelled:

- `InternalDelete`'s in-place path, which clears an entry without comparing it (`src/faster/api/faster.h:1265-1270`), and so is not a step of `HashIndex`.
- `InternalContinuePendingRmw`, through which requests come back from disk, the values that in-place updates write, and value-level consistency of checkpoints for keys that share a chain.
- The chunks of garbage collection, whose bound uses the growth counters (`src/faster/api/faster.h:2088`).
- Bit packing of bucket entries, addresses, status words, record metadata and lock words, other than the tail word and the segment word.
- BzTree key uniqueness under concurrent inserts (`src/bztree/bztree.cpp:645-653`), splits and merges of different threads against each other (a split that backs off is a round that changes nothing), range scans, the internals of the multi-word compare-and-swap, persistence and recovery.
- Level hashing under threads: spinlocks are left out, and so is the state after a failed resize, which ends the program.
- `src/xhash`, the concurrent tables of `src/mhash`, the 64-bit Murmur hashes, Murmur3 and City: nothing above the ones proved, or plumbing.
- Files, disks, asynchronous I/O, Windows code, GUIDs, contexts, benchmarks.
- Weak memory ordering, and that spin loops end.
