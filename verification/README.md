# Baobab, verified

A Dafny model of the core of Baobab, a key-value store that keeps a B+ tree in fixed-size pages, caches the
pages in a sharded buffer manager, and logs changes ahead of writing them. The model follows the Go code branch by
branch; where the code does not do what its comments or names promise, the model does what the code does, and a
lemma says exactly when the promise is kept.

| component | files |
|---|---|
| B+ tree | `Keys`, `Levels`, `TreeSteps`, `TreeMoves`, `BTree`, `Lookup`, `Siblings`, `RangeScan`, `Index` |
| Buffer manager | `Clock`, `WTinyLfu` (sweep and segment accounting), `Shard`, `ShardPins`, `ShardPages`, `ShardMisses`, `ShardRuns`, `ShardClients` (interleaved runs), `DirtyPages` |
| Write-ahead log | `WalLayout`, `Wal`, `Recovery` |
| Frequency filter | `Doorkeeper`, `CountMin`, `TinyLfu` |
| Disk and page ids | `JobQueue`, `Pager` |

**The tree.** Pages are a map from page id to node. `Levels` reads a tree as a list of levels, each a list of pages with
their upper fence keys; a tree is well formed when each level is what the one above promises. Insertion is five moves on
such lists (put, split a leaf, absorb a separator, split an internal page, grow a root), and between two moves the tree is
`Pending`: well formed except for one separator that the parent does not know yet. `Index` is the imperative code, with its
breadcrumb stack, proved to take exactly these moves. `Lookup.WellFormedIsSubtree` relates the levels to the usual recursive
definition of a B+ tree.

**The shard.** `Shard` is a state machine with one step per section under a lock: clients look up, pin, read in, write and
release frames, an evictor marks, flushes, drops and resets victims, and the background writer pins, copies, writes and
unpins. `ShardPins` proves pin safety in every state of every run, `ShardMisses` what a miss returns in every run, and
`ShardPages` that the table names no slot but that of the page in every run. Coherence is proved page by page in `ShardPages`:
a page is coherent throughout exactly the runs in which a frame is granted for it only while it is neither cached nor being
brought in, whatever happens to other pages. `ShardRuns` has the same for all pages at once. The condition is about the
invariant; a client outside such runs gets what `ShardMisses.MissReturns` says on a miss, and on a hit, if the
table still names the slot, the page asked for, by `ShardPages.HitReturns`, but possibly with stale content
(`ShardRuns.StaleHitHappens`). `ShardClients` says which write a reader sees and where each operation leads.

## Where code and promise disagree

- `RangeSearch` stops at the first key *below* `maxKey` (pkg/bptree/bp_tree.go:1919), although its comment says greater:
  `RangeScan.BoundKept` gives the exact cases in which the answer stays within the bound, `RangeScan.RangeExact` those in
  which it is the range.
- A lookup and the pin that follows it are two steps. A frame can be spared, or evicted and reused, in between
  (`ShardRuns.SparedFrameIsReadTwice`, `ShardRuns.ReusedFrameIsReturned`); `ShardPages.HitReturns` says when a hit
  returns the page asked for and when with its last content, `ShardMisses.MissReturns` exactly when a miss returns the last
  content. A stale read needs no second miss: one client and an evictor are enough (`ShardRuns.StaleReadHappens`).
- `Increment` moves an unassigned entry into the window without counting it (pkg/buffermanager/wtinylfu.go:67-70). `put`
  (pkg/buffermanager/shard.go:63-67) calls it on an entry it has not pinned, which may have been evicted and reset by then. From
  then on the window can hold more than its counter says, and `getFreeFrame` fails with "Unable to add item"
  (pkg/buffermanager/wtinylfu.go:332) exactly when the entries are starved: `WTinyLfu.Policy.Increment`,
  `WTinyLfu.Policy.GetFreeFrame`, `WTinyLfu.StarvedMeansDrift` and `WTinyLfu.StarvedHappens`.
- A log record that ends exactly on a page boundary makes the next one write the page header twice:
  `WalLayout.RecordAtItsLsn`, `WalLayout.ReopenRestores` and `WalLayout.RepeatMeansBoundary`. Recovery panics at the first
  operation behind such a header: `Recovery.PanicAtRepeat`.
- `readFullLog` takes the page header out at an index that is right in page 0 only (pkg/recovery/recovery.go:392), so recovery
  panics at the first record cut by a later page boundary: `Recovery.RecoveryReplaysLog`. It also steps over a
  checkpoint without counting a page header inside it: `Recovery.AdvanceAgrees`, and `Recovery.CutCheckpointLoses` for a log
  whose last operation is lost that way.
- The redo point of a checkpoint does not count a page header inside the record before it: `Wal.RedoIsNext`. `Recover` reads it
  without taking a page header out: `Recovery.ReadRedoBack`, `Recovery.RedoIsLost`.
- An eviction that fails leaves its victims marked, and after a failed write also pinned, so that no sweep finds them again:
  `WTinyLfu.Policy.EvictWindow`.
- `MaxLSN` compares an offset to itself (pkg/helpers/helpers.go:271); `Wal.MaxLSN` shows that the result is still a maximum.
- Two calls of `addJob` can start two goroutines for one page: `JobQueue.RunSingle` and `JobQueue.OutOfOrder`.
- The free list is flushed as if 4096 entries went on a page: `Pager.FlushLoad`. A popped id from 2^31 on is lost, and
  the id counter wraps around to 0: `Pager.Allocator.NewPageId`.
- `popDirtyPage` removes the page under the key its frame has at that time: `DirtyPages.PageSet.PopDirtyPage`.

## Model

| member | source | states |
|---|---|---|
| `Keys.Compare` | pkg/helpers/helpers.go:96-108 | byte-wise comparison decides the strict total order of keys: negative, zero and positive exactly for less, equal and greater |
| `Keys.LessIsLexicographic` | pkg/helpers/helpers.go:96-108 | the order used in all proofs is the lexicographic order of byte strings, and it is total |
| `Keys.CompareAtDifference` | pkg/helpers/helpers.go:96-108 | of two keys that differ the first byte where they do decides, and a key comes before its extensions |
| `Keys.InsertBinarySearch` | pkg/helpers/helpers.go:84-112 | terminates on every non-empty sorted list with the slot min(lower bound, n-1) |
| `Keys.InsertToList` | pkg/helpers/helpers.go:115-143 | the append and overlapping copy put the value at the index, leave what was before it and move up by one what was at or behind it; an index past the end appends, a negative one is an error |
| `Keys.InsertKeepsSorted` | pkg/helpers/helpers.go:115-143 | inserting an absent key at its lower bound keeps a list sorted and free of duplicates |
| `Levels.EntriesInKeyOrder` | pkg/bptree/bp_tree.go:300-318 | the entries of all leaves, left to right, are strictly sorted |
| `Levels.PutUpdatesMap` | pkg/bptree/bp_tree.go:237-266 | inserting or replacing one entry in the sorted entries updates the map they stand for at that key only |
| `TreeSteps.LeafPut` | pkg/bptree/bp_tree.go:225-266 | move 1: a leaf that still fits can be rewritten within its fences and the tree stays well formed |
| `TreeSteps.SplitLinks` | pkg/bptree/bp_tree.go:300-364 | relinking the new page, the old page and the old right sibling keeps the level one doubly linked list |
| `TreeSteps.SplitLevel` | pkg/bptree/bp_tree.go:300-364 | cutting a page in two keeps everything a level must keep: fences, occupancy, distinct ids, links |
| `TreeSteps.LeafHalves` | pkg/bptree/bp_tree.go:104-125 | the halves of a split leaf make up the leaf, in order, and their sizes differ by at most one |
| `TreeSteps.LeafSplit` | pkg/bptree/bp_tree.go:104-125 | move 2: splitting an overfull leaf holds the same entries and leaves one separator pending |
| `TreeMoves.Descend` | pkg/bptree/bp_tree.go:384-405 | the child chosen by the separator comparison is the one whose fences enclose the key |
| `TreeMoves.InternalKeys` | pkg/bptree/bp_tree.go:1328-1334 | separators of an internal page are strictly sorted and inside its own fences |
| `TreeMoves.AbsorbCloses` | pkg/bptree/bp_tree.go:1328-1334 | inserting separator and child at the breadcrumb index cuts the level below exactly where the child sits |
| `TreeMoves.AbsorbMove` | pkg/bptree/bp_tree.go:1313-1338 | move 3: a parent with room takes the pending separator and the tree is well formed again with the same entries |
| `TreeMoves.InternalHalves` | pkg/bptree/bp_tree.go:126-151 | the halves of a split internal page and the key that moves up make up the page, in order, and the sizes of the halves differ by at most one |
| `TreeMoves.SplitMove` | pkg/bptree/bp_tree.go:1340-1412 | move 4: a full parent is split; the split below is closed and its own becomes pending, one level up, with the same entries |
| `TreeMoves.RootMove` | pkg/bptree/bp_tree.go:1430-1474 | move 5: a new root over both halves makes the tree well formed again |
| `BTree.BTStack.Add` | pkg/bptree/btstack.go:25-36 | pushes on the stack that the map and the counters stand for |
| `BTree.BTStack.Pop` | pkg/bptree/btstack.go:38-58 | pops the last crumb pushed, nothing from an empty stack |
| `BTree.BTStack.Clear` | pkg/bptree/btstack.go:60-76 | empties the stack |
| `BTree.PutMove` | pkg/bptree/bp_tree.go:237-266 | move 1 seen from outside: the map changes at the key only |
| `BTree.LeafSplitMove` | pkg/bptree/bp_tree.go:269-366 | put and leaf split seen from outside: the map changes at the key only, one separator is pending |
| `Lookup.LeafLookup` | pkg/bptree/bp_tree.go:409-455 | a key is in the map exactly when it is in the leaf whose fences enclose it, with that leaf's value |
| `Lookup.WellFormedIsSubtree` | pkg/bptree/bp_tree.go:104-151 | a well-formed tree is a B+ tree in the recursive sense: child i holds keys in [Keys[i-1], Keys[i]), all leaves at one depth, occupancy within the bounds everywhere but in the root |
| `Siblings.RightWalk` | pkg/bptree/bp_tree.go:300-364 | following `RightSibling` from the leftmost page of any level visits each page of the level once, in key order |
| `Siblings.LeftWalk` | pkg/bptree/bp_tree.go:300-364 | following `LeftSibling` from the rightmost page visits them in the opposite order |
| `Siblings.LeavesEnumerate` | pkg/bptree/bp_tree.go:300-364 | following `RightSibling` from the leftmost leaf enumerates the map in sorted order |
| `Siblings.WalkExists` | pkg/bptree/bp_tree.go:1356-1412 | such a walk exists on every level: the links neither dangle nor run in circles |
| `RangeScan.LeafTail` | pkg/bptree/bp_tree.go:481-498 | the entries of a leaf from an index on |
| `RangeScan.AppendLeaf` | pkg/bptree/bp_tree.go:1916-1937 | how many entries one sibling contributes, and why the loop stopped |
| `RangeScan.ScanRight` | pkg/bptree/bp_tree.go:1894-1944 | along the right siblings the scan collects a contiguous stretch of the sorted entries of exactly `ScanLength` |
| `RangeScan.BoundKept` | pkg/bptree/bp_tree.go:1917-1923 | with `maxKey` given, nothing above it is answered if and only if one of three cases holds that can be read off the entries around the end of the first leaf |
| `RangeScan.BoundIsMissed` | pkg/bptree/bp_tree.go:1917-1923 | on a well-formed tree of two leaves under a root, the scan from key 2 with `maxKey` 2 and count 2 also answers key 3 |
| `RangeScan.RangeExact` | pkg/bptree/bp_tree.go:1894-1944 | the answer is exactly the entries up to `maxKey`, at most `count` of them, if and only if one of three cases holds: the inverted comparison also drops entries of the range |
| `RangeScan.CountExact` | pkg/bptree/bp_tree.go:1894-1944 | without `maxKey` the answer is the first `count` entries from `minKey` on if and only if `count` exceeds what the first leaf gives, or is just that and the first leaf is the last |
| `Index.Index.constructor` | pkg/bptree/bp_tree.go:81-101 | a new index is empty |
| `Index.Index.WriteSplit` | pkg/bptree/bp_tree.go:300-364 | the page writes of a split: right half, left half, and the back link of the old right sibling |
| `Index.WithEntry` | pkg/bptree/bp_tree.go:237-266 | the three branches of a leaf insertion all put the entry where it belongs, replacing an equal key |
| `Index.Index.InsertInto` | pkg/bptree/bp_tree.go:185-407 | on an internal page the child and breadcrumb for the key, on a leaf the map updated at the key, with a pending split if it overflowed |
| `Index.NextChild` | pkg/bptree/bp_tree.go:504-515 | an internal page sends a search on to the page of the next level whose fences enclose the key |
| `Index.Index.PropagateTo` | pkg/bptree/bp_tree.go:1313-1429 | one turn of the propagation closes the pending split or moves it one level up; the map stays |
| `Index.Index.GrowRoot` | pkg/bptree/bp_tree.go:1430-1474 | a pending split of the root becomes a tree one level higher, with the same map |
| `Index.Index.Propagate` | pkg/bptree/bp_tree.go:1309-1475 | propagation ends, in a well-formed tree, with the same map |
| `Index.Index.InsertOne` | pkg/bptree/bp_tree.go:1155-1482 | one insertion keeps the tree well formed and updates the map at the key |
| `Index.Index.InsertValue` | pkg/bptree/bp_tree.go:1153-1489 | from any well-formed tree, a well-formed tree that holds exactly the old keys and the given ones: a given key with the last value given for it, every other with its old value |
| `Index.Index.Get` | pkg/bptree/bp_tree.go:1789-1864 | equals lookup in the map; "not initialized" without a root; the "Invalid node" panic exactly on a root without keys, which insertion never leaves |
| `Index.Index.RangeSearch` | pkg/bptree/bp_tree.go:1867-1951 | "key not found" unless `minKey` is in the map; otherwise entries of the map from `minKey` on, in key order and with none left out up to the last one: without `maxKey`, all that remain, or `count` of them, but always one more than the t from `minKey` to the end of its leaf if there are more |
| `Clock.VictimUnique` | pkg/buffermanager/clock.go:74-147 | the second-chance victim is unique: first eligible entry with its reference bit unset, or first eligible one if all are set |
| `Clock.NewClock` | pkg/buffermanager/clock.go:366-402 | refuses fewer than three entries; otherwise all entries are vacant, the first one reserved if asked for |
| `Clock.Clock.EvictWithoutClearing` | pkg/buffermanager/clock.go:74-147 | nothing exactly when every entry of the segment is reserved, pinned or marked, otherwise the second-chance victim, which was none of these, marked and pinned; reference bits are cleared on the eligible entries passed over and on no others |
| `Clock.SweepTouches` | pkg/buffermanager/clock.go:74-147 | a sweep never touches the reserved entry, nor entries of other segments |
| `WTinyLfu.CapacitiesAddUp` | pkg/buffermanager/wtinylfu.go:418-426 | the rounded capacities of probation and protected add up to the main cache for every size, and probation is the fifth of it, rounded |
| `WTinyLfu.Rebook` | pkg/buffermanager/wtinylfu.go:86-135 | changing one entry and moving one unit between the counters of its old and new segment keeps the books and the drift between window and window counter |
| `WTinyLfu.FreeSlotExists` | pkg/buffermanager/wtinylfu.go:308-339 | pigeonhole: while the window holds no more entries than its counter says, and the counter is below its capacity, some unassigned entry is free and idle |
| `WTinyLfu.JoinUncounted` | pkg/buffermanager/wtinylfu.go:67-70 | a free entry that joins the window uncounted makes the drift grow by one and the free entries shrink by one |
| `WTinyLfu.StarvedMeansDrift` | pkg/buffermanager/wtinylfu.go:322-333 | entries are starved only if the window holds more than its counter says, by exactly the room left in all segments |
| `WTinyLfu.StarvedHappens` | pkg/buffermanager/wtinylfu.go:322-333 | four entries, a free one and three with a page each that were pinned and released once, with exact books, that are starved once the free one joined the window uncounted |
| `WTinyLfu.SweepBalanced` | pkg/buffermanager/clock.go:74-147 | a sweep for a victim keeps the books and the drift |
| `WTinyLfu.Policy.constructor` | pkg/buffermanager/wtinylfu.go:405-446 | capacities plus the reserved entry equal the clock capacity, counters start without drift |
| `WTinyLfu.Policy.PromoteToProtected` | pkg/buffermanager/wtinylfu.go:86-135 | the entry becomes protected with page, pins and dirty flag; if that segment is full its second-chance victim becomes a probation entry, unmarked and released; nothing but reference bits changes elsewhere; fails, and changes nothing, exactly when the full protected segment has no eligible entry; the panics are unreachable |
| `WTinyLfu.Policy.EvictWindow` | pkg/buffermanager/wtinylfu.go:140-300 | "not full" exactly below capacity; on success the window's second-chance victim is in probation, or, with probation full, the less often used one of it and the second-chance victim of probation, chosen by the sweep that goes on behind the first, has left a blank entry; the one that stays is unmarked and released and keeps page and dirty flag, and nothing but reference bits changes elsewhere; on each error it is said which victims are left marked or pinned; counters agree with the main segments on every path; the panics are unreachable |
| `WTinyLfu.Policy.Duel` | pkg/buffermanager/wtinylfu.go:181-299 | of the window and the probation victim the one with the lower frequency leaves its entry blank, the window's one stays on a tie, the other is in probation, unmarked, released and otherwise as before; nothing but reference bits changes elsewhere |
| `WTinyLfu.Policy.Replace` | pkg/buffermanager/wtinylfu.go:222-293 | the loser is flushed if dirty and its entry becomes free; a failed write changes nothing |
| `WTinyLfu.Policy.GetFreeFrame` | pkg/buffermanager/wtinylfu.go:308-339 | the entry handed out was free and is marked, pinned once and in the window; what happened to the others is what `EvictWindow` says, or nothing; "Unable to add item" if and only if the entries are starved, which cannot be while the window holds no more than its counter says; without write errors it fails otherwise exactly when the full window cannot be relieved; the panic is unreachable |
| `WTinyLfu.Policy.RefIfOccupied` | pkg/buffermanager/clock.go:246-264 | pins exactly an occupied entry that is not marked |
| `WTinyLfu.Policy.RefIfNotReferenced` | pkg/buffermanager/clock.go:333-354 | pins exactly an occupied entry that is neither marked nor pinned |
| `WTinyLfu.Policy.Unref` | pkg/buffermanager/clock.go:294-310 | drops one pin; panics exactly when none is outstanding |
| `WTinyLfu.Policy.Increment` | pkg/buffermanager/wtinylfu.go:55-83 | a probation entry is promoted as `PromoteToProtected` says, an unassigned one joins the window without being counted, so that the drift grows by one, and the others stay |
| `WTinyLfu.Policy.ReaddFrameToPool` | pkg/buffermanager/wtinylfu.go:343-350 | the entry is free again while the window counter keeps it: the drift shrinks by one |
| `ShardPins.StepPinSafe` | pkg/buffermanager/clock.go:246-264 | every one of the twenty steps keeps pins safe, whatever is cached |
| `ShardPins.ReachablePinSafe` | pkg/buffermanager/clock.go:91-135 | pin safety in every state of every run from the start |
| `ShardPins.AccessMeansHeld` | pkg/buffermanager/clock.go:294-310 | the access bit is set exactly while pins exceed unpins, and exactly while a client, the background writer or the evictor has the entry |
| `ShardPins.ChosenIsUnpinned` | pkg/buffermanager/clock.go:91-135 | a chosen victim, whether or not it has a page, has no pin but the evictor's own |
| `ShardPins.MarkedIsUntouchable` | pkg/buffermanager/clock.go:246-264 | while an entry is marked neither a client nor the background writer nor another sweep can pin it |
| `ShardPins.ResetHitsNobody` | pkg/buffermanager/clock.go:177-194 | `resetEntry` never hits a frame that a client or the background writer holds |
| `ShardPins.HeldStays` | pkg/buffermanager/clock.go:91-135 | a held frame keeps its page through every step of everybody else, publication being one step; in the source a pin taken between `markOccupied` and the key write sees the key change |
| `ShardMisses.FilledStays` | pkg/buffermanager/shard.go:366-430 | a frame that was read in and is not yet published keeps its content through every step of everybody else |
| `ShardMisses.RunKnown` | pkg/buffermanager/bgwriter.go:61-96 | in every run, whatever is on disk or on its way there belongs to a page that has a last content |
| `ShardMisses.MissReturns` | pkg/buffermanager/shard.go:366-430 | in every run from the start, whatever steps come in between, a miss that reads its page at step j and publishes the frame at step k hands out the page asked for with what the disk had at step j: the last content if and only if that is still the last content at step k |
| `ShardPages.RunSound` | pkg/buffermanager/shard.go:332-496 | in every state of every run, also after unclean grants, the table names a slot only by the page in it and none that was dropped, empty slots are blank, and the background writer's copy belongs to the page in its slot |
| `ShardPages.StepPage` | pkg/buffermanager/shard.go:332-496 | each of the twenty steps keeps a page coherent if and only if it does not grant a frame for this page while it is cached or being brought in, whatever it does to other pages |
| `ShardPages.PublishPage` | pkg/buffermanager/shard.go:62-79 | putting a page just read in or just made into the table, as one step, keeps it coherent |
| `ShardPages.WritePage` | pkg/buffermanager/frame.go:38-42 | writing to a held frame keeps its page coherent: nobody else has the page or is bringing it in |
| `ShardPages.FlushPage` | pkg/buffermanager/wtinylfu.go:222-239 | writing back a victim keeps its page coherent, dirty or not |
| `ShardPages.DropPage` | pkg/buffermanager/wtinylfu.go:241-250 | taking a flushed victim out of the table keeps its page coherent: the disk has the last content |
| `ShardPages.WriterPage` | pkg/buffermanager/bgwriter.go:61-96 | copying and cleaning a pinned frame before its bytes are on disk, and writing the copy later, whatever clients wrote in between, keeps the page coherent |
| `ShardPages.ReachablePage` | pkg/buffermanager/shard.go:332-496 | a page is coherent in every state of a run from the start if and only if each frame granted for this page is granted while it is neither in the table nor being brought in |
| `ShardPages.HeldIsLast` | pkg/buffermanager/shard.go:347-430 | whoever holds a frame whose page is coherent sees the last content written to that page, and the table names the frame; nothing is asked of other pages |
| `ShardPages.HeldReadsLast` | pkg/buffermanager/shard.go:347-430 | in every run from the start, every holder of a frame sees the last content of the page in it if the frames granted for this page so far were granted cleanly |
| `ShardPages.HitYieldsLast` | pkg/buffermanager/shard.go:347-365 | a hit on a slot the table still names returns the page asked for; if that page is coherent, only then, and with its last content |
| `ShardPages.HitReturns` | pkg/buffermanager/shard.go:347-365 | the same over runs: in every run from the start a hit on a slot the table still names returns the page asked for; in runs clean for this page, only then, and with its last content |
| `ShardPages.CachedIsHit` | pkg/buffermanager/clock.go:246-264 | in every run from the start, a pin of a slot that the table still names is a hit if and only if the evictor does not have the slot, and otherwise a miss |
| `ShardPages.CachedIsReturned` | pkg/buffermanager/shard.go:347-365 | in every run from the start, a lookup of a cached page that the evictor does not have, followed by its pin, hands out that page; with its last content if the run is clean for the page |
| `ShardPages.MissYieldsLast` | pkg/buffermanager/shard.go:366-430 | the frame a miss publishes carries the requested page with its last content, if that page is coherent |
| `ShardPages.DiskIsLast` | pkg/buffermanager/bgwriter.go:61-96 | the disk has a coherent page's last content if the page is not cached, or its frame is clean and the background writer owes no copy |
| `ShardRuns.StepCoherent` | pkg/buffermanager/shard.go:332-496 | each of the twenty steps keeps all pages coherent if and only if it does not grant a frame for a page that is cached or being brought in |
| `ShardRuns.ReachableCoherent` | pkg/buffermanager/shard.go:332-496 | all pages are coherent in every state of a run from the start if and only if each frame is granted for a page that is neither in the table nor being brought in |
| `ShardRuns.HeldIsLast` | pkg/buffermanager/shard.go:347-430 | corollary for all pages at once: in a coherent state every holder of a frame sees the last content of its page, and the table names the frame |
| `ShardRuns.HitYieldsLast` | pkg/buffermanager/shard.go:347-365 | corollary for all pages at once: in a coherent state a hit returns the requested page, with its last content, if and only if the table still names the slot that was looked up |
| `ShardRuns.MissYields` | pkg/buffermanager/shard.go:366-430 | a miss that nobody interrupts, for a coherent page, cached or not, returns the requested page, with its last content if and only if the disk has that when the frame is granted, which it does whenever the page is not in the table |
| `ShardRuns.SparedFrameIsReadTwice` | pkg/buffermanager/shard.go:347-430 | a run of seven steps in which a cached page is read into a second frame; the content is the last one exactly when the disk had it, and the page is no longer coherent |
| `ShardRuns.StaleReadHappens` | pkg/buffermanager/shard.go:347-430 | a run from the start, with two entries, one client and an evictor, in which the client is handed a page without what was last written to it |
| `ShardRuns.StaleHitHappens` | pkg/buffermanager/shard.go:347-365 | that run continued by a second client, which hits the page in the slot the table names and is handed the same stale content |
| `ShardRuns.ReusedFrameIsReturned` | pkg/buffermanager/shard.go:347-365 | an interleaving in which a client asks for one page and is handed another |
| `ShardRuns.EvictionRun` | pkg/buffermanager/wtinylfu.go:222-293 | evicting an unpinned page runs to its end: the entry is blank, the table no longer names it, the disk has its bytes if it was dirty, and nothing else changed |
| `ShardRuns.MissRun` | pkg/buffermanager/shard.go:366-430 | bringing an uncached page into a free entry runs to its end: the entry and the table have the page as it is on disk, and nothing else changed |
| `ShardClients.AskedFor` | pkg/buffermanager/shard.go:332-496 | in every run, an operation stays about the page it was started for until it is released or fails |
| `ShardClients.LastIsLatest` | pkg/buffermanager/frame.go:38-42 | in every run from the start, the last content of a page is the content of the latest step that wrote to it or made it |
| `ShardClients.LastIsFirst` | pkg/buffermanager/shard.go:366-430 | ... and what the disk had at the start, if there was none |
| `ShardClients.ReadsLatestWrite` | pkg/buffermanager/shard.go:347-430 | in every run from the start, whoever holds a frame sees the content of the latest step that wrote to its page, if the frames granted for that page so far were granted cleanly |
| `ShardClients.WriteRun` | pkg/buffermanager/shard.go:347-365 | from every reachable state, looking up a cached page that the evictor does not have, writing to it and releasing it changes its content, its dirty flag and one pin and unpin, and nothing else |
| `ShardClients.NewPageRun` | pkg/buffermanager/shard.go:432-494 | making a new page takes any free entry and leaves it dirty, held and named by the table, and nothing else changed |
| `ShardClients.FailedMissRun` | pkg/buffermanager/shard.go:385-408 | a miss on a page that is not on disk ends with its entry blank again, and nothing else changed |
| `ShardClients.EmptyEvictionRun` | pkg/buffermanager/clock.go:85-135 | an entry without a page can be chosen too, and evicting it changes nothing but the entry |
| `ShardClients.WriterRun` | pkg/buffermanager/bgwriter.go:61-96 | from every reachable state the background writer can bring the disk up to date with any dirty frame nobody holds, leaves it clean and released, and changes nothing else |
| `ShardClients.WriterSkipRun` | pkg/buffermanager/bgwriter.go:61-96 | it passes over a clean frame and changes nothing but one pin and unpin |
| `DirtyPages.Unlink` | pkg/buffermanager/p_dirty.go:126-136 | taking an entry out between its neighbours keeps the rest linked, also when the last entry points to a popped one |
| `DirtyPages.DirtyList.PopDirty` | pkg/buffermanager/p_dirty.go:34-53 | pops the least recent entry and keeps the list, whose tail still points to it |
| `DirtyPages.DirtyList.AddToDirtyList` | pkg/buffermanager/p_dirty.go:68-94 | a new entry becomes the most recent one |
| `DirtyPages.DirtyList.MoveToHead` | pkg/buffermanager/p_dirty.go:97-160 | the entry becomes the most recent one and the others keep their order; the panic is unreachable |
| `DirtyPages.DirtyList.RemoveFromLru` | pkg/buffermanager/p_dirty.go:164-212 | exactly this entry leaves the list |
| `DirtyPages.PageSet.AddDirtyFrame` | pkg/buffermanager/p_dirty.go:215-253 | list and map stay in agreement and the frame's page is the most recent one, whether or not it was there |
| `DirtyPages.PageSet.RemovePage` | pkg/buffermanager/p_dirty.go:278-293 | list and map lose exactly the page, or nothing if it is not there |
| `DirtyPages.PageSet.PopDirtyPage` | pkg/buffermanager/p_dirty.go:256-276 | returns the least recent page; list and map agree afterwards if and only if its frame still has the non-zero key it was added under |
| `WalLayout.LERoundTrip` | pkg/wal/wal.go:97-99 | decoding an encoded word returns it, modulo 2^32 |
| `WalLayout.CheckLogOverflow` | pkg/wal/wal.go:142-177 | the bytes written are the record, with the next page's header inside where it meets the page end, after the page's own header when it starts the page |
| `WalLayout.FileLength` | pkg/wal/wal_writer.go:140-161 | for every sequence of records, the file is as long as the writer's page and offset say, plus eight bytes for each repeated header |
| `WalLayout.PosIsAbs` | pkg/wal/wal_writer.go:149-158 | adding up record sizes and inserted headers gives page*8192+offset |
| `WalLayout.RecordAtItsLsn` | pkg/wal/wal_writer.go:140-161 | a record's first byte lies at page*8192+offset of its sequence number if and only if no header was repeated up to it |
| `WalLayout.ReopenRestores` | pkg/wal/wal_writer.go:340-349 | page and offset computed from the file size are the writer's own if and only if no header was repeated |
| `WalLayout.RepeatMeansBoundary` | pkg/wal/wal.go:145-157 | a header is repeated exactly when a record other than the last ends on a page boundary |
| `WalLayout.RepeatHappens` | pkg/wal/wal.go:145-157 | three records of which the third is eight bytes off |
| `WalLayout.RecordBytes` | pkg/wal/wal.go:142-177 | each record fills the file from its own position up to that of its successor |
| `WalLayout.PagesHaveHeaders` | pkg/wal/wal.go:142-203 | as long as no header was repeated, every page the log has reached starts with a header that has the magic number and the page's own number |
| `Wal.GreaterLSN` | pkg/helpers/helpers.go:283-313 | later page, or same page and later offset; an error for fewer than eight bytes |
| `Wal.MaxLSN` | pkg/helpers/helpers.go:246-279 | one of its arguments that the other is not later than, the first on a tie; an error for fewer than eight bytes |
| `Wal.LaterIsStrictOrder` | pkg/helpers/helpers.go:283-313 | the comparison is a strict order, total on page and offset |
| `Wal.LsnsIncrease` | pkg/wal/wal_writer.go:140-161 | sequence numbers increase strictly in the order of assignment, under both comparisons |
| `Wal.RedoIsNext` | pkg/wal/wal.go:261-267 | the redo point computed from a record's number is where the next record starts if and only if the record is not cut by a page boundary |
| `Wal.WalWriter.constructor` | pkg/wal/wal_writer.go:42-102 | an empty log gets its first checkpoint |
| `Wal.WalWriter.AssignLSN` | pkg/wal/wal_writer.go:140-161 | the number handed out is the old place, and the place moves by the record and a header if it reaches the page end |
| `Wal.WalWriter.Append` | pkg/wal/wal.go:107-137 | the file is always the encoding of the records appended, each at the place it was assigned |
| `Wal.WalWriter.AddPutLog` | pkg/wal/wal.go:206-245 | appends the record and returns its number; refuses an empty key or value and then changes nothing |
| `Wal.WalWriter.AddDelLog` | pkg/wal/wal.go:292-325 | appends the record and returns its number; refuses an empty key and then changes nothing |
| `Wal.WalWriter.AddCheckpoint` | pkg/wal/wal.go:249-289 | appends a checkpoint that names the point behind the given record; refuses a number that is not twelve bytes long and then changes nothing |
| `Recovery.PageOf` | pkg/helpers/helpers.go:353-364 | `IsMultipage` on file offsets holds exactly when the writer saw the record reach the page end |
| `Recovery.Unlaid` | pkg/recovery/recovery.go:320-328 | taking the page header out at 8192*(off/8192+1)-off undoes its insertion |
| `Recovery.ReadHeaderBack` | pkg/recovery/recovery.go:274-348 | a record's number, size and page id are read back on any page, whether or not its header is cut; page id 0 is a panic |
| `Recovery.DecodeEncode` | pkg/recovery/recovery.go:398-429 | decoding a record's bytes returns a put of its key and value for a put, and a deletion of its key for a deletion |
| `Recovery.DecodeDel` | pkg/recovery/recovery.go:398-411 | behind any header, the bytes of a deletion are decoded as a deletion of that key |
| `Recovery.ReadRecordBack` | pkg/recovery/recovery.go:351-430 | a record in the file is read back as its own operation, key and value if it is not cut or lies in page 0, and panics otherwise |
| `Recovery.AdvanceAgrees` | pkg/recovery/recovery.go:113-157 | recovery moves past an operation exactly as the writer did, and past a checkpoint if and only if no page boundary cuts it |
| `Recovery.StepAtCheckpoint` | pkg/recovery/recovery.go:121-137 | a checkpoint that is not cut is skipped, and at the last record, if it is one, the walk stops, cut or not |
| `Recovery.WalkThroughRecovery` | pkg/recovery/recovery.go:113-157 | the loop computes the recursive walk: operations in order, and whether it panics |
| `Recovery.PanicAtRepeat` | pkg/recovery/recovery.go:274-396 | recovery panics at the first record behind a repeated header: at every operation, whose offset 8 it takes for the size, and at a checkpoint, whose page it takes for the size, if that is the last record or on one of the first thirty pages |
| `Recovery.RecoveryReplaysLog` | pkg/recovery/recovery.go:113-157 | from any record up to the first repeated header on, recovery replays one operation for each record that is no checkpoint, in order, a put for a put and a deletion for a deletion, with its key and value, up to the first record that has page id 0, is cut by a page boundary behind page 0, or follows a repeated header, and panics there; without such a record it replays all of them |
| `Recovery.ReadRedoBack` | pkg/recovery/recovery.go:69-98 | the redo point is read back from a checkpoint unless a page boundary cuts it within its first five bytes |
| `Recovery.RedoIsLost` | pkg/recovery/recovery.go:69-98 | a checkpoint whose first byte is the last of its page is read as the redo point 65544, whatever it says |
| `Recovery.RecoverFromCheckpoint` | pkg/recovery/recovery.go:58-108 | recovery from a checkpoint added with the number of record i replays the operations of the records behind i, up to the first that cannot be read, if neither record i nor the front of the checkpoint is cut by a page boundary |
| `Recovery.LaterCutHappens` | pkg/recovery/recovery.go:389-394 | a log of three records of which recovery replays the second and panics at the third |
| `Recovery.CutCheckpointLoses` | pkg/recovery/recovery.go:123-129 | a log in which the operation behind a cut checkpoint is lost without a panic |
| `Doorkeeper.DoubleHashIndices` | internal/tinylfu/hashfuncs.go:34-56 | k indices below m, each (h1 + i*h2) mod 2^64 mod m with h2, the hash of the item and one more byte 1, made odd; for a power of two of buckets and at most as many indices no two of them are equal |
| `Doorkeeper.StepsDistinct` | internal/tinylfu/hashfuncs.go:44-53 | odd steps from anywhere meet each of a power of two of buckets at most once in as many steps, also across the wrap-around at 2^64 |
| `Doorkeeper.Bloom.SetBit` | internal/tinylfu/doorkeeper.go:74-106 | exactly the bits asked for are set in addition; none, and an error, if one of them is past the array |
| `Doorkeeper.Bloom.IsSet` | internal/tinylfu/doorkeeper.go:130-150 | membership in the bits set, an error past the array |
| `Doorkeeper.Bloom.Add` | internal/tinylfu/doorkeeper.go:31-41 | the bits grow by the indices of the item, so that it passes, and so does everything that did |
| `Doorkeeper.Bloom.Check` | internal/tinylfu/doorkeeper.go:43-59 | true exactly when all indices of the item are set |
| `Doorkeeper.Bloom.Clear` | internal/tinylfu/doorkeeper.go:61-71 | no bit is set |
| `Doorkeeper.NewDoorkeeper` | internal/tinylfu/doorkeeper.go:154-178 | refuses exactly zero hash functions and sizes that are zero or no multiple of 8; otherwise an empty filter |
| `CountMin.CellCovers` | internal/tinylfu/count-min-sketch.go:66-129 | for every history of increments and halvings, a counter is at least the exact count of each item that uses it |
| `CountMin.CellOfOne` | internal/tinylfu/count-min-sketch.go:66-129 | for every history of increments and halvings, a counter that no other item used is the exact count |
| `CountMin.CellSums` | internal/tinylfu/count-min-sketch.go:66-81 | before the first halving a counter is the number of increments whose items hash to it |
| `CountMin.CellExact` | internal/tinylfu/count-min-sketch.go:66-81 | ... and equals the exact count of an item if and only if no other item was counted in it |
| `CountMin.EstimateCovers` | internal/tinylfu/count-min-sketch.go:86-107 | the estimate is at least the exact count with the same halvings |
| `CountMin.EstimateExact` | internal/tinylfu/count-min-sketch.go:86-107 | before the first halving the estimate is exact if and only if the item is alone in some row |
| `CountMin.Sketch.Increment` | internal/tinylfu/count-min-sketch.go:66-81 | exactly the item's counter in each row grows by one; the counters become those of the history with one more hit |
| `CountMin.Sketch.GetCount` | internal/tinylfu/count-min-sketch.go:86-107 | the smallest counter of the item over all rows |
| `CountMin.Sketch.Reset` | internal/tinylfu/count-min-sketch.go:110-129 | every counter is halved, rounding down; the counters become those of the history with one more halving |
| `TinyLfu.ExactFilterCounts` | internal/tinylfu/tinylfu.go:32-61 | the exact filter that is approximated counts every arrival of an item but the first |
| `TinyLfu.ExactFilterAges` | internal/tinylfu/tinylfu.go:53-57 | aging empties its door and halves every count |
| `TinyLfu.BelowStep` | internal/tinylfu/tinylfu.go:32-61 | counting an event on both sides, or a false positive in the sketch only, keeps the exact counts below |
| `TinyLfu.BoundedStep` | internal/tinylfu/tinylfu.go:53-57 | no counter exceeds one sample plus the increments since the last aging |
| `TinyLfu.Filter.IncrementItem` | internal/tinylfu/tinylfu.go:32-61 | simulates an exact set-plus-counter filter aged at the same times: no false negatives, a hit counted exactly when the item passes the door, otherwise its bits set in the door, aging, which clears the door, exactly when that hit completes a sample of 800000; an error for an empty item |
| `TinyLfu.Filter.CheckItemCount` | internal/tinylfu/tinylfu.go:63-72 | at least the exact count, and below twice the sample size, so that 64 bits never wrap around |
| `JobQueue.SoundStep` | pkg/diskmanager/diskmanager.go:291-324 | every step of any caller or goroutine keeps the invariant |
| `JobQueue.RunSound` | pkg/diskmanager/diskmanager.go:291-324 | in every state of every run: running implies a live goroutine, jobs imply one live or on its way, and the jobs taken are those added, once each and in order |
| `JobQueue.QuietMeansDone` | pkg/diskmanager/diskmanager.go:297-304 | when all goroutines have ended, exactly the jobs added were executed |
| `JobQueue.EveryStepCounts` | pkg/diskmanager/diskmanager.go:291-324 | every step but a new job brings the goroutines one step closer to their end |
| `JobQueue.NeverStuck` | pkg/diskmanager/diskmanager.go:291-324 | as long as there is a goroutine or a job, some goroutine can take a step |
| `JobQueue.Drains` | pkg/diskmanager/diskmanager.go:291-324 | every run goes on, without a new job, to a state in which all goroutines have ended and exactly the jobs added were executed, in a number of steps that can be told from the state |
| `JobQueue.RunSingle` | pkg/diskmanager/diskmanager.go:314-324 | there is at most one goroutine, executing in order of arrival, if and only if no job is added between a goroutine's start and its first step |
| `JobQueue.ExecutedInOrder` | pkg/diskmanager/diskmanager.go:291-324 | in such a run the jobs executed are the first ones added |
| `JobQueue.OutOfOrder` | pkg/diskmanager/diskmanager.go:291-324 | a run in which the later of two jobs is executed first |
| `Pager.KeptAll` | pkg/pager/freelist.go:67-113 | a free list reaches its file as a whole if and only if it has at most 1024 entries |
| `Pager.FlushLoad` | pkg/pager/freelist.go:58-176 | flushing and loading returns a prefix of the list of a known length, all of it if and only if it has at most 1024 entries |
| `Pager.FreeList.Pop` | pkg/pager/freelist.go:26-45 | the last entry as a signed number, -1 from an empty list |
| `Pager.FreeList.Add` | pkg/pager/freelist.go:47-56 | the id goes to the front |
| `Pager.FreeList.Flush` | pkg/pager/freelist.go:58-131 | a changed list is written as full pages of its first entries, an unchanged one is not written |
| `Pager.FreeList.Load` | pkg/pager/freelist.go:134-176 | the words before the first zero |
| `Pager.Allocator.NewPageId` | pkg/pager/pager.go:149-166 | never a live id, in any run; 0 if and only if the 32-bit counter wraps around, which is when the invariant ends; while no id is lost live and free ids partition 1..maxPageId, and an id is lost if and only if the one popped is not below 2^31 |
| `Pager.Allocator.WriteDeadPage` | pkg/pager/pager.go:334-344 | a live id becomes free; live and free ids stay apart, and none is lost |

## Left out

- Deletion and its rebalancing (pkg/bptree/bp_tree.go:519-1151, 1491-1696): the code leaves sibling links to dead pages and does not keep the tree well formed.
- The log entry an insertion makes, and the panic of `InsertValue` on an empty key or value that comes from it.
- Latches, locks and the release of frames inside tree operations: the tree is modelled for one operation at a time, the buffer manager for all interleavings.
- The shard and the job queue are state machines on values, not objects: each step is what one goroutine does under one lock, so update in place inside a step is not visible.
- Page layout in bytes (pkg/pager/page.go) and the width of page ids inside the tree.
- Index.Index.constructor: only an empty store; an index opened on an existing root page is any object that satisfies the invariant.
- Index.Index.InsertValue: requires a value for each key, because the source indexes the value list without a check.
- Index.Index.RangeSearch: requires a root with keys, because on a root without keys the source never returns.
- ShardPages.PublishPage: marking the frame occupied, setting its key and storing it in the table is one step, because nobody else can take a frame in between; a client that looked up the entry's former page could already pin it there.
- ShardPins.HeldStays: for that reason does not cover a pin taken between `markOccupied` and the key write (pkg/buffermanager/frame.go:87-95), under which the key of the held frame changes once.
- Deletes, I/O errors, and marks left behind by failed evictions are not steps of the shard model. Runs that grant a frame for a cached page are covered by pin safety, `ShardPages.RunSound` and `ShardMisses.MissReturns`, and by coherence for all other pages.
- WTinyLfu.Policy.EvictWindow: the frequency estimates are a parameter, because the sketch is modelled on its own in `TinyLfu`. Each operation of the policy is one step, also the part of `Increment` that runs without the lock.
- Wal.WalWriter.AddPutLog: requires a record shorter than a page's payload; entries that fit on a tree page always are. Log files beyond 4 GiB are not modelled.
- Wal.WalWriter.AddDelLog: requires the same as `AddPutLog`.
- WalLayout.CheckLogOverflow: requires a record shorter than a page's payload, as `AddPutLog` does.
- Wal.WalWriter.constructor: only the branch for an empty file; what a writer that reopens a file starts from is `WalLayout.ReopenRestores`.
- Recovery.RecoveryReplaysLog: covers walks that start before the first repeated header, and logs in which no checkpoint but the last record is cut, or follows a repeated header behind page 29: there the walk reads bytes that are no record. `reapplyLog`, which compares sequence numbers with those of tree pages, is not modelled.
- Recovery.RecoverFromCheckpoint: covers a redo point that is the start of a record and is read back; from another point the walk reads bytes that are no record. The file in which the checkpoint's number is saved is not modelled.
- `WalReader`, whose test for records on two pages can never hold.
- Buffering of log records before they are flushed, and the queue of log writes.
- TinyLfu.Filter.constructor: the sizes that `NewCMS` computes in floating point are parameters; the hash function is an arbitrary function cut to 64 bits.
- Concurrent use of the frequency filter, and the goroutines that halve the rows in parallel: each row is halved by itself.
- Pager.FreeList.Flush: the file is modelled as 32-bit words instead of bytes.
- Metadata page, HTTP server, logger, profiler, command line, random number generation: input and output only.
