# A verified model of the AutoZone collector and of MacRuby's array algorithms

The project models, in Dafny, the garbage collector AutoZone 77.1 (marking, write barrier and
generations, the enlivening protocol, the small and medium allocator, weak references, reference
counts, its bitmap, graph and hash structures) and, of MacRuby 0.4, the array algorithms
`flatten`, `combination` and `permutation` and block inlining. Code that updates state is modelled
by classes and loops proved against specifications; expressions and transformations by functions.

| file | component |
|---|---|
| Heap.dfy | words, blocks, layouts, roots, associations, cards; liveness defined by paths of references |
| Marker.dfy | the sequential marker: bounded stack of tagged cells, pending bits, coalescing, card scanning, the retry |
| Generational.dfy | the card table; runs of mutators, barriered in the zone and free outside it, and of collections; partial against full collections |
| Enlivening.dfy | the concurrent protocol of full and partial collections as a state machine over single accesses |
| Operations.dfy | the operations of a mutator as wholes |
| Precision.dfy | what a concurrent collection does collect |
| SideData.dfy | one byte per quantum: encoding, readers, the block iterator |
| FreeLists.dfy, Tiling.dfy, Allocator.dfy | free lists threaded through free memory, the partition of subzones, the admin and the region's retry loop |
| Probing.dfy, Referrers.dfy, WeakTable.dfy | open addressing, the list of referrers of a block, the table of weak references |
| Refcounts.dfy | the age and count codes and the overflow table |
| HashLists.dfy | the grouped closed hash table and the list it indexes |
| RootPaths.dfy | breadth-first search for a shortest path of references, from every root |
| Bits.dfy, Bitmaps.dfy | words of bits, the find bit sequence algorithm |
| Tuples.dfy, Combinations.dfy, Permutations.dfy | index tuples in lexicographic order and their enumeration |
| Flatten.dfy | flattening of shared and cyclic arrays |
| BlockInlining.dfy | the rewriting of `times` and `each` into `while` |

## Conventions

Addresses in Heap, Marker and Generational count words of four bytes; blocks of the allocator are a
subzone and a quantum. Integers are unbounded except where an encoding matters (side data bytes,
32-bit words of a bitmap, the four-bit count codes). Hash functions are arbitrary parameters. Stack
contents, external ranges and the order of iteration are inputs. `Collector.live`, `resolved` and
`risk`, `Admin.chunks`, `Table.reg` and the like are ghost fields that tie concrete state to its meaning.

## Where the code does not do what its comments and names say

* When the scan stack overflows, the second scan does not see what the first one took off the
  enlivening queue. The marks are then those of an unbounded stack if and only if every queued
  block is live without the queue (`RetryAgrees`, `Collector.Collect`). A caller can see beforehand
  that this does not arise: the queue is empty, or the stack has more cells than `StackBound`
  computes from the blocks and ranges. For every size of the stack there is a collection that takes
  a queued block for garbage (`RetryLosesQueuedBlock`), and a run of the concurrent protocol that
  does so with a block just published (`OverflowLosesPublished`).
* `mark_cards_untouched` rewrites only cards that are provisional already, so it changes nothing
  (`MarkCardsUntouched`) and no card is ever cleared by a collection (`Generational.StepKeepsInv`).
* `inc_refcount_small_medium` returns the count before below 2. A block retained during a
  collection is therefore queued when its count goes from 1 to 2, not from 0 to 1
  (`BlockIncrementRefcount`).
* Clearing weak references does not lower `num_weak_refs`: the count exceeds the number of entries by
  one for every garbage block that has been cleared (`Table.Drift`, `Table.CollectWeak`), so the two
  agree exactly when no registered location has referred to collected garbage. One registration and
  one collection end with a count of one and no entry (`CountOutlivesEntries`).

## Model

| member | source | states |
|---|---|---|
| Heap.LiveSetClosed | autozone-77.1/AutoMemoryScanner.cpp:709-748 | the blocks reached by some path of references contain every root, retained, old and queued block and whatever they refer to |
| Heap.TraceStaysInside | autozone-77.1/AutoMemoryScanner.cpp:709-748 | a path of references never leaves a set that is closed under references and associations |
| Heap.LiveSetLeast | autozone-77.1/AutoMemoryScanner.cpp:709-748 | the live set is contained in every closed set, so it is the least one |
| Marker.TopCell | autozone-77.1/AutoZone.h:1107-1161 | the low bit of the top cell alone tells a range from a block, whatever the addresses |
| Marker.Collector.PushBlock | autozone-77.1/AutoZone.h:1107-1109 | unless the stack has overflowed, its cells stand for the entries they stood for before, and the block on top; it overflows only if the work to be done is too much for its cells |
| Marker.Collector.PushRange | autozone-77.1/AutoZone.h:1117-1120 | likewise for a range, whose two cells are there together or the stack has overflowed |
| Marker.MapInside | autozone-77.1/AutoMemoryScanner.cpp:144-196 | a layout map that fits its block describes only words of the block |
| Marker.MapReads | autozone-77.1/AutoMemoryScanner.cpp:144-196 | the same for the decoded runs, by induction over the map |
| Marker.LayoutIsFollowed | autozone-77.1/AutoMemoryScanner.cpp:144-196 | of the words that a byte of a layout map describes, those read are the ones after as many as its high nibble for a map of strong slots, and as many as its high nibble, from the first, for a map of weak slots; no other word of the map is read, and every word behind it is |
| Marker.Collector.Push | autozone-77.1/AutoZone.h:211-228 | a full stack takes no cell and stays full, which is how overflow is known |
| Marker.Collector.TopIsRange | autozone-77.1/AutoZone.h:1132-1140 | true exactly when the entry on top is a range |
| Marker.Collector.PopRange | autozone-77.1/AutoZone.h:1153-1161 | gives back the range that was pushed |
| Marker.Collector.ScanRange | autozone-77.1/AutoMemoryScanner.cpp:304-388 | every word of the range is scanned, put on the stack or put off to be merged, none is forgotten, for any capacity of the stack; the work outstanding grows by the length of the range at most |
| Marker.Collector.ScanWithMap | autozone-77.1/AutoMemoryScanner.cpp:144-196 | no word that the layout map lets the scanner read is forgotten, whichever kind of map it is, and nothing outside the live set is marked |
| Marker.Collector.FindRun | autozone-77.1/AutoWriteBarrier.cpp:39-68 | a run of marked cards with no marked card before it; without one the rest of the cards is unmarked |
| Marker.Collector.ScanCards | autozone-77.1/AutoWriteBarrier.cpp:39-68 | every word of the block on a marked card is scanned |
| Marker.Collector.ScanPendingBlocks | autozone-77.1/AutoMemoryScanner.cpp:623-667 | one pass over the blocks loses no pending block and no merged range |
| Marker.Collector.PopAndScan | autozone-77.1/AutoMemoryScanner.cpp:681-700 | scanning the entry on top leaves less work than there was, so the loop ends |
| Marker.Collector.ScanPendingUntilDone | autozone-77.1/AutoMemoryScanner.cpp:673-701 | ends with nothing scheduled, or with an overflowed stack |
| Marker.Collector.RetainedTakeCells | autozone-77.1/AutoMemoryScanner.cpp:425-486 | each retained block that has to be scanned takes a cell before any is popped, so a stack of no more cells than that overflows |
| Marker.Collector.ScanBarrier | autozone-77.1/AutoCollector.cpp:73-88 | every queued value that is a block ends up marked |
| Marker.Collector.ScanAssociations | autozone-77.1/AutoZone.cpp:927-950 | afterwards every marked block has its associated values marked, also those marked on the way |
| Marker.Collector.MarkedClosed | autozone-77.1/AutoMemoryScanner.cpp:709-748 | when nothing is scheduled any more, the marked blocks are closed under references and associations |
| Marker.Collector.Scan | autozone-77.1/AutoMemoryScanner.cpp:709-748 | a scan that loses no work to overflow marks exactly the live set, and it ends on every heap; a full scan overflows any stack of no more cells than retained blocks to be scanned, and no scan overflows a stack of more cells than the bound computed from blocks and ranges |
| Marker.Collector.Collect | autozone-77.1/AutoZone.cpp:1295-1343 | for every heap and stack capacity the marks are the live set, without the queue after an overflow; they are the live set itself if and only if there was no overflow or every queued block is live anyway; when the stack must and when it cannot overflow; whatever a marked block holds in a word that its layout map shows is marked |
| Marker.Collector.Scavenge | autozone-77.1/AutoZone.cpp:1402-1436 | the garbage list holds exactly the unmarked blocks, in the order of the iterator, and every new block, marked or not, comes one step nearer to old age |
| Marker.RetryAgrees | autozone-77.1/AutoZone.cpp:1308-1327 | the retry marks what an unbounded stack would have marked if and only if every queued block is live without the queue |
| Marker.RetryLosesQueuedBlock | autozone-77.1/AutoZone.cpp:1308-1327 | for every capacity of the stack, a collection that overflows it and whose garbage holds a queued block |
| Generational.WriteBarrier.MarkCards | autozone-77.1/AutoWriteBarrier.h:161-165 | marks every card that the stored words touch and no other |
| Generational.WriteBarrier.MarkCardsUntouched | autozone-77.1/AutoWriteBarrier.cpp:76-80 | no card changes |
| Generational.WriteBarrier.ClearUntouchedCards | autozone-77.1/AutoWriteBarrier.cpp:83-87 | provisional cards become unmarked and no other card changes |
| Generational.StepKeepsInv | autozone-77.1/AutoZone.cpp:957-1030 | every barriered store and copy, store outside the zone, root and stack change, retain, association, allocation, free, ageing and end of a collection keeps each word of the zone that may hold a block on a marked card, keeps the heap well formed, and unmarks nothing |
| Generational.RunKeepsInv | autozone-77.1/AutoZone.cpp:957-1030 | so it is after every run from a zone without blocks, whatever stacks, roots and external ranges hold |
| Generational.TracedOnMarkedCard | autozone-77.1/AutoMemoryScanner.cpp:493-565 | a word through which a full collection reaches a block is one that a partial collection reads |
| Generational.FullLiveIsPartialLive | autozone-77.1/AutoMemoryScanner.cpp:493-565 | what a full collection keeps a partial collection keeps |
| Generational.PartialGarbageIsGarbage | autozone-77.1/auto_collector.cpp:53-121 | after every run, the garbage of a generational collection is garbage of a full collection from the same state |
| Generational.GivenIsKept | autozone-77.1/AutoZone.cpp:957-1030 | what a mutator stores or copies into a word of a block that is kept, stores to a root or a stack, registers, retains or associates with a block that is kept, is kept by the next collection, full or partial |
| Generational.UnbarrieredStoreBreaksGenerations | autozone-77.1/AutoZone.cpp:957-983 | some run leads to a state where one store to the zone without the barrier makes a reachable block generational garbage |
| Generational.CollectedHeapIsLive | autozone-77.1/AutoZone.cpp:1402-1436 | when the garbage of a collection, full or partial, has been freed, exactly the live blocks are left, all of them are still live, and the same collection would find nothing |
| Generational.ParanoidCheck | autozone-77.1/auto_collector.cpp:95-117 | reports a failure exactly when some generational garbage is not garbage of the full collection |
| Generational.FullIgnoresAges | autozone-77.1/AutoMemoryScanner.cpp:709-748 | what the partial collection does to ages and cards does not change what a full collection keeps |
| Generational.ParanoidFailsIff | autozone-77.1/auto_collector.cpp:53-121 | some generational garbage is not garbage of the full collection exactly when some generational garbage is queued for the full collection |
| Generational.ParanoidCollection | autozone-77.1/auto_collector.cpp:53-121 | after every run, for every queue and every size of the stack, a partial and then a full collection are found to disagree exactly when generational garbage has been queued for the full one and that did not overflow; never when nothing has been queued in between; the generational garbage is that of a partial collection, and without a failure the garbage of a full collection, which contains it, is handed on; when either stack must and when it cannot overflow |
| Enlivening.StepKeepsInv | autozone-77.1/AutoZone.h:717-748 | every step of every thread, unbarriered stores of data included, keeps the invariant, in full and in partial collections: what scanned words, roots, associations and published blocks hold is marked, queued, about to be queued by the holder of the lock, or an old block that will still be marked; every word under the barrier that may hold a block lies on a marked card or is being stored to |
| Enlivening.StoreQueuedKeeps | autozone-77.1/AutoZone.cpp:957-983 | a barriered store writes before it marks the card, and nothing is lost in between |
| Enlivening.UnreadWordIsSafe | autozone-77.1/AutoMemoryScanner.cpp:493-565 | a word of an old block on an unmarked card, which a partial collection does not read, holds nothing that has to be marked, even while a store to it is under way |
| Enlivening.AllocReadKeeps | autozone-77.1/AutoLock.h:46-61 | the unlocked first read of the flag is harmless, because the flag is raised only when no allocation is under way |
| Enlivening.AllocCheckedKeeps | autozone-77.1/AutoAdmin.cpp:236-243 | a block published while the flag is up is queued before the lock is released |
| Enlivening.RootInsertedKeeps | autozone-77.1/AutoZone.h:902-913 | a new root is safe from its insertion on, although it is written later |
| Enlivening.AssocLockedKeeps | autozone-77.1/AutoZone.h:837-851 | an association set during a collection is queued before the lock is released |
| Enlivening.RunKeepsInv | autozone-77.1/AutoZone.cpp:887-983 | so it is after every interleaving, also of stores of data to any word without the barrier |
| Enlivening.PathIsMarked | autozone-77.1/AutoCollector.cpp:73-88 | when the garbage list is complete, every path of references from a registered root ends in a marked block |
| Enlivening.ReachableIsNotGarbage | autozone-77.1/AutoCollector.cpp:73-88 | for every interleaving, and for full and partial collections, no block reachable from the registered roots is in the garbage list, whatever data lies in words on unmarked cards |
| Enlivening.GarbageIsUnmarked | autozone-77.1/AutoZone.cpp:1402-1436 | for every interleaving, exactly the blocks that are not marked are on the complete garbage list, whenever they have been allocated |
| Enlivening.PublishedIsNotGarbage | autozone-77.1/AutoZone.h:1186-1199 | unless the collection was repeated after an overflow, no small or medium block published since the flag was raised is in the garbage list |
| Enlivening.OverflowLosesPublished | autozone-77.1/AutoZone.cpp:1313-1325 | a run, with a retry, where a block published while the flag was up is garbage |
| Operations.StoreRuns | autozone-77.1/AutoZone.cpp:957-983 | the steps of a barriered store add up to writing the word and marking its card, and the value is queued unless it is marked |
| Operations.RootRuns | autozone-77.1/AutoZone.h:902-913 | the steps of registering a root add up to its insertion and a store without a card |
| Operations.AssociationRuns | autozone-77.1/AutoZone.h:837-851 | the steps of setting an association add up to it, and the value is queued, marked or not, while the flag is up |
| Operations.AllocationRuns | autozone-77.1/AutoAdmin.cpp:224-245 | the steps of an allocation while the flag is down add up to publishing the block, without the lock |
| Operations.GuardedAllocationRuns | autozone-77.1/AutoAdmin.cpp:224-245 | the steps of an allocation while the flag is up add up to publishing the block and queueing it |
| Precision.StepForgets | autozone-77.1/AutoCollector.cpp:73-88 | no step of a mutator or of the collector makes anybody hold such a block, unless it brings one up itself |
| Precision.ForgottenIsGarbage | autozone-77.1/AutoZone.cpp:1295-1343 | for every interleaving, full or partial, with or without overflow: blocks that nobody else holds at some moment, and that no later step brings up, are on the garbage list when it is complete |
| Precision.QuietIsExact | autozone-77.1/AutoZone.cpp:1295-1343 | a full collection without interference, stacks and retained blocks lists exactly the blocks that could not be reached when it began, however often the scan stack overflows |
| SideData.StartByteDecodes | autozone-77.1/AutoSubzone.h:632-645 | the first byte of a block is not zero and gives back the start bit, the size bit, the count code and the layout |
| SideData.StartsAreBlocks | autozone-77.1/AutoSubzone.h:384-395 | a byte looks like a start exactly where a block starts; no length byte does |
| SideData.LengthIs | autozone-77.1/AutoSubzone.h:395-396 | the encoded length is the length of the block |
| SideData.EndsAreNonzero | autozone-77.1/AutoSubzone.h:632-667 | the first and last byte of a block are not zero, so coalescing sees both of its ends |
| SideData.Allocate | autozone-77.1/AutoSubzone.h:632-648 | the bytes describe the blocks and the new one, and all other bytes are as before |
| SideData.Deallocate | autozone-77.1/AutoSubzone.h:660-667 | the bytes describe the other blocks; those of the freed block are zero |
| SideData.IsUsed | autozone-77.1/AutoSubzone.h:487-501 | true exactly when some block contains the quantum |
| SideData.BlockStart | autozone-77.1/AutoSubzone.h:614-629 | the start of the block that contains the quantum, if there is one |
| SideData.NextQuantum | autozone-77.1/AutoSubzone.h:584-600 | no block start is skipped |
| SideData.VisitAllocated | autozone-77.1/AutoBlockIterator.h:42-57 | the walk visits every allocated block exactly once, in address order |
| FreeLists.Bypass | autozone-77.1/AutoFreeList.h:186-200 | linking the neighbours of a node leaves a correctly linked list without it |
| FreeLists.Cache.Push | autozone-77.1/AutoFreeList.h:171-178 | the node is the new head, its size stands at both of its ends, the other lists are as before |
| FreeLists.Cache.Pop | autozone-77.1/AutoFreeList.h:152-163 | gives back the head and keeps the rest linked |
| FreeLists.Cache.Remove | autozone-77.1/AutoFreeList.h:186-200 | takes a node out of the middle of a doubly linked list by its links alone |
| Tiling.QuantumHasChunk | autozone-77.1/AutoAdmin.cpp:224-408 | every quantum below the high water is in some block or free node |
| Tiling.QuantumHasOneChunk | autozone-77.1/AutoAdmin.cpp:224-408 | and in no other |
| Tiling.JoinTiles | autozone-77.1/AutoAdmin.cpp:348-379 | merging two adjacent free chunks keeps the partition |
| Tiling.DropTiles | autozone-77.1/AutoAdmin.cpp:394-398 | giving the last chunk back to the territory keeps the partition |
| Tiling.Conservation | autozone-77.1/AutoAdmin.cpp:224-408 | the quanta of blocks, of free nodes and of territory add up to those of the subzones: none is lost and none is counted twice |
| Allocator.TakenMerged | autozone-77.1/AutoAdmin.cpp:262-287 | taking the front of a free node leaves no two free chunks adjacent |
| Allocator.GrownTerritory | autozone-77.1/AutoAdmin.cpp:288-306 | territory that is kept is at least 65 quanta, so it can serve any request |
| Allocator.Admin.TestNodeIntegrity | autozone-77.1/AutoAdmin.cpp:100-146 | the integrity checks never fail |
| Allocator.Admin.FindNode | autozone-77.1/AutoAdmin.cpp:252-263 | finds a node exactly when one is large enough, the best fit among the lists of exact sizes |
| Allocator.Admin.NothingFitsBytes | autozone-77.1/AutoAdmin.h:91-93 | no free node fits exactly when each has fewer bytes than are asked for |
| Allocator.Admin.FindAllocation | autozone-77.1/AutoAdmin.cpp:224-317 | the blocks are the old ones and a new one on free memory, of just as many quanta as the bytes asked for need, labelled with the youngest age, the count and the layout asked for, and no other side data changes; it fails exactly when no free node fits and there is no territory; growth is reported exactly when territory is used |
| Allocator.Admin.MergeNext | autozone-77.1/AutoAdmin.cpp:348-363 | a free neighbour behind is merged, and then none is left behind |
| Allocator.Admin.MergePrior | autozone-77.1/AutoAdmin.cpp:366-384 | a free neighbour in front is found by its footer and merged |
| Allocator.Admin.Deallocate | autozone-77.1/AutoAdmin.cpp:324-408 | exactly the block is freed; partition, lists, footers, merging and territory are as they must be; no side data outside the block changes; freeing what is free changes nothing |
| Allocator.Admin.FreeSpace | autozone-77.1/AutoAdmin.cpp:69-82 | the sum over the lists is the size of all free quanta |
| Allocator.Admin.BytesConserved | autozone-77.1/AutoAdmin.cpp:69-82 | blocks, free space and territory add up to the memory of the subzones at all times |
| Allocator.Admin.Overwrite | autozone-77.1/AutoFreeList.h:40-45 | whatever is written into an allocated block, the free lists stay intact |
| Allocator.Admin.AddSubzone | autozone-77.1/AutoRegion.cpp:263-302 | adds territory exactly when there is none and a subzone is left, and changes no block |
| Allocator.Admin.Allocate | autozone-77.1/AutoRegion.cpp:158-178 | a request for any number of bytes up to 64 quanta is served with the least number of quanta that hold them, and fails exactly when no free node fits, there is no territory and no subzone can be added |
| Probing.RepairStarts | autozone-77.1/auto_weak.c:171-195 | a deletion leaves every entry up to the hole where it can be found |
| Probing.RepairStep | autozone-77.1/auto_weak.c:188-194 | removing the next entry and inserting it again makes one more entry findable |
| Probing.RepairEnds | autozone-77.1/auto_weak.c:188-194 | at the next empty slot every entry can be found again |
| Probing.HasEmpty | autozone-77.1/auto_weak.c:201-219 | a table that is not full has an empty slot |
| Referrers.GrowthSuffices | autozone-77.1/auto_weak.c:68-95 | growth never nests: rehashing the old entries never fills the new array |
| Referrers.Grow | autozone-77.1/auto_weak.c:68-95 | the same referrers, and afterwards there is an empty slot |
| Referrers.Append | autozone-77.1/auto_weak.c:99-118 | always finds an empty slot; every referrer stays within the recorded displacement |
| Referrers.Remove | autozone-77.1/auto_weak.c:124-141 | a search bounded by the displacement finds the referrer exactly when it is there, in spite of holes |
| WeakTable.Table.EntryFor | autozone-77.1/auto_weak.c:247-265 | finds the entry of a referent exactly when there is one |
| WeakTable.Table.RemoveEntry | autozone-77.1/auto_weak.c:171-195 | all other entries are still there and can be found |
| WeakTable.Table.GrowMaybe | autozone-77.1/auto_weak.c:199-219 | the same entries, and room for one more under three quarters of the capacity |
| WeakTable.Table.Register | autozone-77.1/auto_weak.c:362-389 | the table refines the map from locations to referents: the location is registered with its new referent only, and holds it; the count of references changes as the number of entries does |
| WeakTable.Table.Unregister | autozone-77.1/auto_weak.c:340-353 | exactly the location is taken off, and only if it is registered with that referent; the count of references changes as the number of entries does |
| WeakTable.EntryGone | autozone-77.1/auto_weak.c:346-351 | an entry without locations can be removed without losing a registration |
| WeakTable.LinkFront | autozone-77.1/auto_weak.c:292-296 | a block that is not linked yet becomes the head of the chain and is linked once |
| WeakTable.Table.ZeroReferrers | autozone-77.1/auto_weak.c:269-298 | exactly the listed locations are zeroed, and exactly the callable blocks that come with them are added to the chain |
| WeakTable.Table.ClearReferences | autozone-77.1/auto_weak.c:306-331 | exactly the locations registered with garbage are zeroed and forgotten; the chain holds exactly their callable blocks; the count comes to exceed the entries by one more for each garbage block that was referred to, and by no more if and only if there is none |
| WeakTable.Table.CallCallbacks | autozone-77.1/auto_weak.c:427-438 | each block of the chain is called once, in order, and left unlinked |
| WeakTable.Table.CollectWeak | autozone-77.1/AutoZone.cpp:1345-1375 | after a collection no registered location holds a garbage block, all other locations are unchanged, and each callback block attached to a zeroed location has been called exactly once; the count is off by one more for each garbage block that was referred to |
| WeakTable.CountOutlivesEntries | autozone-77.1/auto_weak.c:170-195 | one registration and one collection leave a table without entries that counts one weak reference |
| Refcounts.AgeTests | autozone-77.1/AutoSubzone.h:143-147 | the two-operation tests agree with the age table |
| Refcounts.IncrTable | autozone-77.1/AutoSubzone.cpp:37-43 | the table raises the count by one, yields no unused code, and keeps the age, but that ages 4 and 5 become 3 when the count becomes 2 |
| Refcounts.DecrTable | autozone-77.1/AutoSubzone.cpp:44-50 | the table lowers the count by one and keeps the age, but that age 3 becomes 5 when the count ceases to be 2 |
| Refcounts.Table.OverflowIsThreeOrMore | autozone-77.1/AutoZone.cpp:647-703 | the overflow table holds exactly the blocks with a count of at least 3 |
| Refcounts.Table.GetRefcount | autozone-77.1/AutoZone.cpp:627-639 | the count of a block, although the overflow table is looked at for code 2 only |
| Refcounts.Table.IncRefcount | autozone-77.1/AutoZone.cpp:647-668 | the stored count goes up by one, with the age as in the table; below 2 the count before is returned |
| Refcounts.Table.DecRefcount | autozone-77.1/AutoZone.cpp:675-703 | the stored count goes down by one, with the age as in the table; at 0 nothing changes and -1 is returned |
| Refcounts.Table.Age | autozone-77.1/AutoSubzone.h:432-438 | a block comes one step nearer to old age and its count stays |
| Refcounts.Table.BlockIncrementRefcount | autozone-77.1/AutoZone.cpp:755-778 | the block is queued exactly when the count before was 1; count and age change as by `IncRefcount` |
| Refcounts.Table.Perform | autozone-77.1/AutoZone.cpp:627-703 | over every sequence of retains, releases and ageings the count is the initial one plus retains less releases, unless a release underflows; an old block never becomes new |
| HashLists.SlotTells | autozone-77.1/AutoHashTable.cpp:107-130 | an address is present exactly when its slot holds it |
| HashLists.NoSlotIsAbsent | autozone-77.1/AutoHashTable.cpp:107-130 | a search that ends without a slot proves the address absent |
| HashLists.PutKeepsGrouped | autozone-77.1/AutoHashTable.cpp:161-173 | insertion keeps each group a run from its home slot |
| HashLists.ClosesGroup | autozone-77.1/AutoHashTable.cpp:195-224 | shifting the members behind it removes exactly the one address and keeps all groups |
| HashLists.HashList.FindSlot | autozone-77.1/AutoHashTable.cpp:107-130 | the slot of an address, or the reason why it has none |
| HashLists.HashList.Find | autozone-77.1/AutoHashTable.h:140-146 | agrees with a search through all entries |
| HashLists.HashList.Grow | autozone-77.1/AutoHashTable.cpp:73-99 | a larger table with the same pointers |
| HashLists.HashList.AddIndex | autozone-77.1/AutoHashTable.cpp:181-187 | the pointer is added; where there is a slot the table does not grow |
| HashLists.HashList.RemoveIndex | autozone-77.1/AutoHashTable.cpp:195-224 | exactly the pointer is removed, and its address has a slot again |
| HashLists.HashList.Add | autozone-77.1/AutoHashList.h:174-205 | the entry is appended and the index agrees with the entries, also after they have been moved |
| HashLists.HashList.Remove | autozone-77.1/AutoHashList.h:212-219 | the last entry takes the place of the removed one and the index agrees; it never has to grow |
| RootPaths.Queue.Enqueue | autozone-77.1/AutoRootScanner.h:65-73 | the linked nodes are the old ones and the new one |
| RootPaths.Queue.Dequeue | autozone-77.1/AutoRootScanner.h:75-83 | first in, first out |
| RootPaths.NearIsVisited | autozone-77.1/AutoRootScanner.h:121-139 | no walk of so few steps leads to a node that has not been visited |
| RootPaths.FollowNew | autozone-77.1/AutoRootScanner.h:124-137 | a newly found node is one step farther than the one being expanded, and the queue stays sorted by distance |
| RootPaths.ReachedIsVisited | autozone-77.1/AutoRootScanner.h:121-140 | when the queue is empty everything reachable has been visited |
| RootPaths.Graph.FindPath | autozone-77.1/AutoRootScanner.h:116-141 | from a reset graph a path is found exactly when there is one between two different nodes; it is a walk along references and no walk is shorter |
| RootPaths.Graph.CopyRoots | autozone-77.1/auto_gdb_interface.cpp:101-143 | for each root in turn from which the block can be reached, one shortest path from it, and none for the others |
| Bits.DecrementValue | autozone-77.1/AutoDefs.h:366 | subtraction of one on words; zero wraps to all ones |
| Bits.IncrementValue | autozone-77.1/AutoDefs.h:374 | addition of one on words; all ones wrap to zero |
| Bits.TrailingZerosIs | autozone-77.1/AutoDefs.h:366 | `(x - 1) & ~x` is the mask of the zeros at the low end |
| Bits.TrailingOnesIs | autozone-77.1/AutoDefs.h:374 | `x & ~(x + 1)` is the mask of the ones at the low end |
| Bits.MaskOrder | autozone-77.1/auto_bitmaps.c:286-287 | comparing masks as numbers compares the lengths of runs |
| Bitmaps.WindowRun | autozone-77.1/auto_bitmaps.c:283-287 | the zeros at the low end of the word are a run of the bitmap that ends in a one bit, also when it began in the word before |
| Bitmaps.Skip | autozone-77.1/auto_bitmaps.c:289-306 | skips exactly the zeros and the ones that follow, and corrects for a run carried over |
| Bitmaps.NextWord | autozone-77.1/auto_bitmaps.c:316-334 | carries the zeros left over into the next word that has one; nothing is found in full words between |
| Bitmaps.FindClearSequence | autozone-77.1/auto_bitmaps.c:264-340 | the least position of so many clear bits, wherever words meet, and none only if there is none |
| Bitmaps.MaxSeq | autozone-77.1/auto_bitmaps.c:171-254 | the length of the longest run of clear bits, or 7 if that is less |
| Bitmaps.FindAndMax | autozone-77.1/auto_bitmaps.c:164-264 | on the same bitmap the search finds a sequence exactly when the maximum is at least its length |
| Combinations.Absorption | macruby/0.4/array.c:3019-3026 | the identity that makes every division of `combi_len` exact |
| Combinations.CombiLen | macruby/0.4/array.c:3010-3028 | the binomial coefficient, for every argument |
| Combinations.FromIs | macruby/0.4/array.c:3054-3095 | the listed tuples are exactly the increasing ones |
| Combinations.FromInOrder | macruby/0.4/array.c:3054-3095 | in lexicographic order, none twice |
| Combinations.FromCount | macruby/0.4/array.c:3077 | there are as many as the binomial coefficient says |
| Combinations.CombinationsCount | macruby/0.4/array.c:3077 | so that is the number of increasing tuples, each counted once |
| Combinations.RestCounts | macruby/0.4/array.c:3089-3091 | counting up the last position with room gives the next combination |
| Combinations.CountUp | macruby/0.4/array.c:3089-3091 | the loop stops at the last position with room, or all positions are at their ends |
| Combinations.Combination | macruby/0.4/array.c:3054-3095 | yields the values of every combination once, in order, without reading out of range |
| Permutations.FromIs | macruby/0.4/array.c:2922-2946 | the listed tuples are exactly those of different indices that continue the prefix |
| Permutations.FromInOrder | macruby/0.4/array.c:2922-2946 | in lexicographic order, none twice |
| Permutations.Permute0 | macruby/0.4/array.c:2922-2946 | yields exactly those and restores `used` and the prefix |
| Permutations.PermutationsOf | macruby/0.4/array.c:2974-3008 | yields the values of every permutation of r elements, once, in order |
| Flatten.FlattenArray | macruby/0.4/array.c:2687-2735 | the walk ends on every finite graph, shared or cyclic, with the outcome of the recursive definition |
| Flatten.FailsIffReentered | macruby/0.4/array.c:2710-2714 | it raises exactly when some way through expanded arrays leads back to an array that is open |
| Flatten.ModifiedIff | macruby/0.4/array.c:2709 | modified exactly when the array holds an array that is expanded; otherwise the result is the array itself |
| Flatten.OnlyAtoms | macruby/0.4/array.c:2687-2735 | without a level no array is left in the result |
| BlockInlining.ExecAgrees | macruby/0.4/blockinlining.c:108-177 | a body that reads no variable before writing it cannot see what earlier rounds left behind |
| BlockInlining.ExecKeepsHidden | macruby/0.4/blockinlining.c:132-163 | no body changes the hidden variables |
| BlockInlining.LoopIsYieldEach | macruby/0.4/blockinlining.c:330-425 | the generated loop runs in step with yielding, also when the body reassigns its parameter or changes the array |
| BlockInlining.InlinedIsYieldEach | macruby/0.4/blockinlining.c:108-277 | for `times`, `each` of a range and `each` of an array, without a parameter, with a variable of the block or with one outside it, the inlined block has the effect and the value of yielding each element in turn |
| BlockInlining.YieldsElements | macruby/0.4/blockinlining.c:180-425 | for every body the block is called with exactly those elements, in order, until it is left by break; for `each` of an array provided no call changes the array |
| BlockInlining.InlinedRecordsElements | macruby/0.4/blockinlining.c:108-425 | an inlined block that appends its argument to an array appends 0 up to n without n, the integers of the range with or without its end, or the elements of the array, in order |
| BlockInlining.InlinedDrains | macruby/0.4/blockinlining.c:365-425 | an inlined block that pops the array it is called for leaves the first half of it, so the length is looked at in every round |
| BlockInlining.InlinedNextSkips | macruby/0.4/blockinlining.c:199-304 | a next in an inlined block skips the rest of the block for that element only |
| BlockInlining.InlinedBreakStops | macruby/0.4/blockinlining.c:199-304 | a break in an inlined block ends the loop before the element, and its value is that of the whole |
| BlockInlining.StaleVariableShows | macruby/0.4/blockinlining.c:108-177 | a body that reads a variable before writing it can tell the difference |

## Left out

* Thread suspension, register capture, atomic instructions, logging, statistics, environment reading, `AutoMonitor`, `CFSoftLinking`, the enumerator and the debugger interface: plumbing over foreign interfaces.
* Large blocks in the concurrent protocol: `allocate_large` publishes outside the barrier; values held only on stacks that have been scanned already, and retains, give no guarantee there either.
* Marker.Collector.Collect: between the number of retained blocks and the bound it depends on the order of references whether the stack overflows; that is not stated.
* Marker.Collector.ScanPendingUntilDone: memory is read as it stands; scanning while mutators run is in Enlivening.
* Enlivening.ReachableIsNotGarbage: covers registered roots, words of blocks and associations; the collector's own marking order is left open, so the result holds for every order. A partial collection assumes that all words of old blocks are under the barrier where blocks are stored to them, as they are in the code; barriered copies of several words are in Generational.
* Generational.ParanoidCollection: between the two collections mutators queue values but change neither memory nor roots nor stacks; the interruption of the second collection is not modelled.
* Allocator.Admin.Allocate: the clearing of the new block, the choice between the small and the medium admin and the other regions are not modelled; the admin is that of the last region.
* Allocator.Admin.TestNodeIntegrity: the plausibility of link addresses is part of the list invariant and is not checked again.
* WeakTable.Table.Register: locations are written by registration and clearing only; the misuse that leaves a stale value in a location is kept as a branch and never taken.
* WeakTable.Table.Unregister: `weak_unregister_with_layout` repeats it over the slots of a block and is not modelled.
* Refcounts.Table.BlockIncrementRefcount: counts of large blocks are kept in a plain field and not modelled.
* HashLists.HashList.AddIndex: the growth of the table may go on for ever for some hash values; a maximal size stands for the end of memory, and an answer of false for running into it.
* HashLists.HashList.Rehash: entries are put in one at a time; the code unrolls the loop by four.
* RootPaths.Graph.FindPath: building the graph while scanning is not modelled.
* Bitmaps.FindClearSequence: proved for lengths up to 31; the code promises up to 7. A shift by 32 is taken as zero.
* Combinations.CombiLen: C's overflow and the guard against it, which misses some overflows, do not arise in unbounded integers.
* Combinations.Combination: the block that is yielded to does not change the array.
* Flatten.FlattenArray: objects that convert themselves to arrays, taint and the class of the result are not modelled.
* BlockInlining.InlinedIsYieldEach: `redo`, captured environments, the cache of special blocks and the assignment of an attribute by the parameter are not modelled; ranges are of integers.
* `Bitmap::count_set` and `bitmap_range_set`, which do not match their comments, `ptr_map` and `ptr_set`, which repeat the grouped hash scheme, arena allocation, the AltiVec path, `rb_ary_splice`.
