# The managed heap and its neighbours in the .NET Micro Framework runtime

This project models parts of the TinyCLR core in Dafny and proves properties of the model.

* **Heap.** Clusters are tiled with sized blocks and keep an address-ordered free list (`HeapModel`,
  `HeapCluster`, `Heap`, `Allocator`). The collector marks with a bounded stack that may overflow, handles
  finalizers, weak references and weak delegate lists, and sweeps (`MarkStack`, `Marking`, `Marker`,
  `MarkPhase`, `WeakPhase`, `Collector`). The compactor moves blocks down, records regions and rewrites
  pointers (`Relocation`, `Compaction`, `CompactionGap`, `Compactor`). All of them share one invariant, and the main results
  say that an arbitrary object graph survives.
* **Index structures.** The AVL tree over linked entries (`AvlShape`, `AvlTree`), the virtual-method cache
  over two link arrays (`LinkRings`, `MethodCache`) and the size-segregated event cache (`EventCache`).
* **Protocols.** Object locks with recursion, queues, hand-over, abort, timeouts and sub-thread destruction
  (`LockState`, `LockOwners`, `LockFacts`, `LockSteps`, `ReleaseWalk`, `RequestDeletion`, `TimeoutPass`,
  `PassReach`, `ReadyPass`, `Overlooked`, `LockEngine`), and waiting for signals that reset themselves
  (`WaitEngine`).
* **Fast forms.** Inlined calls against framed ones (`InlineCall`), UTF-8 and UTF-16 (`Unicode`,
  `UnicodeHelper`), condition codes and block transfers of the ARM emulator (`Arm`, `ArmEngine`).

The files that change state in the original are classes with methods here. A method's contract ties its
new state to a function or a relation of the old one, and lemmas say what that function means.

## How to read the model

* One `Memory` maps a block address to its header and slots; clusters are views of it. Addresses and sizes
  are counted in heap blocks, both in the same unit. The two words in front of and behind a payload stand
  for the ends of its free list.
* A `Hole` is space between leaving a free list and returning to one, or the rest of a copy; it keeps the
  clusters tiled in the middle of an operation. Blocks discarded from the event cache are holes until the
  sweep.
* A range of slots on the mark stack is the sequence of its slots. Event blocks always carry the mark and
  are never traversed. Free and cached blocks have no relocation routine.
* Roots are parameters of the collection: what threads, assemblies and the execution engine hold.
* The lookup of the type system is a fixed function that returns a class's own method for that class. AVL
  keys are integers.
* A lock request carries the time it was made, which the original does not store; a destroyed sub-thread
  stays known by name, because an owner or a request may still name it. A thread rests while it waits for
  events, a time or an object rather than for a lock.
* Instructions of a method body are `Op` values; `Apply` stands for everything that takes operands and
  leaves one, nested calls included. The memory that holds UTF-8 text is a function from positions to bytes.

## Where the code and its intention part

* **Mark stack** (CLR/Core/GarbageCollector_ComputeReachabilityGraph.cpp:98-103 and 112). When a segment is
  full and a next one exists, the code reloads the old segment, and a segment of one element has no room
  besides its sentinel. The model does the intended step; `MarkStacks.WrittenPushIsIntended` says exactly when
  the text does the same.
* **Weak delegate lists** (CLR/Core/GarbageCollector_ComputeReachabilityGraph.cpp:259-263). The links of a
  list are cleared before it is linked. When a slow pass visits the same list again, its neighbours still
  point at it: `ReachableLists.ClearedLinkWorks` proves that the list of all reachable lists survives if and
  only if the node was not linked before. The marker of the model unlinks first, as link operations do.
* **Gaps after an exact fit** (CLR/Core/GarbageCollector_Compaction.cpp:204-258). When a run fills its free
  block exactly, the walk goes on with the old successor of that block on the free list; the hole that the run
  left lies in between and is passed over together with the movable block behind it. `HeapCompact` proves that a
  free block is followed by a movable one if and only if that happened and no later run filled the hole.
  `CompactionGaps.MovableClusters` excludes it for clusters without pinned or event blocks, and
  `CompactionGaps.ExactFitLeaves` gives a family of heaps and exactly when it happens in them.
* **Finalizers while the mark stack overflows** (CLR/Core/GarbageCollector.cpp:408-434). An object that a moved
  finalizer's object reaches is brought back with it, so its own finalizer stays. If the stack overflows
  meanwhile, marking from a moved object is incomplete until the slow pass after the loop, and such a finalizer
  may move too. `MarkPhase.PrepareFinalizers` counts the overflows and proves the exact rule without one and the
  rest of it always; `MarkPhases.OverflowHidesTarget` shows how an overflow hides an object.
* **Requests of aborted threads** (CLR/Core/Thread.cpp:78-98, 365-400). An aborted thread runs again while its
  request stays queued. A thread may so have several requests, and the hand-over restarts the new owner if and
  only if none is left (`LockSteps.HandOverIsFair`); `LockSteps.AbortedOwnerWaitsForItself` shows the run in
  which it sleeps behind its own second request.
* **Locks of destroyed sub-threads** (CLR/Core/Thread.cpp:55-63). The walk gives up locks before requests, so a
  lock may come back to the sub-thread that is being destroyed, at the end of the very list being walked. All
  of them are given up if and only if every lock is accompanied by others long enough
  (`LockEngines.LockEngine.ReleaseLocks`); `ReleaseWalks.KeptByItself` shows one that is kept.
* **Passes of CheckThreads** (CLR/Core/Execution.cpp:2553-2656). The next thread is looked up first, and a
  timeout may move it to the other list, which the walk then follows. `PassReaches.CoversIfOrderly` says exactly
  when a pass over the sleepers visits all of them, and `OverlookedRequests.RequestOverlooked` shows a request
  that stays although its time is up.
* **Supplementary characters** (CLR/Core/CLR_RT_UnicodeHelper.cpp:274-275, 362-378). The encoder adds a base
  that the decoder does not subtract, so the round trip holds exactly for text without high surrogates
  (`Unicode.RoundTrip`), and a pair comes back with its first half 0x40 higher (`Unicode.PairMoves`). The
  encoder does not count pairs against its limit; the model does the same.
* **Counting against converting** (CLR/Core/CLR_RT_UnicodeHelper.cpp:17-73, 179, 252). The count accepts lead
  bytes that the converter refuses; `Unicode.CountIsConverted` gives the exact condition. The count checks
  continuation bytes, the converter does not.

## Model

| member | source | states |
|---|---|---|
| Clusters.HeapCluster.constructor | CLR/Core/CLR_RT_HeapCluster.cpp:9-43 | a new cluster is tiled, holds nothing in use, and its free list is in order |
| Clusters.HeapCluster.ExtractBlocks | CLR/Core/CLR_RT_HeapCluster.cpp:45-139 | first fit from the front (last fit from the back for event blocks); exactly one block of the requested length is added to the blocks in use, everything outside the cluster is as before; nothing is returned only if no free block is long enough |
| Clusters.HeapCluster.RecoverFromGC | CLR/Core/CLR_RT_HeapCluster.cpp:141-207 | the marked blocks survive, unmarked unless they are event blocks; every maximal run of others is one free block; the free list is in address order with matching back links |
| Clusters.HeapCluster.AbsorbRun | CLR/Core/CLR_RT_HeapCluster.cpp:158-190 | a maximal run of dead blocks becomes one free block, linked behind the ones before it |
| Clusters.HeapCluster.InsertInOrder | CLR/Core/CLR_RT_HeapCluster.cpp:209-244 | an unlinked piece of a cluster returns to the free list and is merged with both neighbours; the invariant of the cluster holds again |
| Clusters.HeapCluster.MergeNext | CLR/Core/CLR_RT_HeapCluster.cpp:225-229 | a free block directly behind is unlinked and swallowed, and only then |
| Clusters.HeapCluster.MergePrev | CLR/Core/CLR_RT_HeapCluster.cpp:234-238 | a free block directly in front swallows the node, and only then |
| Clusters.HeapCluster.FindFit | CLR/Core/CLR_RT_HeapCluster.cpp:53-80 | the block found is free, long enough, and the first such one in the direction of the search |
| Clusters.HeapCluster.FreeTotal | CLR/Core/GarbageCollector.cpp:826-852 | the free list adds up to the size of everything not in use, and used and free together fill the payload |
| HeapModel.SizesAddUp | CLR/Core/GarbageCollector.cpp:826-852 | sizes of used and unused blocks add up to the payload of any tiled range |
| HeapModel.CanonicalLayout | CLR/Core/CLR_RT_HeapCluster.cpp:141-207 | the blocks in use determine the whole layout: tiling without adjacent free blocks leaves one way to fill the gaps |
| Heap.HeapStep | CLR/Core/CLR_RT_HeapCluster.cpp:45-246 | an operation on one cluster keeps the invariant of every other one |
| Heap.HeapApart | CLR/Core/CLR_RT_HeapCluster.cpp:9-43 | in a valid heap no two blocks overlap, in whatever clusters they lie |
| Allocation.Allocator.TryClusters | CLR/Core/Execution.cpp:1616-1660 | an event block comes from the last cluster with room, at the top of its highest free block with room; any other one from the cluster that served last if that has room, else from the first one with room, at the bottom of its lowest free block with room, and that cluster is remembered; failure means that no free block of any cluster is long enough, and changes nothing else |
| Allocation.Allocator.ExtractHeapBlocks | CLR/Core/Execution.cpp:1590-1718 | the block comes from space that was free, of the cluster and in the place that the search order says, everything else in use is untouched; a collection happens at most once and only if nothing fitted, and the cluster that served last is forgotten then; failure after it means nothing fits among all free runs, and a compaction is scheduled exactly if the free total would suffice |
| Relocation.RelocationTable.Relocate | CLR/Core/GarbageCollector_Compaction.cpp:397-438 | the binary search rewrites a pointer exactly as a search of all regions would |
| Relocation.RelocationTable.AddBlock | CLR/Core/GarbageCollector_Compaction.cpp:292-322 | inserting a region keeps the table sorted with disjoint sources, and changes nothing else |
| Relocation.RelocationTable.ComputeBounds | CLR/Core/GarbageCollector_Compaction.cpp:331-341 | the bounds that let pointers be skipped enclose every region |
| Relocation.LookupCases | CLR/Core/GarbageCollector_Compaction.cpp:397-438 | with sorted disjoint regions at most one contains a pointer, and the 32-bit offset moves it with that region |
| Relocation.LookupCompose | CLR/Core/GarbageCollector_Compaction.cpp:132-144 | relocating in two batches is relocating once with all regions: a block moves at most once |
| Relocation.LookupAppend | CLR/Core/GarbageCollector_Compaction.cpp:292-322 | a region recorded above all others affects only the addresses it contains |
| Relocation.InsertedIsSorted | CLR/Core/GarbageCollector_Compaction.cpp:292-322 | the place chosen for a new region keeps the order |
| CompactorLoop.Compactor.RelocateBlock | CLR/Core/GarbageCollector_Compaction.cpp:386-395 | every pointer slot of a block of a relocatable kind is replaced by its image, and nothing else |
| CompactorLoop.Compactor.RelocatePass | CLR/Core/GarbageCollector_Compaction.cpp:359-384 | every block of every cluster is rewritten once |
| CompactorLoop.Compactor.Flush | CLR/Core/GarbageCollector_Compaction.cpp:324-357 | heap and roots are rewritten by the recorded regions, and the table is empty afterwards |
| CompactorLoop.Compactor.MeasureSlide | CLR/Core/GarbageCollector_Compaction.cpp:159-170 | a slide moves all movable blocks up to the next unmovable one |
| CompactorLoop.Compactor.MeasureFit | CLR/Core/GarbageCollector_Compaction.cpp:171-188 | a move takes whole movable blocks that fit into the free block |
| CompactorLoop.Compactor.MoveRun | CLR/Core/GarbageCollector_Compaction.cpp:204-237 | the copied run arrives block by block at its destination, the space left over is free again and merged, the heap invariant holds |
| CompactorLoop.Compactor.Step | CLR/Core/GarbageCollector_Compaction.cpp:146-249 | one round either moves a run down and records it above all earlier regions, or goes on to the next free block |
| CompactorLoop.Compactor.CompactFrom | CLR/Core/GarbageCollector_Compaction.cpp:91-272 | the loop keeps the correspondence between the old heap and the half-moved one, through table overflows and flushes |
| CompactorLoop.Compactor.HeapCompact | CLR/Core/GarbageCollector_Compaction.cpp:43-282 | whatever is moved, the object graph survives under one address map that is injective, never goes upwards and fixes unmovable blocks; afterwards a free block is directly followed by a movable block if and only if that block was left behind: never moved, behind the place of a run that filled a free block exactly up to an unmovable one; a cluster without unmovable blocks has its free space at its end; every cluster is valid again; the loops end |
| CompactorLoop.Compactor.FindFree | CLR/Core/GarbageCollector_Compaction.cpp:78-88 | the first free block of the first cluster that has one |
| CompactorLoop.Compactor.StepOn | CLR/Core/GarbageCollector_Compaction.cpp:159-258 | one round keeps the exact account of the movable blocks with free space in front of them |
| CompactionGaps.StepTidy | CLR/Core/GarbageCollector_Compaction.cpp:204-237 | after a run has moved, the movable blocks below the next source or free block with free space in front of them are still exactly those left behind |
| CompactionGaps.GapsAfter | CLR/Core/GarbageCollector_Compaction.cpp:204-237 | a move leaves free space in front of no block but the one that followed the run |
| CompactionGaps.GapStays | CLR/Core/GarbageCollector_Compaction.cpp:204-237 | free space in front of a movable block stays until the block moves or the space is filled up |
| CompactionGaps.FillsExactly | CLR/Core/GarbageCollector_Compaction.cpp:221-225 | if the walk goes on above a run that filled its free block, the block that stopped it is unmovable and in the same cluster |
| CompactionGaps.PassTidy | CLR/Core/GarbageCollector_Compaction.cpp:239-243 | giving up a free block that is too small passes no movable block that touches it |
| CompactionGaps.NextListTidy | CLR/Core/GarbageCollector_Compaction.cpp:246-258 | going on to the first free block of a later cluster passes none either |
| CompactionGaps.MovableClusters | CLR/Core/GarbageCollector_Compaction.cpp:43-282 | in a cluster without pinned or event blocks all free space ends up in one block at its end |
| CompactionGaps.LeftHasBlocker | CLR/Core/GarbageCollector_Compaction.cpp:43-282 | a block left behind has an unmovable block in its cluster |
| CompactionGaps.ExactFitLeaves | CLR/Core/GarbageCollector_Compaction.cpp:204-258 | in a heap of one cluster with one free block that the first movable block above fits exactly without touching it, free space stays in front of a movable block exactly if the block behind that one is movable |
| Compaction.TracksEnd | CLR/Core/GarbageCollector_Compaction.cpp:43-282 | once all recorded regions are applied, the correspondence is the preservation of the object graph |
| Compaction.TracksMove | CLR/Core/GarbageCollector_Compaction.cpp:151-153 | recording a move keeps the correspondence: sources ascend and every block moves at most once, downwards |
| Compaction.MemmoveMovesRun | CLR/Core/GarbageCollector_Compaction.cpp:214-214 | copying downwards, even onto itself, moves exactly the blocks of the run |
| Compaction.InteriorPointer | CLR/Core/GarbageCollector_Compaction.cpp:397-438 | a pointer into the middle of a block keeps its distance to the block |
| MarkStacks.MarkStack.constructor | CLR/Core/GarbageCollector_ComputeReachabilityGraph.cpp:9-27 | a new stack is empty and has room behind its sentinel |
| MarkStacks.MarkStack.Pop | CLR/Core/GarbageCollector_ComputeReachabilityGraph.cpp:58-91 | takes one pending slot, going back a segment when one is done; reports the end only if nothing is pending |
| MarkStacks.MarkStack.Push | CLR/Core/GarbageCollector_ComputeReachabilityGraph.cpp:92-158 | the rest of a range becomes pending, or nothing changes, the out-of-space flag is set and the overflow counted |
| MarkStacks.MarkStack.Grow | CLR/Core/GarbageCollector_ComputeReachabilityGraph.cpp:106-135 | ever smaller segments are asked for; one that is granted has room for the sentinel and a range |
| MarkStacks.PushKeeps | CLR/Core/GarbageCollector_ComputeReachabilityGraph.cpp:92-158 | a push adds exactly the range to what is pending and keeps the segments well formed |
| MarkStacks.WrittenPushIsIntended | CLR/Core/GarbageCollector_ComputeReachabilityGraph.cpp:92-135 | the text of the push does the intended step exactly unless the current segment is full and a next segment exists or a single element was granted; then, and only then, it stores past the end of a segment |
| Marking.ClosureIsExact | CLR/Core/GarbageCollector_ComputeReachabilityGraph.cpp:38-292 | with nothing pending and nothing dropped, an object is marked exactly if a root reaches it strongly |
| Marking.VisitCloses | CLR/Core/GarbageCollector_ComputeReachabilityGraph.cpp:161-264 | marking a block satisfies everything that waited for it and leaves its slots to be done |
| Marking.VisitSound | CLR/Core/GarbageCollector_ComputeReachabilityGraph.cpp:160-264 | nothing is scheduled that the roots do not reach |
| Marking.StoreCloses | CLR/Core/GarbageCollector_ComputeReachabilityGraph.cpp:92-158 | an owner whose slots were stored is covered from then on |
| Marking.FewerUnmarked | CLR/Core/GarbageCollector.cpp:265-294 | a pass that newly marks a block leaves fewer unmarked blocks |
| MarkerLoop.Marker.Visit | CLR/Core/GarbageCollector_ComputeReachabilityGraph.cpp:160-264 | the block is marked and its strong slots come next; a reachable weak delegate list goes to the end of the list of such lists |
| MarkerLoop.Marker.Traverse | CLR/Core/GarbageCollector_ComputeReachabilityGraph.cpp:38-292 | marks everything the start leads to as far as the stack reaches; a block whose slots were dropped was newly marked by the same call |
| MarkerLoop.Marker.CheckRoot | CLR/Include/TinyCLR_Runtime.h:2271-2276 | afterwards the root is marked, and the set of roots accounted for has grown by it |
| MarkerLoop.Marker.Revisit | CLR/Core/GarbageCollector.cpp:283-286 | a marked block is gone through again, dropped slots included |
| MarkPhases.MarkPhase.SlowPass | CLR/Core/GarbageCollector.cpp:267-293 | one pass over the heap revisits every marked block; if space runs out again, some block was newly marked |
| MarkPhases.MarkPhase.MarkSlow | CLR/Core/GarbageCollector.cpp:265-294 | ends, with nothing dropped: the unmarked blocks decrease in every pass that overflows |
| MarkPhases.MarkPhase.PrepareFinalizers | CLR/Core/GarbageCollector.cpp:408-434 | the list is split front to back and both parts keep its order: an entry that stays has an object that the roots or the objects moved before it reach, one that goes has an unreachable one; as long as the mark stack does not overflow, an entry goes if and only if neither the roots nor the objects moved before it reach its object |
| MarkPhases.MarkPhase.MarkJudges | CLR/Core/GarbageCollector.cpp:414 | the mark of an object decides that question |
| MarkPhases.HalfwayStep | CLR/Core/GarbageCollector.cpp:409-424 | one entry more is decided, the others keep their order |
| MarkPhases.OverflowHidesTarget | CLR/Core/GarbageCollector_ComputeReachabilityGraph.cpp:137-158 | with a full stack and no memory the slots of an object are given up, and an object it refers to keeps looking dead |
| MarkPhases.MarkPhase.Mark | CLR/Core/GarbageCollector.cpp:296-454 | exactly the objects that the roots and the resurrected objects reach are marked, whatever overflowed on the way; the finalizers are split front to back, exactly unless the stack overflowed while they were gone through |
| ReachableLists.FirstLink | CLR/Include/TinyCLR_Runtime__HeapBlock.h:1521-1557 | linking a cleared node appends it to the list |
| ReachableLists.LinkAgain | CLR/Include/TinyCLR_Runtime__HeapBlock.h:1443-1452 | linking a node that is on the list moves it to the end: what the second visit of a weak delegate list is meant to do |
| ReachableLists.ClearedLink | CLR/Core/GarbageCollector_ComputeReachabilityGraph.cpp:259-263 | a listed node that is cleared and linked again cuts the forward list off behind its old place, or makes it endless if it was the last one |
| ReachableLists.ClearedLinkWorks | CLR/Core/GarbageCollector_ComputeReachabilityGraph.cpp:259-263 | clearing and linking yields a list of all the nodes if and only if the node was not on it before |
| WeakPhases.WeakPhase.MarkWeakOne | CLR/Core/GarbageCollector.cpp:466-505 | a restored weak reference is kept, a dead one is dropped, a live one forgets a dead target; its serialized copy is alive exactly if the reference is extended, or the copy or the target was alive |
| WeakPhases.WeakPhase.MarkWeak | CLR/Core/GarbageCollector.cpp:456-510 | the list keeps exactly the live weak references, each settled, in the old order; strong closure is kept |
| WeakPhases.WeakPhase.SweepDelegates | CLR/Core/GarbageCollector.cpp:522-546 | a reachable weak delegate list loses exactly the delegates with dead targets and keeps the others alive |
| Collection.Collector.RecoverClusters | CLR/Core/GarbageCollector.cpp:550-561 | all clusters together keep exactly the marked blocks |
| Collection.Collector.CountFree | CLR/Core/GarbageCollector.cpp:826-852 | the free counter is the size of everything not in use |
| Collection.Collector.MarkEverything | CLR/Core/GarbageCollector.cpp:133-240 | marking, weak references and weak delegates follow each other with the facts each needs; the finalizers are split front to back |
| Collection.Collector.ExecuteGarbageCollection | CLR/Core/GarbageCollector.cpp:133-261 | safe and complete: no surviving pointer dangles, survivors keep their contents up to cleared weak slots, everything reachable survives, everything else lies in a free run; the finalizers are split front to back, exactly unless the mark stack overflowed while they were gone through |
| EventCaches.EventCache.Cleanup | CLR/Core/Cache.cpp:385-411 | every cached block becomes free space, the total reported is the total cached, all lists are empty |
| EventCaches.EventCache.AppendNode | CLR/Core/Cache.cpp:413-432 | the block joins the list of its size, the last list position; the cached total grows by its size |
| EventCaches.EventCache.ExtractFast | CLR/Core/Cache.cpp:506-535 | the oldest block of exactly the requested size, or nothing if there is none |
| EventCaches.EventCache.FindBest | CLR/Core/Cache.cpp:442-466 | the smallest large block that fits, if it is within 25 percent; otherwise nothing is acceptable |
| EventCaches.EventCache.ExtractSlow | CLR/Core/Cache.cpp:434-504 | the smallest large block that fits and is acceptable is split to the requested size and its tail cached again, nothing else changes; cached and issued sizes add up; a miss means that no block is acceptable |
| EventCaches.EventCache.Extract | CLR/Core/Cache.cpp:543-552 | a small request hits exactly if its list is not empty, and gets its oldest block; any other one misses only if no large block is acceptable, and gets the smallest that fits; a hit has exactly the requested size, a miss changes nothing |
| AvlTrees.RotateLeft | CLR/Core/AVLTree.cpp:57-82 | in place rotation of linked entries, no entry lost |
| AvlTrees.RotateRight | CLR/Core/AVLTree.cpp:84-109 | in place rotation of linked entries, no entry lost |
| AvlTrees.RotateLeftRight | CLR/Core/AVLTree.cpp:149-180 | double rotation with the skews of all three nodes |
| AvlTrees.RotateRightLeft | CLR/Core/AVLTree.cpp:210-241 | double rotation with the skews of all three nodes |
| AvlTrees.LeftGrow | CLR/Core/AVLTree.cpp:130-189 | in place rebalancing after the left subtree grew |
| AvlTrees.RightGrow | CLR/Core/AVLTree.cpp:191-250 | in place rebalancing after the right subtree grew |
| AvlTrees.LeftShrink | CLR/Core/AVLTree.cpp:266-337 | in place rebalancing after the left subtree shrank |
| AvlTrees.RightShrink | CLR/Core/AVLTree.cpp:339-410 | in place rebalancing after the right subtree shrank |
| AvlShapes.RotateLeftKeeps | CLR/Core/AVLTree.cpp:57-82 | a rotation keeps the order and the entries |
| AvlShapes.LeftGrownKeeps | CLR/Core/AVLTree.cpp:130-189 | balance is restored with the stated height change, and a grown subtree that is not a leaf is never level |
| AvlShapes.RightGrownKeeps | CLR/Core/AVLTree.cpp:191-250 | balance is restored with the stated height change, and a grown subtree that is not a leaf is never level |
| AvlShapes.LeftShrunkKeeps | CLR/Core/AVLTree.cpp:266-337 | balance is restored, and RES_BALANCE reports a height change exactly |
| AvlShapes.RightShrunkKeeps | CLR/Core/AVLTree.cpp:339-410 | balance is restored, and RES_BALANCE reports a height change exactly |
| AvlShapes.InsertedEntries | CLR/Core/AVLTree.cpp:533-596 | order and skew flags are kept, the entries grow by exactly the given key, and RES_BALANCE tells exactly whether the height grew |
| AvlShapes.InsertedNodes | CLR/Core/AVLTree.cpp:533-596 | the tree is made of the old nodes and the allocated one, each used as often as before |
| AvlShapes.RemovedEntries | CLR/Core/AVLTree.cpp:598-645 | order and skew flags are kept, exactly the given key disappears, and RES_BALANCE tells exactly whether the height shrank |
| AvlShapes.RemovedNodes | CLR/Core/AVLTree.cpp:598-645 | exactly one node is freed, that of the neighbour that moves into the removed key's own node, or the key's own if it has no subtrees |
| AvlShapes.RebalancedNodes | CLR/Core/AVLTree.cpp:130-410 | rebalancing makes the tree of the same nodes, each used as often as before |
| AvlShapes.HighestEntries | CLR/Core/AVLTree.cpp:428-465 | the entry taken out is the highest one, and the others stay |
| AvlShapes.LowestEntries | CLR/Core/AVLTree.cpp:467-502 | the entry taken out is the lowest one, and the others stay |
| AvlShapes.SizeBound | CLR/Core/AVLTree.cpp:28-50 | a tree of height h holds at least Fib(h + 2) - 1 entries: why the path of a lookup is logarithmic |
| AvlTrees.AvlTree.Insert | CLR/Core/AVLTree.cpp:16-20 | a new key is added with one fresh entry unless none can be allocated, a known one is refused, RES_BALANCE tells exactly whether the height grew |
| AvlTrees.AvlTree.Remove | CLR/Core/AVLTree.cpp:22-26 | exactly the key disappears and exactly one entry is freed, the others are used again; RES_BALANCE tells exactly whether the height shrank |
| AvlTrees.AvlTree.Find | CLR/Core/AVLTree.cpp:28-50 | finds an entry exactly if the key is in the map, with at most as many comparisons as a Fibonacci tree of that size is high |
| LinkRings.UnlinkRing | CLR/Core/Cache.cpp:316-349 | taking an element out of its ring leaves a ring of the others |
| LinkRings.InsertRing | CLR/Core/Cache.cpp:316-349 | putting an element behind the head leaves a ring with it first |
| MethodCache.FamilyMove | CLR/Core/Cache.cpp:316-349 | moving an entry to another chain keeps every entry in at most one chain |
| MethodCache.VirtualMethodTable.constructor | CLR/Core/Cache.cpp:180-211 | all chains are empty and the order of use lists every entry |
| MethodCache.VirtualMethodTable.MoveEntryToTop | CLR/Core/Cache.cpp:316-349 | the link array is changed as specified, also when the entry is first already |
| MethodCache.VirtualMethodTable.Search | CLR/Core/Cache.cpp:282-308 | finds the payload of the key in the chain of its bucket exactly if it is there |
| MethodCache.VirtualMethodTable.GetNewEntry | CLR/Include/TinyCLR_Runtime.h:2702-2702 | the entry unused for longest |
| MethodCache.VirtualMethodTable.FindVirtualMethod | CLR/Core/Cache.cpp:213-314 | always the answer of the type system; the entry comes first in its bucket and in the order of use; a missing answer replaces the entry unused for longest and no key is chained twice |
| LockFacts.CountIsQueued | CLR/Core/Thread.cpp:78-98 | a sub-thread's request counter is the number of its requests in all queues, however many |
| LockFacts.ThreadCountIsSum | CLR/Core/Thread.cpp:78-98 | a thread's counter is the sum over its sub-threads |
| LockFacts.SleepersAreQueued | CLR/Core/Execution.cpp:1366-1392 | no lost wake-up: a thread sleeps only while a request of it is queued, or for something other than a lock; otherwise it is on the ready list |
| LockFacts.WaitedForIsOwned | CLR/Core/CLR_RT_HeapBlock_Lock.cpp:134-171 | a lock with waiting requests has an owner; a request of another thread than the owning one is never that of an owner |
| LockFacts.FirstIsOldest | CLR/Core/CLR_RT_HeapBlock_Lock.cpp:68-104 | the first request of a queue is the oldest one still queued |
| LockSteps.HandOverIsFair | CLR/Core/CLR_RT_HeapBlock_Lock.cpp:68-132 | an abandoned lock goes to the oldest request, whose sub-thread enters once; the others stay queued in order; the new owner runs if and only if its thread has no other request queued |
| LockSteps.RunsIfLast | CLR/Core/Thread.cpp:78-98 | after a request left its queue the thread waits exactly if it has another one queued anywhere |
| LockSteps.AbortedOwnerWaitsForItself | CLR/Core/Thread.cpp:365-400 | a run: a waiting thread that is aborted may ask for the same lock again, and then gets it and sleeps behind its own second request |
| LockStates.RequestGoneKeeps | CLR/Core/Execution.cpp:2597-2615 | a request that leaves its queue keeps the invariant, counters included |
| LockStates.RequestAddedKeeps | CLR/Core/CLR_RT_HeapBlock_LockRequest.cpp:9-27 | a new request keeps the invariant, whatever the thread has queued already |
| LockStates.HandedOverKeeps | CLR/Core/CLR_RT_HeapBlock_Lock.cpp:75-110 | handing a lock over keeps the invariant, to a sub-thread of any thread |
| LockStates.LockFreedKeeps | CLR/Core/CLR_RT_HeapBlock_Lock.cpp:112-131 | giving a lock up keeps the invariant |
| LockStates.LockCreatedKeeps | CLR/Core/CLR_RT_HeapBlock_Lock.cpp:9-48 | a new lock keeps the invariant |
| LockStates.RestartedKeeps | CLR/Core/Thread.cpp:385-400 | a restart keeps the invariant although requests stay queued |
| LockStates.ListedKeeps | CLR/Core/Execution.cpp:1366-1392 | moving a thread to the list it belongs to keeps the invariant |
| LockStates.InsertedMembers | CLR/Core/Execution.cpp:1420-1453 | the place by credit adds exactly the thread to the list |
| LockStates.SubThreadCreatedKeeps | CLR/Core/Thread.cpp:9-32 | a new sub-thread keeps the invariant |
| LockStates.ThreadCreatedKeeps | CLR/Core/Thread.cpp:180-254 | a new thread keeps the invariant |
| LockOwners.LeaveUndoesEnter | CLR/Core/CLR_RT_HeapBlock_Lock.cpp:173-207 | leaving once undoes entering once |
| LockOwners.EnteredCounts | CLR/Core/CLR_RT_HeapBlock_Lock.cpp:134-171 | entering counts for the entering sub-thread alone |
| LockOwners.LeftCounts | CLR/Core/CLR_RT_HeapBlock_Lock.cpp:173-207 | leaving counts for the leaving sub-thread alone |
| LockEngines.LockEngine.constructor | CLR/Core/Execution.cpp:58-59 | nothing is locked and no thread exists |
| LockEngines.LockEngine.CreateThread | CLR/Core/Execution.cpp:1457-1479 | a new thread with one sub-thread joins the ready list by its credit |
| LockEngines.LockEngine.CreateSubThread | CLR/Core/Thread.cpp:9-32 | a new sub-thread is on top of its thread, with nothing counted |
| LockEngines.LockEngine.InsertRoundRobin | CLR/Core/Execution.cpp:1420-1453 | the loop finds the place in front of the first thread with less credit |
| LockEngines.LockEngine.PutInProperList | CLR/Core/Execution.cpp:1366-1392 | a waiting thread goes to the end of the sleepers, any other to its place among the ready ones |
| LockEngines.LockEngine.Abort | CLR/Core/Thread.cpp:365-383 | the thread runs again, its requests stay queued |
| LockEngines.LockEngine.Sleep | CLR/Core/Execution.cpp:2693-2705 | the thread waits, but not for a lock |
| LockEngines.LockEngine.EndRun | CLR/Core/Execution.cpp:1366-1392 | a thread that has run sleeps if it waits, and queues up by its credit otherwise |
| LockEngines.LockEngine.ChangeLockRequestCount | CLR/Core/Thread.cpp:78-98 | both counters change by the difference; the thread is restarted exactly when its own is zero, and waits otherwise |
| LockEngines.LockEngine.ChangeOwner | CLR/Core/CLR_RT_HeapBlock_Lock.cpp:68-132 | the oldest request takes over, or the lock is given up |
| LockEngines.LockEngine.FindLockObject | CLR/Core/Execution.cpp:2300-2347 | finds the lock on an object exactly if it is locked |
| LockEngines.LockEngine.LockObject | CLR/Core/Execution.cpp:2658-2675 | an unlocked object is locked, a sub-thread of the owning thread enters, anybody else queues up and stops, also with other requests queued |
| LockEngines.LockEngine.CreateLock | CLR/Core/CLR_RT_HeapBlock_Lock.cpp:9-48 | the new lock belongs to the thread and its first owner has entered once |
| LockEngines.LockEngine.IncrementOwnership | CLR/Core/CLR_RT_HeapBlock_Lock.cpp:134-171 | sub-threads of the owning thread enter, others join the end of the queue |
| LockEngines.LockEngine.Enqueue | CLR/Core/CLR_RT_HeapBlock_LockRequest.cpp:9-27 | the request is last in the queue and counted, and its thread waits |
| LockEngines.LockEngine.UnlockObject | CLR/Core/Execution.cpp:2677-2689 | only an owner may unlock; the last one to leave hands the lock over; an error changes nothing |
| LockEngines.LockEngine.LeaveLock | CLR/Core/CLR_RT_HeapBlock_Lock.cpp:173-207 | one recursion less, or the owner goes away, or the lock changes hands |
| LockEngines.LockEngine.DestroyOwner | CLR/Core/CLR_RT_HeapBlock_Lock.cpp:50-66 | the sub-thread gives the lock up however often it entered |
| LockEngines.LockEngine.DeleteLockRequests | CLR/Core/Execution.cpp:2351-2390 | all requests of the sub-thread leave their queues, the others keep their order, although the walk ends early once the thread runs |
| ReleaseWalks.WalkOn | CLR/Core/Thread.cpp:55-63 | visiting the first of several locks does not change whether that condition holds for all of them |
| ReleaseWalks.GivenUpEffects | CLR/Core/CLR_RT_HeapBlock_Lock.cpp:50-132 | a lock given up goes to the same final owner as before, touches no other lock, and comes back to the list exactly as counted |
| ReleaseWalks.KeptByItself | CLR/Core/Thread.cpp:55-63 | a sub-thread that queues behind itself for its only lock keeps it |
| LockEngines.LockEngine.ReleaseLocks | CLR/Core/Thread.cpp:55-63 | every lock goes to the first request of another sub-thread or is freed, except one at most that the sub-thread gets back; none is left if and only if, for each lock that comes back to it c > 0 times, a lock behind it stays on the list for c - 1 more rounds or one in front of it for c |
| LockEngines.LockEngine.DestroySubThreads | CLR/Core/Thread.cpp:34-76 | top down, each of the sub-threads above the base leaves the objects its frames are synchronized on, then its locks, then its requests; without requests of its own none of them keeps a lock |
| LockEngines.LockEngine.PopFrames | CLR/Core/CLR_RT_StackFrame.cpp:807-859 | the frames leave their objects one after the other, each lock that is still owned once |
| TimeoutPasses.PurgedLocks | CLR/Core/Execution.cpp:2597-2615 | exactly the expired requests of the listed locks leave, the others keep their order |
| TimeoutPasses.PurgedPassed | CLR/Core/Execution.cpp:1420-1453 | what the walk has passed stays passed while requests time out, if the passed thread goes to the front when it is resumed and the others to the back, or if it has nothing queued |
| PassReaches.PassPurges | CLR/Core/Execution.cpp:2553-2617 | a pass purges exactly the queues of the locks held by the threads it visits |
| PassReaches.CoversIfOrderly | CLR/Core/Execution.cpp:2553-2656 | a pass over the sleepers visits all of them, whatever credit the threads have, if and only if no sleeper is freed by those before it, the last one by the one right before it excepted |
| PassReaches.OrderlyPassPurges | CLR/Core/Execution.cpp:2597-2615 | over an orderly list no request whose time is up is left in a sleeper's lock |
| PassReaches.ThirdIsMissed | CLR/Core/Execution.cpp:2553-2656 | if the first sleeper frees the second one, a third one that waits for something else is missed with all its locks |
| OverlookedRequests.RequestOverlooked | CLR/Core/Execution.cpp:2553-2656 | a run after which a pass leaves a request in its queue although its time is up |
| ReadyPasses.CalmPassVisitsAll | CLR/Core/Execution.cpp:2553-2656 | as long as no ready thread is freed itself, a pass over the ready list visits all that were on it, wherever others are moved |
| LockEngines.LockEngine.CheckLocks | CLR/Core/Execution.cpp:2597-2615 | the loops over the locks of one thread and their requests |
| LockEngines.LockEngine.CheckThreads | CLR/Core/Execution.cpp:2553-2656 | the walk is the specified pass: the next thread is looked up before the visit, and locks change exactly by the threads visited |
| WaitEngines.DeliverMissesNobody | CLR/Core/CLR_RT_HeapBlock_WaitForObject.cpp:125-143 | going through the waiting threads until the signal is consumed leaves nobody waiting whose condition holds |
| WaitEngines.OneSignalOneThread | CLR/Core/CLR_RT_HeapBlock_WaitForObject.cpp:125-143 | one signal of a self-resetting object releases at most one thread, the first whose condition it completes; the others keep waiting in order |
| WaitEngines.ReleaseUsesObject | CLR/Core/CLR_RT_HeapBlock_WaitForObject.cpp:134-140 | a thread that needed the object consumes its signal |
| WaitEngines.SatisfiedMonotone | CLR/Core/CLR_RT_HeapBlock_WaitForObject.cpp:59-123 | fewer signals satisfy fewer waits |
| WaitEngines.WaitEngine.TryWaitAll | CLR/Core/CLR_RT_HeapBlock_WaitForObject.cpp:65-98 | all signals are taken together or none is: afterwards exactly those listed objects that reset themselves are not signaled any more |
| WaitEngines.WaitEngine.TryWaitAny | CLR/Core/CLR_RT_HeapBlock_WaitForObject.cpp:99-122 | the result is the index of the first signaled object of the list; afterwards another object is still signaled if it was, and this one if it does not reset itself |
| WaitEngines.WaitEngine.TryWait | CLR/Core/CLR_RT_HeapBlock_WaitForObject.cpp:59-123 | succeeds exactly if the condition holds, and takes exactly the signals of that condition |
| WaitEngines.WaitEngine.SignalObject | CLR/Core/CLR_RT_HeapBlock_WaitForObject.cpp:125-143 | no wake-up is lost in any reachable state: afterwards no waiting thread could run; the waiting threads have their turns in order, each goes on exactly if the object is still signaled and its condition holds; a released wait-any got the object at its first place in the list; exactly the signals that released threads took are gone |
| WaitEngines.DeliverInTurns | CLR/Core/CLR_RT_HeapBlock_WaitForObject.cpp:125-143 | the delivery is one turn of every waiting thread, and those that stay keep their order |
| WaitEngines.TurnsTake | CLR/Core/CLR_RT_HeapBlock_WaitForObject.cpp:125-143 | exactly the signals that a released thread took are gone, and every released thread had waited for the signaled object |
| WaitEngines.WaitEngine.WaitForSignal | CLR/Core/CLR_RT_HeapBlock_WaitForObject.cpp:145-174 | a satisfied wait takes its signals, and no others, and goes on at once; any other one joins the waiting threads; too many objects and null objects are refused |
| WaitEngines.WaitEngine.ResetObject | CLR/Libraries/CorLib/corlib_native_System_Threading_WaitHandle.cpp:46-54 | resetting an object satisfies nobody |
| WaitEngines.WaitEngine.CheckTimeouts | CLR/Core/Execution.cpp:2580-2596 | the expired waits leave the list with the timeout result |
| WaitEngines.TimeoutsAreExact | CLR/Core/Execution.cpp:2580-2596 | exactly the expired threads leave and exactly they get the timeout result |
| InlineCalls.Frame.constructor | CLR/Core/CLR_RT_StackFrame.cpp:23-85 | the frame has room for the operands of the method and finds its arguments on the stack of the caller |
| InlineCalls.InlineLayout | CLR/Core/CLR_RT_StackFrame.cpp:300-366 | the inlined method's operands lie above those of the caller, its locals at the end, with room for its operands and a new object between them |
| InlineCalls.Interpreter.PushInline | CLR/Core/CLR_RT_StackFrame.cpp:300-380 | takes the call exactly under the listed conditions; the inlined method starts at its own code and sees its arguments, its initial locals and no operands; a refusal changes nothing |
| InlineCalls.Interpreter.PopInline | CLR/Core/CLR_RT_StackFrame.cpp:384-411 | the saved fields are back and the promoted result, if there is one, replaces the arguments |
| InlineCalls.Interpreter.RestoreFromInlineStack | CLR/Core/CLR_RT_StackFrame.cpp:413-423 | every field of the caller is restored |
| InlineCalls.Interpreter.Step | CLR/Core/Interpreter.cpp:975-1192 | an instruction changes only slots of the running method, and changes what that method sees as specified, in a frame of its own and inlined alike |
| InlineCalls.Interpreter.RunBody | CLR/Core/Interpreter.cpp:975-1192 | the same for a whole body, which starts at the first instruction of its method |
| InlineCalls.Interpreter.PushFrame | CLR/Core/CLR_RT_StackFrame.cpp:262-291 | the arguments leave the stack of the caller, the new frame sees them, and the interpreter goes on at the first instruction of the method |
| InlineCalls.Interpreter.PopFrame | CLR/Core/CLR_RT_StackFrame.cpp:923-938 | the promoted result goes to the stack of the caller |
| InlineCalls.Interpreter.CallInlined | CLR/Core/Interpreter.cpp:1946-1980 | an inlined call leaves the state that the specification of a call gives |
| InlineCalls.Interpreter.CallFramed | CLR/Core/Interpreter.cpp:1953-1998 | a framed call leaves the same state |
| InlineCalls.Interpreter.Call | CLR/Core/Interpreter.cpp:1946-1998 | whichever way is chosen, the caller finds its instruction pointer, arguments, locals, stack bounds and operands the same, the arguments replaced by the promoted result; buffers are given back |
| Unicode.UnitComesBack | CLR/Core/CLR_RT_UnicodeHelper.cpp:140-249 | decoding gives an encoded unit back and reads exactly its bytes |
| Unicode.PairMoves | CLR/Core/CLR_RT_UnicodeHelper.cpp:362-378 | a surrogate pair comes back with its high surrogate 0x40 higher, because the encoder adds a base that the decoder never subtracts |
| Unicode.MovedIsSame | CLR/Core/CLR_RT_UnicodeHelper.cpp:123-416 | text is its own image under encoding and decoding exactly if it holds no high surrogate |
| Unicode.RoundTrip | CLR/Core/CLR_RT_UnicodeHelper.cpp:123-416 | for every text, decoding what was encoded reads exactly those bytes, produces as many units, and gives the text back if and only if it holds no high surrogate |
| Unicode.EncodesAll | CLR/Core/CLR_RT_UnicodeHelper.cpp:315-416 | with room and a high enough limit the whole text is encoded |
| Unicode.EncodingFits | CLR/Core/CLR_RT_UnicodeHelper.cpp:335-392 | no more bytes are produced than fit |
| Unicode.DecodingFits | CLR/Core/CLR_RT_UnicodeHelper.cpp:152-283 | no more units are produced than fit |
| Unicode.CountIsLength | CLR/Core/CLR_RT_UnicodeHelper.cpp:75-119 | the byte count is the length of the encoded text, or -1 exactly if a surrogate lacks its partner |
| Unicode.LimitedCount | CLR/Core/CLR_RT_UnicodeHelper.cpp:75-119 | with a limit, too, the count is what the converter produces, as long as there are no surrogates |
| Unicode.CountIsConverted | CLR/Core/CLR_RT_UnicodeHelper.cpp:17-73 | text that counts is converted in full exactly if it has none of the lead bytes the converter refuses, and then to as many units as counted |
| Unicode.EncodedCounts | CLR/Core/CLR_RT_UnicodeHelper.cpp:17-73 | counting the characters of encoded text gives the length of the text, pairs included |
| Unicode.ThereAndBack | CLR/Core/CLR_RT_UnicodeHelper.cpp:17-416 | encoding into enough room, counting, and decoding under that count gives the text back if and only if it holds no high surrogate |
| UnicodeHelpers.UnicodeHelper.ConvertToUTF8 | CLR/Core/CLR_RT_UnicodeHelper.cpp:315-416 | writes exactly the specified bytes and a terminator within the stated size, and nothing beyond |
| UnicodeHelpers.UnicodeHelper.ConvertFromUTF8 | CLR/Core/CLR_RT_UnicodeHelper.cpp:123-313 | writes exactly the specified units and a terminator within the stated size, and nothing beyond |
| UnicodeHelpers.UnicodeHelper.EncodeNext | CLR/Core/CLR_RT_UnicodeHelper.cpp:324-395 | one character of the encoder, with the place where it gives up |
| UnicodeHelpers.UnicodeHelper.DecodeNext | CLR/Core/CLR_RT_UnicodeHelper.cpp:138-291 | one character of the decoder, with the bytes it hands back when it gives up |
| UnicodeHelpers.UnicodeHelper.CountNumberOfBytes | CLR/Core/CLR_RT_UnicodeHelper.cpp:75-119 | the loop computes the specified count |
| UnicodeHelpers.UnicodeHelper.CountNumberOfCharacters | CLR/Core/CLR_RT_UnicodeHelper.cpp:17-73 | the loop computes the specified count |
| Arm.CompareDecides | CLR/Core/Jitter_ARM.cpp:82-104 | after comparing any two words, under any flags, every condition code is the comparison it is named after (section A3.2 of the ARM Architecture Reference Manual, DDI 0100) |
| Arm.CompareNegatedDecides | CLR/Core/Jitter_ARM.cpp:803-813 | CMN compares with the negated word |
| Arm.WideAddition | CLR/Core/Jitter_ARM.cpp:803-813 | ADD and ADC add 64-bit numbers, with the carry out of them |
| Arm.WideSubtraction | CLR/Core/Jitter_ARM.cpp:778-789 | SUB and SBC subtract 64-bit numbers and leave the flags of their signed and unsigned comparison |
| Arm.ReverseSubtracts | CLR/Core/Jitter_ARM.cpp:791-800 | RSB and RSC are SUB and SBC with the operands exchanged, flags included |
| Arm.StoredAt | CLR/Core/Jitter_ARM.cpp:1069-1099 | a store-multiple writes the listed registers upwards in ascending order, also across the end of the address space |
| Arm.LoadedFrom | CLR/Core/Jitter_ARM.cpp:1069-1099 | a load-multiple reads them back in the same order and leaves the other registers alone; the program counter follows its register |
| Arm.NearestWord | CLR/Core/Jitter_ARM.cpp:1058-1069 | the word next to the base is at the base with post-indexing and one step away from it, in the direction of the transfer, with pre-indexing |
| Arm.DualAddresses | CLR/Core/Jitter_ARM.cpp:1058-1069 | the dual mode starts at the same address and undoes the write-back |
| Arm.StoreLoadRestores | CLR/Core/Jitter_ARM.cpp:1037-1122 | a store-multiple with write-back is undone by the load-multiple of its dual mode from any state of the registers (section A5.4 of the ARM Architecture Reference Manual, DDI 0100) |
| ArmEngines.ArmState.constructor | CLR/Core/Jitter_ARM.cpp:68-107 | the table built at start holds, for every value of the flags, exactly the conditions that hold |
| ArmEngines.ArmState.CheckConditions | CLR/Include/TinyCLR_Jitter_ARM.h:266-269 | the table answers for the current flags |
| ArmEngines.ArmState.DataProcessing | CLR/Core/Jitter_ARM.cpp:762-847 | result, destination and flags of the arithmetic operations; comparisons write no register |
| ArmEngines.ArmState.Arithmetic | CLR/Core/Jitter_ARM.cpp:778-813 | the carry and overflow rules on 64-bit words and sign bits are the mathematical ones |
| ArmEngines.FlagsAgree | CLR/Core/Jitter_ARM.cpp:786-811 | the sign-bit rule for overflow says exactly that the signed result does not fit |
| ArmEngines.ArmState.ExecuteBlockTransfer | CLR/Core/Jitter_ARM.cpp:1037-1122 | registers, memory and program counter as specified, also when an address cannot be used |

## Left out

- Boot loaders, drivers, debugger, profiler, AppDomains, interop marshalling, hardware events.
- Persistence of extended weak references: `PrepareForRecovery` answers false, `InvalidateEntry` is not modelled; that only extended references have a serialized copy is a precondition, as CLR/Core/HeapPersistence/Heap_Persistence.cpp:1308-1317 sets it up.
- MarkStacks.MarkStack.Grow: whether the allocator grants a segment is arbitrary; the physical allocation is not modelled.
- Marking of interior BYREF pointers; the compactor's treatment of them is covered by `Compaction.InteriorPointer`.
- Clusters.HeapCluster.ExtractBlocks: a length of zero is excluded, because the callers in CLR/Core/Execution.cpp never ask for it.
- Allocation.Allocator.ExtractHeapBlocks: what a new block holds before its creator fills it in is arbitrary, so the result is a valid heap but not yet a valid object graph; allocation during a collection is not modelled.
- Relocation.RelocationTable.AddBlock: the flush of a table that has become full is the caller's part, `Compactor.Flush`.
- How much contiguous space a compaction gains in a cluster with pinned or event blocks.
- Bits of block headers other than kind, size, mark, event and pinned flags.
- AvlTrees.AvlTree.Insert: the callbacks for allocation, release and reassignment of entries are the built-in ones; an allocation may fail at any time.
- The tree variant of the virtual-method table (CLR/Core/Cache.cpp:23-176).
- LockEngines.LockEngine.LockObject: creating a lock and entering it is one step and does not fail for lack of memory, so the fForce flag plays no role.
- LockEngines.LockEngine.CheckThreads: its tests of event timeouts, object waits and execution constraints are not modelled; suspended threads, which it skips, are not either.
- LockEngines.LockEngine.DestroySubThreads: which objects the frames had synchronized on is a parameter; a thread that terminates has left both lists before its sub-threads are destroyed, which is not modelled.
- ReadyPasses.CalmPassVisitsAll: only one direction, because whether a moved thread is met again depends on the credits of threads that the pass wakes up.
- How execution counters change while threads run.
- WaitEngines.WaitEngine.SignalObject: suspended threads, which stay among the waiting ones when they are restarted, are not modelled; a restarted thread drops its wait as CLR/Core/Execution.cpp:1445-1450 does.
- InlineCalls.Interpreter.Call: callees are methods in IL; native, delegate and constructor calls, stack unwinding by exceptions, synchronized methods and breakpoints are not modelled, and an exception on its way is a parameter of the return.
- InlineCalls.Interpreter.Step: the operations of the interpreter are abstract, only where they read and write is modelled; addresses of arguments and locals taken by `ldarga` and `ldloca` are not.
- UnicodeHelpers.UnicodeHelper.ConvertToUTF8: text whose last unit before the terminator is an unpaired high surrogate is excluded, because there the encoder reads on behind the terminator.
- UnicodeHelpers.UnicodeHelper.ConvertFromUTF8: it may read behind the terminator of malformed text; the model lets it read any memory.
- ArmEngines.ArmState.DataProcessing: the logical operations, the shifter and immediate decoding are not modelled; overflow and carry are taken from sign bits and 64-bit sums.
- Arm.StoreLoadRestores: lists with the base register or the program counter are excluded.
- ARM mode switches, multiplication, single transfers, branches, clock counting and text dumping.
- Queue, ArrayList and Stack containers, floating point, type casting and reflection, the rest of the instruction switch.
