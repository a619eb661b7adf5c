/** A full collection: cleanup of the event cache, marking, weak references, sweep and recovery. */
module Collection {
  import opened HeapModel
  import opened Clusters
  import opened Heap
  import opened EventCaches
  import opened Marking
  import opened MarkerLoop
  import opened MarkPhases
  import opened WeakPhases

  class Collector {
    const mem: Memory
    const clusters: seq<HeapCluster>
    ghost const ext: seq<Extent>
    const cache: EventCache
    const weak: WeakPhase
    var finalizersAlive: seq<Addr>
    var finalizersPending: seq<Addr>
    var freeBlocks: int                // m_freeBytes, in heap blocks

    constructor (mem: Memory, clusters: seq<HeapCluster>, ghost ext: seq<Extent>, cache: EventCache, weak: WeakPhase)
      ensures this.mem == mem && this.clusters == clusters && this.ext == ext && this.cache == cache && this.weak == weak
      ensures finalizersAlive == [] && finalizersPending == []
    {
      this.mem := mem;
      this.clusters := clusters;
      this.ext := ext;
      this.cache := cache;
      this.weak := weak;
      finalizersAlive, finalizersPending, freeBlocks := [], [], 0;
    }

    /** What holds between collections. */
    ghost predicate Valid()
      reads this, mem, cache, weak
    {
      && cache.mem == mem && weak.mem == mem && cache.ext == ext && Wired(mem, clusters, ext) && cache.Valid()
      && HoleFree(mem.blocks) && HeapGraph(mem.blocks) && CopiesExtended(mem.blocks) && CleanMarks(mem.blocks)
      && WeakReferencesListed(mem.blocks, weak.weakReferences)
      && ObjectsOK(mem.blocks, finalizersAlive) && ObjectsOK(mem.blocks, finalizersPending)
    }

    /** The second half of Sweep: every cluster rebuilds its free list. */
    method RecoverClusters()
      requires Wired(mem, clusters, ext) && HeapOK(mem.blocks, mem.next, mem.prev, ext)
      modifies mem
      ensures HeapOK(mem.blocks, mem.next, mem.prev, ext) && Recovered(old(mem.blocks), mem.blocks) && HoleFree(mem.blocks)
    {
      hide HeapOK, RecoveredUpTo;
      ghost var b3 := mem.blocks;
      RecoverBegins(b3, mem.next, mem.prev, ext);
      var i := 0;
      while i < |clusters|
        invariant 0 <= i <= |clusters| && HeapOK(mem.blocks, mem.next, mem.prev, ext)
        invariant RecoveredUpTo(b3, mem.blocks, ext, i)
      {
        ghost var b, n, p := mem.blocks, mem.next, mem.prev;
        BeforeRecover(b, n, p, ext, i);
        clusters[i].RecoverFromGC();
        RecoverStep(b3, b, n, p, mem.blocks, mem.next, mem.prev, ext, i);
        i := i + 1;
      }
      RecoverEnds(b3, mem.blocks, mem.next, mem.prev, ext);
    }

    /** Heap_ComputeAliveVsDeadRatio: the size of everything that is not in use. */
    method CountFree()
      requires Wired(mem, clusters, ext) && HeapOK(mem.blocks, mem.next, mem.prev, ext) && HoleFree(mem.blocks)
      modifies this`freeBlocks
      ensures freeBlocks == UnusedIn(mem.blocks, ext, |ext|)
    {
      hide HeapOK;
      freeBlocks := 0;
      var i := 0;
      while i < |clusters|
        invariant 0 <= i <= |clusters| && freeBlocks == UnusedIn(mem.blocks, ext, i)
      {
        AllTiled(mem.blocks, mem.next, mem.prev, ext, i);
        var free := clusters[i].FreeTotal();
        freeBlocks := freeBlocks + free;
        i := i + 1;
      }
    }

    /** ExecuteGarbageCollection up to the sweep of the heap itself. */
    method MarkEverything(before: seq<Root>, after: seq<Root>)
      returns (ghost roots: set<int>, ghost moved: seq<Addr>, ghost h: History, ghost overflows: nat)
      requires Valid() && RootsProper(mem.blocks, before) && RootsProper(mem.blocks, after)
      modifies this, mem`blocks, cache`lists, weak`weakReferences
      ensures HeapOK(mem.blocks, mem.next, mem.prev, ext) && mem.blocks == h.swept
      ensures CacheOK(Discarded(old(mem.blocks)), cache.lists, {}) && EmptyLists(cache.lists)
      ensures h.start == Discarded(old(mem.blocks)) && Happened(h, roots + Members(moved), weak.weakReferences)
      ensures HeapGraph(h.swept) && AllSettled(h.swept) && CopiesExtended(h.swept)
      ensures ReferencesKept(h, old(weak.weakReferences), weak.weakReferences)
      ensures roots == RootSets(h.start, before + Singles(old(finalizersPending)) + after)
      ensures forall m :: m in moved ==> !Reachable(h.start, roots, m)
      ensures finalizersPending == old(finalizersPending) + moved
      ensures FrontToBack(h.start, roots, old(finalizersAlive), moved, finalizersAlive, overflows == 0)
      ensures multiset(finalizersAlive) + multiset(moved) == multiset(old(finalizersAlive))
      ensures forall a :: a in finalizersAlive ==> a in h.marked && h.marked[a].alive
    {
      hide HeapOK, HeapGraph, CopiesExtended, WeakReferencesListed, ObjectsOK, Weakened, Remarked, Reachable, ExactMarks,
        RootsProper, CleanMarks, Graph, HoleFree, CacheOK, Discarded, WeakEffects, DelegateEffects, Happened, StrongClosed,
        WeakLists, FinalizersOK, RootsOK, WeakListed, Closed, AllSettled, ReferencesKept,
        FrontToBack;
      ghost var b0, list := mem.blocks, weak.weakReferences;
      var total := cache.Cleanup();
      ghost var b := mem.blocks;
      AfterCleanup(b0, list, finalizersAlive, finalizersPending, before, after, mem.next, mem.prev, ext);
      var phase := new MarkPhase(mem, clusters, ext, finalizersAlive, finalizersPending);
      roots, moved, overflows := phase.Mark(before, after);
      finalizersAlive, finalizersPending := phase.finalizersAlive, phase.finalizersPending;
      ghost var b1, lists := mem.blocks, phase.marker.weakDelegates;
      AfterMark(b0, b, b1, list, lists);
      weak.MarkWeak();
      ghost var b2 := mem.blocks;
      ListsStay(b1, b2, lists);
      weak.SweepDelegates(phase.marker.weakDelegates);
      h := History(b, b1, b2, mem.blocks);
      WeakenedHeap(b1, b2, mem.blocks, mem.next, mem.prev, ext);
      Settled(b1, b2, mem.blocks, list, weak.weakReferences, lists, b);
      ItHappened(b0, h, roots + Members(moved), list, weak.weakReferences, mem.next, mem.prev, ext);
    }

    /** ExecuteGarbageCollection.  The collection is safe: no pointer of a surviving object dangles.
      * It keeps everything the roots and the resurrected objects reach, with the same contents up
      * to cleared weak slots, and turns everything else into free space. */
    method ExecuteGarbageCollection(before: seq<Root>, after: seq<Root>)
      returns (ghost roots: set<int>, ghost moved: seq<Addr>, ghost overflows: nat)
      requires Valid() && RootsProper(mem.blocks, before) && RootsProper(mem.blocks, after)
      modifies this, mem, cache`lists, weak`weakReferences
      ensures Valid()
      ensures roots == RootSets(old(mem.blocks), before + Singles(old(finalizersPending)) + after)
      ensures Collected(old(mem.blocks), mem.blocks, roots + Members(moved))
      ensures forall m :: m in moved ==> !Reachable(old(mem.blocks), roots, m)
      ensures finalizersPending == old(finalizersPending) + moved
      ensures FrontToBack(old(mem.blocks), roots, old(finalizersAlive), moved, finalizersAlive, overflows == 0)
      ensures multiset(finalizersAlive) + multiset(moved) == multiset(old(finalizersAlive))
      ensures freeBlocks == UnusedIn(mem.blocks, ext, |ext|)
    {
      hide HeapOK, HeapGraph, CopiesExtended, WeakReferencesListed, ObjectsOK, Reachable, RootsProper, CleanMarks, HoleFree,
        CacheOK, Discarded, Happened, AllSettled, ReferencesKept, Recovered, EmptyLists, RootSets,
        Preserved, Keeps, KeepsOnly, FreesTheRest, FrontToBack;
      ghost var b0, n0, p0, alive, pending := mem.blocks, mem.next, mem.prev, finalizersAlive, finalizersPending;
      ghost var list := weak.weakReferences;
      ghost var h;
      roots, moved, h, overflows := MarkEverything(before, after);
      RecoverClusters();
      CountFree();
      ghost var all := roots + Members(moved);
      Outcome(b0, n0, p0, h, mem.blocks, mem.next, mem.prev, ext, all, list, weak.weakReferences);
      EmptyCache(h, all, weak.weakReferences, mem.blocks, cache.lists);
      SameStart(b0, h.start, roots, before + Singles(pending) + after);
      SameSplit(b0, h.start, roots, alive, moved, finalizersAlive, overflows == 0);
      MarkedSurvive(h, all, weak.weakReferences, mem.blocks);
      PendingAreRoots(b0, before, pending, after);
      FinalFinalizers(b0, mem.blocks, roots, moved, alive, pending, finalizersAlive);
    }
  }

  /** The roots denote objects, not cached blocks. */
  ghost predicate RootsProper(b: Blocks, list: seq<Root>) {
    forall i :: 0 <= i < |list| ==>
      && (forall t: Addr :: list[i].Targets(t) ==> Proper(b, t))
      && (list[i].Forced? && list[i].addr != NULL ==> list[i].addr in b && !b[list[i].addr].event)
  }

  ghost function UnusedIn(b: Blocks, ext: seq<Extent>, i: nat): int
    requires i <= |ext|
  {
    if i == 0 then 0
    else
      var s, e := ext[i - 1].start, ext[i - 1].end;
      UnusedIn(b, ext, i - 1) + (if Tiled(b, s, e) then SizeFrom(b, s, e, false) else 0)
  }

  lemma AllTiled(b: Blocks, n: Links, p: Links, ext: seq<Extent>, i: nat)
    requires HeapOK(b, n, p, ext) && HoleFree(b) && i < |ext|
    ensures ClusterOK(b, n, p, ext[i].start, ext[i].end) && NoHoles(b, ext[i].start, ext[i].end)
    ensures Tiled(b, ext[i].start, ext[i].end)
  {
  }

  // ----- What a collection achieves

  /** A weak slot may be cleared if what it weakly points at is not strongly reachable. */
  ghost predicate MayClear(b: Blocks, roots: set<int>, h: Block, i: nat)
    requires i < |h.cells|
  {
    var cell := h.cells[i];
    if h.kind.WeakReference? then i == 0 && cell.Ref? && !Reachable(b, roots, cell.addr)
    else
      && IsWeakList(h) && cell.Ref? && cell.addr in b && b[cell.addr].cells != []
      && b[cell.addr].cells[0].Ref? && !Reachable(b, roots, b[cell.addr].cells[0].addr)
  }

  /** Survivors are old blocks with the same header and the same slots, up to cleared weak ones. */
  ghost predicate Preserved(b0: Blocks, b: Blocks, roots: set<int>) {
    forall a :: InUse(b, a) ==>
      && Proper(b0, a) && b[a] == b0[a].(cells := b[a].cells) && |b[a].cells| == |b0[a].cells|
      && forall i :: 0 <= i < |b[a].cells| && b[a].cells[i] != b0[a].cells[i] ==>
           b[a].cells[i] == Ref(NULL) && MayClear(b0, roots, b0[a], i)
  }

  /** Everything that must survive does. */
  ghost predicate Keeps(b0: Blocks, b: Blocks, roots: set<int>) {
    forall a :: Proper(b0, a) && (b0[a].event || Reachable(b0, roots, a) || Restored(b0[a])) ==> InUse(b, a)
  }

  /** Nothing survives without a reason. */
  ghost predicate KeepsOnly(b0: Blocks, b: Blocks, roots: set<int>) {
    forall a :: IsObject(b, a) ==>
      && a in b0
      && (Reachable(b0, roots, a) || Restored(b0[a]) || CopySurvives(b, a) || ListSurvives(b, a))
  }

  /** A surviving weak reference has `a` as its serialized copy. */
  ghost predicate CopySurvives(b: Blocks, a: int) {
    && 0 < a < ADDRESS_SPACE
    && exists w :: InUse(b, w) && b[w].kind.WeakReference? && |b[w].cells| == 2 && b[w].cells[1] == Ref(a)
  }

  /** A surviving weak delegate list holds the delegate `a`. */
  ghost predicate ListSurvives(b: Blocks, a: int) {
    && 0 < a < ADDRESS_SPACE && a in b && b[a].kind.Delegate?
    && exists w :: InUse(b, w) && IsWeakList(b[w]) && PointsAt(b[w].cells, a)
  }

  /** Whatever does not survive lies inside one free block. */
  ghost predicate FreesTheRest(b0: Blocks, b: Blocks) {
    forall a :: a in b0 && !InUse(b, a) ==> InFreeBlock(b, a, b0[a].size)
  }

  ghost predicate InFreeBlock(b: Blocks, a: int, size: int) {
    exists f :: IsFree(b, f) && f <= a && a + size <= f + b[f].size
  }

  ghost predicate Collected(b0: Blocks, b: Blocks, roots: set<int>) {
    && HeapGraph(b) && Preserved(b0, b, roots) && Keeps(b0, b, roots) && KeepsOnly(b0, b, roots) && FreesTheRest(b0, b)
  }

  /** Pointers held by the runtime itself. */
  ghost predicate ObjectsOK(b: Blocks, objects: seq<Addr>) {
    forall i :: 0 <= i < |objects| ==> objects[i] != NULL && IsObject(b, objects[i])
  }

  // ----- Recovery of all clusters

  /** The marked blocks survive, unmarked unless they are event blocks; nothing else does. */
  ghost predicate Recovered(b3: Blocks, b: Blocks) {
    && (forall a :: InUse(b, a) <==> a in b3 && b3[a].alive)
    && (forall a :: InUse(b, a) && a in b3 ==> b[a] == b3[a].(alive := b3[a].event))
  }

  ghost predicate RecoveredUpTo(b3: Blocks, b: Blocks, ext: seq<Extent>, i: nat) {
    && (forall j :: 0 <= j < i && j < |ext| ==>
          NoHoles(b, ext[j].start, ext[j].end)
          && Contents(b, ext[j].start, ext[j].end) == Survivors(b3, ext[j].start, ext[j].end))
    && (forall j :: i <= j < |ext| ==> SameWithin(b3, b, ext[j].start, ext[j].end))
    && AllInside(b3, ext)
  }

  lemma RecoverBegins(b3: Blocks, n: Links, p: Links, ext: seq<Extent>)
    requires HeapOK(b3, n, p, ext)
    ensures RecoveredUpTo(b3, b3, ext, 0)
  {
  }

  lemma BeforeRecover(b: Blocks, n: Links, p: Links, ext: seq<Extent>, i: nat)
    requires HeapOK(b, n, p, ext) && i < |ext|
    ensures var s, e := ext[i].start, ext[i].end;
      0 < s <= e < ADDRESS_SPACE && e - s <= 0xFFFF && Tiled(b, s, e) && MarkedAreOccupied(b, s, e)
  {
  }

  lemma RecoverStep(b3: Blocks, b: Blocks, n: Links, p: Links, b': Blocks, n': Links, p': Links, ext: seq<Extent>, i: nat)
    requires HeapOK(b, n, p, ext) && i < |ext| && RecoveredUpTo(b3, b, ext, i)
    requires ClusterOK(b', n', p', ext[i].start, ext[i].end) && NoHoles(b', ext[i].start, ext[i].end)
    requires SameOutside(b, n, p, b', n', p', ext[i].start, ext[i].end)
    requires Contents(b', ext[i].start, ext[i].end) == Survivors(b, ext[i].start, ext[i].end)
    ensures HeapOK(b', n', p', ext) && RecoveredUpTo(b3, b', ext, i + 1)
  {
    hide ClusterOK, NoHoles, Contents, Survivors;
    HeapStep(b, n, p, b', n', p', ext, i);
    SurvivorsWithin(b3, b, ext[i].start, ext[i].end);
    forall j | 0 <= j < |ext| && j != i ensures SameWithin(b, b', ext[j].start, ext[j].end) {
      assert if j < i then ext[j].end + 1 < ext[i].start else ext[i].end + 1 < ext[j].start;
    }
    forall j | 0 <= j < i
      ensures NoHoles(b', ext[j].start, ext[j].end)
      ensures Contents(b', ext[j].start, ext[j].end) == Survivors(b3, ext[j].start, ext[j].end)
    {
      ContentsWithin(b, b', ext[j].start, ext[j].end);
    }
    forall j | i < j < |ext| ensures SameWithin(b3, b', ext[j].start, ext[j].end) {
      assert SameWithin(b, b', ext[j].start, ext[j].end) && SameWithin(b3, b, ext[j].start, ext[j].end);
    }
  }

  lemma SurvivorsWithin(b: Blocks, b': Blocks, s: int, e: int)
    requires SameWithin(b, b', s, e)
    ensures Survivors(b', s, e) == Survivors(b, s, e)
  {
  }

  lemma ContentsWithin(b: Blocks, b': Blocks, s: int, e: int)
    requires SameWithin(b, b', s, e) && NoHoles(b, s, e)
    ensures Contents(b', s, e) == Contents(b, s, e) && NoHoles(b', s, e)
  {
  }

  lemma RecoverEnds(b3: Blocks, b: Blocks, n: Links, p: Links, ext: seq<Extent>)
    requires HeapOK(b, n, p, ext) && RecoveredUpTo(b3, b, ext, |ext|)
    ensures Recovered(b3, b) && HoleFree(b)
  {
    hide ClusterOK;
    forall a ensures InUse(b, a) <==> a in b3 && b3[a].alive
             ensures InUse(b, a) && a in b3 ==> b[a] == b3[a].(alive := b3[a].event)
             ensures a in b ==> !b[a].kind.Hole?
    {
      if a in b || a in b3 {
        assert Inside(ext, a);
        var j :| 0 <= j < |ext| && ext[j].start <= a < ext[j].end;
        SurvivorAt(b3, b, ext[j].start, ext[j].end, a);
      }
    }
  }

  lemma SurvivorAt(b3: Blocks, b: Blocks, s: int, e: int, a: int)
    requires Contents(b, s, e) == Survivors(b3, s, e) && NoHoles(b, s, e) && s <= a < e
    ensures InUse(b, a) <==> a in b3 && b3[a].alive
    ensures InUse(b, a) && a in b3 ==> b[a] == b3[a].(alive := b3[a].event)
    ensures a in b ==> !b[a].kind.Hole?
  {
    assert a in Contents(b, s, e) <==> InUse(b, a);
    assert a in Survivors(b3, s, e) <==> a in b3 && b3[a].alive;
    if InUse(b, a) {
      assert b[a] == Contents(b, s, e)[a] == Survivors(b3, s, e)[a];
    }
  }

  // ----- From one phase to the next

  /** Two heaps with the same objects, event blocks included. */
  ghost predicate SameObjects(b0: Blocks, b: Blocks) {
    && (forall a :: Proper(b0, a) <==> Proper(b, a))
    && (forall a :: Proper(b0, a) ==> a in b0 && a in b && b[a] == b0[a])
    && (forall a :: InUse(b, a) ==> Proper(b, a))
  }

  /** Cached blocks keep nothing alive, so discarding them changes no object. */
  lemma AfterCleanup(b0: Blocks, list: seq<int>, alive: seq<Addr>, pending: seq<Addr>, before: seq<Root>, after: seq<Root>,
                     n: Links, p: Links, ext: seq<Extent>)
    requires HeapGraph(b0) && CopiesExtended(b0) && CleanMarks(b0) && WeakReferencesListed(b0, list)
    requires ObjectsOK(b0, alive) && ObjectsOK(b0, pending) && RootsProper(b0, before) && RootsProper(b0, after)
    requires HeapOK(Discarded(b0), n, p, ext)
    ensures var b := Discarded(b0);
      && SameObjects(b0, b) && Graph(b) && CleanMarks(b) && HeapGraph(b) && CopiesExtended(b)
      && WeakReferencesListed(b, list) && FinalizersOK(b, alive) && FinalizersOK(b, pending)
      && RootsOK(b, before) && RootsOK(b, after)
  {
    var b := Discarded(b0);
    DiscardedObjects(b0);
    DiscardedMarks(b0);
    HeapApart(b, n, p, ext);
    assert -1 !in b;
    hide HeapOK, Discarded, Apart, HeapGraph, CopiesExtended, WeakReferencesListed, ObjectsOK, RootsProper, SameObjects;
    SameGraph(b0, b);
    SameReferences(b0, b, list);
    TracedPointers(b0, b);
    SameFinalizers(b0, b, alive);
    SameFinalizers(b0, b, pending);
    SameRoots(b0, b, before);
    SameRoots(b0, b, after);
  }

  lemma DiscardedObjects(b0: Blocks)
    ensures SameObjects(b0, Discarded(b0))
  {
  }

  lemma DiscardedMarks(b0: Blocks)
    requires CleanMarks(b0)
    ensures CleanMarks(Discarded(b0)) && EventsMarked(Discarded(b0))
  {
  }

  lemma SameGraph(b0: Blocks, b: Blocks)
    requires SameObjects(b0, b) && HeapGraph(b0) && CopiesExtended(b0)
    ensures HeapGraph(b) && CopiesExtended(b)
  {
    assert forall a :: IsObject(b0, a) <==> IsObject(b, a);
    forall a | IsObject(b, a)
      ensures WellShaped(b[a]) && (b[a].kind.WeakReference? ==> SerializedOK(b, b[a]))
    {
      assert IsObject(b0, a) && WellShaped(b0[a]);
      if b[a].kind.WeakReference? && b[a].cells[1].addr != NULL {
        assert PointsAt(b0[a].cells, b0[a].cells[1].addr);
      }
    }
    forall a, t: Addr | IsObject(b, a) && PointsAt(b[a].cells, t)
      ensures Proper(b, t) && (IsWeakList(b[a]) ==> IsDelegate(b, t))
    {
      assert IsObject(b0, a) && PointsAt(b0[a].cells, t) && Proper(b0, t);
      assert IsWeakList(b0[a]) ==> IsDelegate(b0, t);
    }
  }

  lemma SameReferences(b0: Blocks, b: Blocks, list: seq<int>)
    requires SameObjects(b0, b) && WeakReferencesListed(b0, list)
    ensures WeakReferencesListed(b, list)
  {
    assert forall a :: IsObject(b0, a) <==> IsObject(b, a);
  }

  lemma SameFinalizers(b0: Blocks, b: Blocks, objects: seq<Addr>)
    requires SameObjects(b0, b) && ObjectsOK(b0, objects)
    ensures FinalizersOK(b, objects)
  {
  }

  lemma SameRoots(b0: Blocks, b: Blocks, list: seq<Root>)
    requires RootsProper(b0, list) && SameObjects(b0, b)
    ensures RootsOK(b, list)
  {
    forall i | 0 <= i < |list| ensures RootOK(b, list[i]) {
      var root := list[i];
      forall t: Addr | root.Targets(t) ensures InUse(b, t) {
        assert list[i].Targets(t) && Proper(b0, t);
      }
      assert root.Forced? && root.addr != NULL ==> root.Targets(root.addr);
    }
  }

  /** A heap without cached blocks traces valid pointers only. */
  lemma TracedPointers(b0: Blocks, b: Blocks)
    requires HeapGraph(b) && SameObjects(b0, b)
    ensures PointersValid(b)
  {
    forall a, t: Addr | Edge(b, a, t) ensures InUse(b, t) {
      assert IsObject(b, a);
      StrongIsPointer(b[a], t);
    }
  }

  lemma StrongIsPointer(h: Block, t: Addr)
    requires PointsAt(StrongCells(h), t)
    ensures PointsAt(h.cells, t)
  {
  }

  lemma AfterMark(b0: Blocks, b: Blocks, b1: Blocks, list: seq<int>, weakDelegates: seq<int>)
    requires Remarked(b, b1) && HeapGraph(b) && Closed(b1, {}, []) && WeakReferencesListed(b, list)
    requires SameObjects(b0, b)
    requires WeakListed(b1, weakDelegates)
    ensures Weakened(b, b1) && HeapGraph(b1) && StrongClosed(b1) && WeakReferencesListed(b1, list)
    ensures WeakLists(b1, weakDelegates)
  {
    assert Weakened(b, b1);
    WeakenedGraph(b, b1);
    hide HeapGraph;
    assert forall a :: IsObject(b, a) <==> IsObject(b1, a);
    assert forall a :: a in weakDelegates ==> InUse(b, a);
  }

  lemma ListsStay(b1: Blocks, b2: Blocks, weakDelegates: seq<int>)
    requires Weakened(b1, b2) && WeakLists(b1, weakDelegates)
    ensures WeakLists(b2, weakDelegates)
  {
  }

  lemma WeakenedHeap(b1: Blocks, b2: Blocks, b3: Blocks, n: Links, p: Links, ext: seq<Extent>)
    requires HeapOK(b1, n, p, ext) && Weakened(b1, b2) && Weakened(b2, b3)
    ensures HeapOK(b3, n, p, ext)
  {
    hide HeapOK;
    WeakenedTransitive(b1, b2, b3);
    ShapeKeepsHeap(b1, n, p, b3, ext);
  }

  /** After all phases every slot of a marked object is null or leads to a marked block. */
  ghost predicate AllSettled(b: Blocks) {
    forall a :: IsObject(b, a) && b[a].alive ==> AllLive(b, b[a].cells)
  }

  lemma Settled(b1: Blocks, b2: Blocks, b3: Blocks, list: seq<int>, kept: seq<int>, weakDelegates: seq<int>, b: Blocks)
    requires Weakened(b, b1) && CopiesExtended(b)
    requires Weakened(b1, b2) && WeakEffects(b1, b2) && Weakened(b2, b3) && DelegateEffects(b2, b3)
    requires HeapGraph(b3) && StrongClosed(b3)
    requires WeakReferencesListed(b1, list) && WeakListed(b1, weakDelegates)
    requires forall a :: a in kept <==> a in list && a in b2 && b2[a].alive
    requires forall a :: a in kept ==> WeakSettled(b2, a)
    requires forall w :: w in weakDelegates ==> w in b3 && AllLive(b3, b3[w].cells)
    ensures AllSettled(b3) && CopiesExtended(b3)
  {
    hide HeapGraph, StrongClosed, CopiesExtended, WeakEffects, DelegateEffects, Weakened, WeakSettled, AllLive;
    WeakenedTransitive(b, b1, b2);
    WeakenedTransitive(b, b2, b3);
    WeakenedCopies(b, b3);
    forall a | IsObject(b3, a) && b3[a].alive ensures AllLive(b3, b3[a].cells) {
      SettledShape(b3, a);
      SameBlock(b1, b2, b3, a);
      if b3[a].kind.WeakReference? {
        SettledReference(b1, b2, b3, a);
        LiveStays(b2, b3, a);
      } else if IsWeakList(b3[a]) {
        ListWasMarked(b1, b2, b3, a);
      } else {
        SettledStrong(b3, a);
      }
    }
  }

  lemma SettledShape(b: Blocks, a: int)
    requires HeapGraph(b) && IsObject(b, a)
    ensures WellShaped(b[a])
  {
  }

  lemma SameBlock(b1: Blocks, b2: Blocks, b3: Blocks, a: int)
    requires Weakened(b1, b2) && Weakened(b2, b3) && IsObject(b3, a)
    ensures IsObject(b1, a) && IsObject(b2, a) && b1[a].kind == b2[a].kind == b3[a].kind
  {
  }

  lemma SettledStrong(b: Blocks, a: int)
    requires IsObject(b, a) && b[a].alive && StrongClosed(b) && WellShaped(b[a]) && !Weakly(b[a])
    ensures AllLive(b, b[a].cells)
  {
    assert Covered(b, StrongCells(b[a]), []);
    forall i | 0 <= i < |b[a].cells| && b[a].cells[i].Ref? && b[a].cells[i].addr != NULL ensures Live(b, b[a].cells[i]) {
      assert b[a].cells[i] in StrongCells(b[a]);
      assert PointsAt(StrongCells(b[a]), b[a].cells[i].addr);
    }
  }

  lemma SettledReference(b1: Blocks, b2: Blocks, b3: Blocks, a: int)
    requires Weakened(b2, b3) && DelegateEffects(b2, b3) && CopiesExtended(b3)
    requires IsObject(b3, a) && IsObject(b2, a) && b3[a].alive && b2[a].kind.WeakReference? && WellShaped(b3[a])
    requires b2[a].alive ==> WeakSettled(b2, a)
    ensures b2[a].alive && AllLive(b2, b2[a].cells)
  {
    assert b2[a].alive;
    assert !IsWeakList(b2[a]) && b2[a].cells == b3[a].cells;
    assert b3[a].kind == b2[a].kind;
  }

  lemma ListWasMarked(b1: Blocks, b2: Blocks, b3: Blocks, a: int)
    requires WeakEffects(b1, b2) && DelegateEffects(b2, b3)
    requires IsObject(b1, a) && IsObject(b2, a) && IsObject(b3, a) && b3[a].alive && IsWeakList(b2[a])
    requires b1[a].kind == b2[a].kind == b3[a].kind
    ensures b1[a].alive
  {
    assert b2[a].alive;
  }

  // ----- The outcome

  /** The heap at the start of a collection (after the cleanup), after marking, after the weak
    * references, and after the weak delegate lists. */
  datatype History = History(start: Blocks, marked: Blocks, weak: Blocks, swept: Blocks)

  ghost predicate Happened(h: History, roots: set<int>, kept: seq<int>) {
    && HeapGraph(h.start) && CleanMarks(h.start) && (forall a :: InUse(h.start, a) ==> Proper(h.start, a)) && NULL !in h.start
    && Remarked(h.start, h.marked) && ExactMarks(h.start, h.marked, roots)
    && Weakened(h.marked, h.weak) && WeakEffects(h.marked, h.weak)
    && Weakened(h.weak, h.swept) && DelegateEffects(h.weak, h.swept)
    && (forall a :: IsObject(h.marked, a) && Restored(h.marked[a]) ==> a in kept)
    && (forall a :: a in kept ==> a in h.weak && h.weak[a].alive)
  }

  /** Headers never change, and marks are never taken back. */
  lemma Headers(h: History)
    requires Remarked(h.start, h.marked) && Weakened(h.marked, h.weak) && Weakened(h.weak, h.swept)
    ensures Weakened(h.start, h.swept) && Weakened(h.start, h.weak)
  {
    assert Weakened(h.start, h.marked);
    WeakenedTransitive(h.start, h.marked, h.weak);
    WeakenedTransitive(h.start, h.weak, h.swept);
  }

  lemma FinalGraph(v: Blocks, f: Blocks)
    requires HeapGraph(v) && AllSettled(v) && Recovered(v, f)
    ensures HeapGraph(f)
  {
    forall a | IsObject(f, a)
      ensures IsObject(v, a) && v[a].alive && f[a].cells == v[a].cells && WellShaped(f[a])
    {
      assert WellShaped(v[a]);
    }
    forall a, t: Addr | IsObject(f, a) && PointsAt(f[a].cells, t)
      ensures Proper(f, t) && f[t].kind == v[t].kind && f[t].event == v[t].event
    {
      SettledPointer(v, a, t);
      assert InUse(f, t);
    }
    FinalCopies(v, f);
    forall a, t: Addr | IsObject(f, a) && IsWeakList(f[a]) && PointsAt(f[a].cells, t) ensures IsDelegate(f, t) {
      assert IsObject(v, a) && IsWeakList(v[a]) && PointsAt(v[a].cells, t);
      assert IsDelegate(v, t) && Proper(f, t);
    }
  }

  lemma FinalCopies(v: Blocks, f: Blocks)
    requires HeapGraph(v) && Recovered(v, f)
    requires forall a :: IsObject(f, a) ==> IsObject(v, a) && f[a].cells == v[a].cells && WellShaped(f[a])
    requires forall a, t: Addr :: IsObject(f, a) && PointsAt(f[a].cells, t) ==> Proper(f, t)
    ensures forall a :: IsObject(f, a) && f[a].kind.WeakReference? ==> SerializedOK(f, f[a])
  {
    forall a | IsObject(f, a) && f[a].kind.WeakReference? ensures SerializedOK(f, f[a]) {
      assert WellShaped(f[a]) && SerializedOK(v, v[a]);
      var s := f[a].cells[1].addr;
      if s != NULL {
        assert f[a].cells[1] == Ref(s) && PointsAt(f[a].cells, s);
        assert Proper(f, s);
      }
    }
  }

  lemma SettledPointer(v: Blocks, a: int, t: Addr)
    requires HeapGraph(v) && AllSettled(v) && IsObject(v, a) && v[a].alive && PointsAt(v[a].cells, t)
    ensures Proper(v, t) && v[t].alive
  {
    var i :| 0 <= i < |v[a].cells| && v[a].cells[i] == Ref(t);
    assert Live(v, v[a].cells[i]);
  }

  /** An unmarked target was not reachable. */
  lemma UnmarkedTarget(h: History, roots: set<int>, kept: seq<int>, a: int, t: Addr)
    requires Happened(h, roots, kept) && IsObject(h.start, a) && PointsAt(h.start[a].cells, t)
    requires t in h.marked && !h.marked[t].alive
    ensures !Reachable(h.start, roots, t)
  {
    hide Reachable;
    assert Proper(h.start, t) && !h.start[t].event;
  }

  lemma SlotCleared(h: History, roots: set<int>, kept: seq<int>, a: int, i: nat)
    requires Happened(h, roots, kept) && a in h.start && a in h.swept && i < |h.start[a].cells|
    requires i < |h.swept[a].cells| && h.swept[a].cells[i] != h.start[a].cells[i]
    ensures h.swept[a].cells[i] == Ref(NULL) && MayClear(h.start, roots, h.start[a], i)
  {
    hide Reachable, HeapGraph, ExactMarks, WeakEffects, DelegateEffects, Happened;
    HappenedChanges(h, roots, kept, a);
    if h.weak[a].cells != h.marked[a].cells {
      ReferenceCleared(h, roots, kept, a, i);
    } else {
      DelegateCleared(h, roots, kept, a, i);
    }
  }

  lemma HappenedChanges(h: History, roots: set<int>, kept: seq<int>, a: int)
    requires Happened(h, roots, kept) && a in h.start
    ensures a in h.marked && a in h.weak && a in h.swept
    ensures h.marked[a].cells == h.start[a].cells && h.marked[a].kind == h.weak[a].kind == h.swept[a].kind == h.start[a].kind
    ensures |h.weak[a].cells| == |h.start[a].cells| == |h.swept[a].cells|
    ensures h.weak[a].cells != h.swept[a].cells ==> Cleared(h.weak[a].cells, h.swept[a].cells)
    ensures h.marked[a].cells != h.weak[a].cells ==> Cleared(h.marked[a].cells, h.weak[a].cells)
    ensures IsObject(h.start, a) <==> IsObject(h.marked, a)
    ensures IsObject(h.start, a) <==> IsObject(h.weak, a)
  {
  }

  lemma ReferenceCleared(h: History, roots: set<int>, kept: seq<int>, a: int, i: nat)
    requires Happened(h, roots, kept) && a in h.start && a in h.swept && a in h.weak && a in h.marked
    requires h.weak[a].cells != h.marked[a].cells == h.start[a].cells && i < |h.start[a].cells| == |h.swept[a].cells|
    requires h.swept[a].cells[i] != h.start[a].cells[i]
    ensures h.swept[a].cells[i] == Ref(NULL) && MayClear(h.start, roots, h.start[a], i)
  {
    hide Reachable, HeapGraph, ExactMarks;
    HappenedChanges(h, roots, kept, a);
    assert TargetDead(h.marked, h.marked[a], h.weak[a]) && IsObject(h.start, a);
    assert !IsWeakList(h.weak[a]) && h.swept[a].cells == h.weak[a].cells;
    var t := h.start[a].cells[0].addr;
    assert h.start[a].cells[0] == Ref(t) && t != NULL;
    assert PointsAt(h.start[a].cells, t);
    UnmarkedTarget(h, roots, kept, a, t);
  }

  lemma DelegateCleared(h: History, roots: set<int>, kept: seq<int>, a: int, i: nat)
    requires Happened(h, roots, kept) && a in h.start && a in h.swept && a in h.weak && a in h.marked
    requires h.weak[a].cells == h.marked[a].cells == h.start[a].cells && i < |h.start[a].cells| == |h.swept[a].cells|
    requires h.swept[a].cells[i] != h.start[a].cells[i]
    ensures h.swept[a].cells[i] == Ref(NULL) && MayClear(h.start, roots, h.start[a], i)
  {
    hide Reachable, ExactMarks, WeakEffects;
    HappenedChanges(h, roots, kept, a);
    assert IsWeakList(h.start[a]) && IsObject(h.start, a) && ObjectDead(h.weak, h.weak[a].cells[i]);
    var dlg := h.start[a].cells[i].addr;
    assert h.start[a].cells[i] == Ref(dlg) && dlg != NULL;
    assert PointsAt(h.start[a].cells, dlg) && IsDelegate(h.start, dlg);
    HappenedChanges(h, roots, kept, dlg);
    assert !Weakly(h.start[dlg]) && h.weak[dlg].cells == h.start[dlg].cells;
    var t := h.start[dlg].cells[0].addr;
    assert h.start[dlg].cells[0] == Ref(t);
    assert PointsAt(h.start[dlg].cells, t);
    HappenedChanges(h, roots, kept, t);
    UnmarkedTarget(h, roots, kept, dlg, t);
  }

  lemma FinalPreserved(h: History, roots: set<int>, kept: seq<int>, f: Blocks)
    requires Happened(h, roots, kept) && Recovered(h.swept, f)
    ensures Preserved(h.start, f, roots)
  {
    hide HeapGraph, ExactMarks, WeakEffects, DelegateEffects, Reachable, MayClear;
    Headers(h);
    forall a | InUse(f, a)
      ensures Proper(h.start, a) && f[a] == h.start[a].(cells := f[a].cells) && |f[a].cells| == |h.start[a].cells|
    {
      assert InUse(h.start, a);
      assert f[a].alive == h.start[a].event == h.start[a].alive;
      HappenedChanges(h, roots, kept, a);
    }
    forall a, i: nat | InUse(f, a) && i < |f[a].cells| && f[a].cells[i] != h.start[a].cells[i]
      ensures f[a].cells[i] == Ref(NULL) && MayClear(h.start, roots, h.start[a], i)
    {
      assert f[a].cells == h.swept[a].cells;
      SlotCleared(h, roots, kept, a, i);
    }
  }

  lemma FinalKeeps(h: History, roots: set<int>, kept: seq<int>, f: Blocks)
    requires Happened(h, roots, kept) && Recovered(h.swept, f)
    ensures Keeps(h.start, f, roots)
    ensures forall a :: a in h.marked && h.marked[a].alive ==> InUse(f, a)
  {
    hide HeapGraph, WeakEffects, DelegateEffects, Reachable;
    Headers(h);
    forall a | Proper(h.start, a) && (h.start[a].event || Reachable(h.start, roots, a) || Restored(h.start[a]))
      ensures InUse(f, a)
    {
      HappenedChanges(h, roots, kept, a);
      if h.start[a].event || Reachable(h.start, roots, a) {
        assert h.marked[a].alive;
      } else {
        assert Restored(h.marked[a]) && a in kept;
      }
    }
  }

  lemma FinalKeepsOnly(h: History, roots: set<int>, kept: seq<int>, f: Blocks)
    requires Happened(h, roots, kept) && Recovered(h.swept, f)
    ensures KeepsOnly(h.start, f, roots)
  {
    hide HeapGraph, Reachable;
    Headers(h);
    forall a | IsObject(f, a)
      ensures a in h.start
      ensures Reachable(h.start, roots, a) || Restored(h.start[a]) || CopySurvives(f, a) || ListSurvives(f, a)
    {
      HappenedChanges(h, roots, kept, a);
      if h.weak[a].alive && !h.marked[a].alive {
        if IsCopy(h.weak, a) {
          CopyStays(h, roots, kept, f, a);
        }
      } else if !h.weak[a].alive {
        ListStays(h, roots, kept, f, a);
      }
    }
  }

  lemma CopyStays(h: History, roots: set<int>, kept: seq<int>, f: Blocks, a: int)
    requires Happened(h, roots, kept) && Recovered(h.swept, f) && IsCopy(h.weak, a)
    ensures CopySurvives(f, a)
  {
    hide HeapGraph, Reachable, ExactMarks, WeakEffects;
    var w :| w in h.weak && h.weak[w].kind.WeakReference? && h.weak[w].alive && |h.weak[w].cells| == 2
      && h.weak[w].cells[1] == Ref(a);
    HappenedChanges(h, roots, kept, w);
    assert !IsWeakList(h.weak[w]) && h.swept[w].cells == h.weak[w].cells;
    assert InUse(f, w) && f[w].cells[1] == Ref(a);
  }

  lemma ListStays(h: History, roots: set<int>, kept: seq<int>, f: Blocks, a: int)
    requires Happened(h, roots, kept) && Recovered(h.swept, f)
    requires IsObject(f, a) && a in h.weak && !h.weak[a].alive
    ensures ListSurvives(f, a)
  {
    hide HeapGraph, Reachable, ExactMarks, WeakEffects;
    assert a in h.swept && h.swept[a].alive;
    assert IsDelegate(h.weak, a) && InLiveList(h.swept, a);
    var w :| w in h.swept && IsWeakList(h.swept[w]) && h.swept[w].alive && PointsAt(h.swept[w].cells, a);
    assert InUse(f, w) && IsWeakList(f[w]) && PointsAt(f[w].cells, a);
  }

  lemma FinalMarks(v: Blocks, f: Blocks, n: Links, p: Links, ext: seq<Extent>)
    requires Recovered(v, f) && HeapOK(f, n, p, ext)
    ensures CleanMarks(f)
  {
    forall a | a in f && !f[a].Occupied() ensures !f[a].alive {
      FreeIsUnmarked(f, n, p, ext, a);
    }
  }

  lemma FreeIsUnmarked(b: Blocks, n: Links, p: Links, ext: seq<Extent>, a: int)
    requires HeapOK(b, n, p, ext) && a in b && !b[a].Occupied()
    ensures !b[a].alive
  {
    assert Inside(ext, a);
  }

  lemma WeakenedCopies(b: Blocks, b': Blocks)
    requires Weakened(b, b') && CopiesExtended(b)
    ensures CopiesExtended(b')
  {
    forall a | IsObject(b', a) && b'[a].kind.WeakReference? && |b'[a].cells| == 2 && b'[a].cells[1] != Ref(NULL)
      ensures b'[a].kind.extended
    {
      assert IsObject(b, a);
      assert b'[a].cells != b[a].cells ==> Cleared(b[a].cells, b'[a].cells);
    }
  }

  lemma FinalCopiesExtended(v: Blocks, f: Blocks)
    requires CopiesExtended(v) && Recovered(v, f)
    ensures CopiesExtended(f)
  {
    forall a | IsObject(f, a) ensures IsObject(v, a) && f[a].cells == v[a].cells && f[a].kind == v[a].kind {
    }
  }

  lemma FinalReferences(h: History, roots: set<int>, kept: seq<int>, list: seq<int>, f: Blocks)
    requires Happened(h, roots, kept) && Recovered(h.swept, f) && WeakReferencesListed(h.marked, list)
    requires forall a :: a in kept <==> a in list && a in h.weak && h.weak[a].alive
    requires forall j, k :: 0 <= j < k < |kept| ==> kept[j] != kept[k]
    ensures WeakReferencesListed(f, kept)
  {
    hide HeapGraph, Reachable, ExactMarks, WeakEffects;
    Headers(h);
    forall a | IsObject(f, a) && f[a].kind.WeakReference? ensures a in kept {
      HappenedChanges(h, roots, kept, a);
      assert h.swept[a].alive && h.weak[a].alive;
    }
    forall k | 0 <= k < |kept| ensures IsObject(f, kept[k]) && f[kept[k]].kind.WeakReference? {
      assert kept[k] in list && kept[k] in kept;
      HappenedChanges(h, roots, kept, kept[k]);
    }
  }

  /** The list of weak references after MarkWeak. */
  ghost predicate ReferencesKept(h: History, list: seq<int>, kept: seq<int>) {
    && WeakReferencesListed(h.marked, list) && NoRepeats(kept)
    && (forall a :: a in kept <==> a in list && a in h.weak && h.weak[a].alive)
  }

  lemma ItHappened(b0: Blocks, h: History, roots: set<int>, list: seq<int>, kept: seq<int>, n: Links, p: Links, ext: seq<Extent>)
    requires SameObjects(b0, h.start) && HeapGraph(h.start) && CleanMarks(h.start) && HeapOK(h.swept, n, p, ext)
    requires Remarked(h.start, h.marked) && ExactMarks(h.start, h.marked, roots)
    requires Weakened(h.marked, h.weak) && WeakEffects(h.marked, h.weak)
    requires Weakened(h.weak, h.swept) && DelegateEffects(h.weak, h.swept)
    requires WeakReferencesListed(h.marked, list) && NoRepeats(kept)
    requires forall a :: a in kept <==> a in list && a in h.weak && h.weak[a].alive
    requires forall a :: IsObject(h.marked, a) && Restored(h.marked[a]) ==> a in kept
    ensures Happened(h, roots, kept) && ReferencesKept(h, list, kept)
  {
    hide HeapGraph, CleanMarks, HeapOK, ExactMarks, WeakEffects, DelegateEffects, WeakReferencesListed;
    Headers(h);
    HeapApart(h.swept, n, p, ext);
    assert NULL !in h.start;
  }

  lemma Outcome(b0: Blocks, n0: Links, p0: Links, h: History, f: Blocks, n: Links, p: Links, ext: seq<Extent>,
                roots: set<int>, list: seq<int>, kept: seq<int>)
    requires h.start == Discarded(b0) && Happened(h, roots, kept) && ReferencesKept(h, list, kept)
    requires HeapGraph(h.swept) && AllSettled(h.swept) && CopiesExtended(h.swept)
    requires HeapOK(b0, n0, p0, ext) && HeapOK(f, n, p, ext) && HoleFree(f) && Recovered(h.swept, f)
    ensures Collected(b0, f, roots) && CleanMarks(f) && CopiesExtended(f) && WeakReferencesListed(f, kept)
  {
    hide HeapGraph, AllSettled, CopiesExtended, HeapOK, HoleFree, Recovered, Happened, CleanMarks, WeakReferencesListed,
      Preserved, Keeps, KeepsOnly, FreesTheRest, Discarded;
    FinalGraph(h.swept, f);
    FinalMarks(h.swept, f, n, p, ext);
    FinalCopiesExtended(h.swept, f);
    FinalReferences(h, roots, kept, list, f);
    FinalPreserved(h, roots, kept, f);
    FinalKeeps(h, roots, kept, f);
    FinalKeepsOnly(h, roots, kept, f);
    InTermsOfBefore(b0, f, roots);
    FinalSizes(h, roots, kept, b0, f);
    RestIsFree(b0, n0, p0, f, n, p, ext);
  }

  /** Discarding cached blocks changes no path. */
  lemma SamePaths(b0: Blocks, b: Blocks, roots: set<int>, x: int)
    requires SameObjects(b0, b)
    ensures Reachable(b0, roots, x) <==> Reachable(b, roots, x)
  {
    forall a, t: Addr ensures Edge(b0, a, t) <==> Edge(b, a, t) {
    }
    forall path | Leads(b0, roots, path, x) ensures Leads(b, roots, path, x) {
    }
    forall path | Leads(b, roots, path, x) ensures Leads(b0, roots, path, x) {
    }
  }

  lemma InTermsOfBefore(b0: Blocks, f: Blocks, roots: set<int>)
    requires var b := Discarded(b0); Preserved(b, f, roots) && Keeps(b, f, roots) && KeepsOnly(b, f, roots)
    ensures Preserved(b0, f, roots) && Keeps(b0, f, roots) && KeepsOnly(b0, f, roots)
  {
    hide Reachable;
    var b := Discarded(b0);
    DiscardedObjects(b0);
    forall x ensures Reachable(b0, roots, x) <==> Reachable(b, roots, x) {
      SamePaths(b0, b, roots, x);
    }
    forall a, i: nat | InUse(f, a) && i < |f[a].cells| && f[a].cells[i] != b0[a].cells[i]
      ensures Proper(b0, a) && f[a].cells[i] == Ref(NULL) && MayClear(b0, roots, b0[a], i)
    {
      assert Proper(b, a) && b[a] == b0[a];
      assert MayClear(b, roots, b[a], i);
    }
    forall a | IsObject(f, a)
      ensures a in b0 && (Reachable(b0, roots, a) || Restored(b0[a]) || CopySurvives(f, a) || ListSurvives(f, a))
    {
      assert InUse(f, a) && Proper(b, a) && b[a] == b0[a];
    }
  }

  lemma FinalSizes(h: History, roots: set<int>, kept: seq<int>, b0: Blocks, f: Blocks)
    requires h.start == Discarded(b0) && Happened(h, roots, kept) && Recovered(h.swept, f)
    ensures forall a :: InUse(f, a) ==> a in b0 && b0[a].size == f[a].size
    ensures forall a :: a in h.start <==> a in b0
  {
    hide HeapGraph, ExactMarks, WeakEffects, DelegateEffects;
    Headers(h);
  }

  /** Two layouts of the same clusters: what one uses and the other does not lies in a free block. */
  lemma RestIsFree(b0: Blocks, n0: Links, p0: Links, f: Blocks, n: Links, p: Links, ext: seq<Extent>)
    requires HeapOK(b0, n0, p0, ext) && HeapOK(f, n, p, ext) && HoleFree(f)
    requires forall a :: InUse(f, a) ==> a in b0 && b0[a].size == f[a].size
    ensures FreesTheRest(b0, f)
  {
    hide ClusterOK;
    forall a | a in b0 && !InUse(f, a) ensures InFreeBlock(f, a, b0[a].size) {
      assert Inside(ext, a);
      var i :| 0 <= i < |ext| && ext[i].start <= a < ext[i].end;
      DeadIsFree(b0, n0, p0, f, n, p, ext[i].start, ext[i].end, a);
    }
  }

  lemma DeadIsFree(b0: Blocks, n0: Links, p0: Links, f: Blocks, n: Links, p: Links, s: int, e: int, a: int)
    requires ClusterOK(b0, n0, p0, s, e) && ClusterOK(f, n, p, s, e) && HoleFree(f)
    requires forall x :: InUse(f, x) ==> x in b0 && b0[x].size == f[x].size
    requires s <= a < e && a in b0 && !InUse(f, a)
    ensures InFreeBlock(f, a, b0[a].size)
  {
    var r := TileAt(f, s, e, a);
    assert End(b0, a) <= e;
    assert !InUse(f, r) by {
      assert r in b0 ==> r == a || a < r || End(b0, r) <= a;
    }
    assert IsFree(f, r);
    var q := End(f, r);
    assert q == e || q in f;
    assert !IsFree(f, q) || q == e;
    assert q == e || InUse(f, q);
    assert q in b0 ==> End(b0, a) <= q;
  }

  lemma EmptyCache(h: History, roots: set<int>, kept: seq<int>, f: Blocks, lists: seq<seq<int>>)
    requires EmptyLists(lists) && Happened(h, roots, kept) && Recovered(h.swept, f)
    ensures CacheOK(f, lists, {})
  {
    hide HeapGraph, ExactMarks, WeakEffects, DelegateEffects;
    Headers(h);
    forall a ensures !Cached(f, a) {
      assert InUse(f, a) ==> InUse(h.start, a);
    }
  }

  lemma SameStart(b0: Blocks, b: Blocks, roots: set<int>, list: seq<Root>)
    requires b == Discarded(b0)
    ensures RootSets(b, list) == RootSets(b0, list)
    ensures forall x :: Reachable(b, roots, x) <==> Reachable(b0, roots, x)
  {
    DiscardedObjects(b0);
    SameDomainRoots(b0, b, list);
    forall x ensures Reachable(b, roots, x) <==> Reachable(b0, roots, x) {
      SamePaths(b0, b, roots, x);
    }
  }

  /** Discarding the cached blocks changes nothing for the finalizers. */
  lemma SameSplit(b0: Blocks, b: Blocks, roots: set<int>, list: seq<Addr>, moved: seq<Addr>, kept: seq<Addr>, exact: bool)
    requires b == Discarded(b0) && ObjectsOK(b0, list) && FrontToBack(b, roots, list, moved, kept, exact)
    ensures FrontToBack(b0, roots, list, moved, kept, exact)
  {
    hide Picked, Reachable;
    var goes :| SplitBy(b, roots, list, goes, moved, kept, exact);
    DiscardedObjects(b0);
    forall i | 0 <= i < |goes| ensures Judged(b0, roots, Picked(list, goes[..i], true), list[i], goes[i], exact) {
      var before := Picked(list, goes[..i], true);
      assert Judged(b, roots, before, list[i], goes[i], exact);
      SamePaths(b0, b, roots, list[i]);
      SamePaths(b0, b, roots + Members(before), list[i]);
    }
    assert SplitBy(b0, roots, list, goes, moved, kept, exact);
  }

  lemma {:induction false} SameDomainRoots(b0: Blocks, b: Blocks, list: seq<Root>)
    requires forall a :: a in b <==> a in b0
    ensures RootSets(b, list) == RootSets(b0, list)
  {
    if list != [] {
      SameDomainRoots(b0, b, list[..|list| - 1]);
      assert RootSet(b, list[|list| - 1]) == RootSet(b0, list[|list| - 1]);
    }
  }

  lemma MarkedSurvive(h: History, roots: set<int>, kept: seq<int>, f: Blocks)
    requires Happened(h, roots, kept) && Recovered(h.swept, f)
    ensures forall a :: a in h.marked && h.marked[a].alive ==> InUse(f, a)
  {
    hide HeapGraph, Reachable;
    FinalKeeps(h, roots, kept, f);
  }

  lemma {:induction false} RootSetsContain(b: Blocks, list: seq<Root>, i: nat, t: Addr)
    requires i < |list| && list[i].Targets(t) && t in b
    ensures t in RootSets(b, list)
  {
    var n := |list| - 1;
    if i == n {
      assert t in RootSet(b, list[n]);
    } else {
      RootSetsContain(b, list[..n], i, t);
    }
  }

  lemma PendingAreRoots(b0: Blocks, before: seq<Root>, pending: seq<Addr>, after: seq<Root>)
    requires ObjectsOK(b0, pending)
    ensures forall x: Addr :: x in pending ==> x in RootSets(b0, before + Singles(pending) + after)
  {
    forall x: Addr | x in pending ensures x in RootSets(b0, before + Singles(pending) + after) {
      var i :| 0 <= i < |pending| && pending[i] == x;
      var list := before + Singles(pending) + after;
      assert list[|before| + i] == Single(x);
      RootSetsContain(b0, list, |before| + i, x);
    }
  }

  /** The finalizers' objects survive as the objects they were. */
  lemma FinalFinalizers(b0: Blocks, f: Blocks, roots: set<int>, moved: seq<Addr>, alive: seq<Addr>, pending: seq<Addr>,
                        alive': seq<Addr>)
    requires Collected(b0, f, roots + Members(moved)) && ObjectsOK(b0, alive) && ObjectsOK(b0, pending)
    requires multiset(alive') + multiset(moved) == multiset(alive)
    requires forall x :: x in alive' ==> InUse(f, x)
    requires forall x :: x in pending ==> x in roots
    ensures ObjectsOK(f, alive') && ObjectsOK(f, pending + moved)
  {
    hide HeapGraph, Reachable, MayClear, KeepsOnly, FreesTheRest;
    forall x: Addr | x in alive' || x in moved || x in pending ensures x != NULL && IsObject(b0, x) {
      assert x in alive' || x in moved ==> x in multiset(alive') + multiset(moved);
      assert x in alive' || x in moved ==> x in alive;
    }
    forall x: Addr | x in pending || x in moved ensures InUse(f, x) {
      assert x in roots + Members(moved);
      RootReachable(b0, roots + Members(moved), x);
    }
    forall x: Addr | InUse(f, x) && IsObject(b0, x) ensures IsObject(f, x) {
    }
    forall i | 0 <= i < |alive'| ensures alive'[i] != NULL && IsObject(f, alive'[i]) {
      assert alive'[i] in alive';
    }
    forall i | 0 <= i < |pending + moved| ensures (pending + moved)[i] != NULL && IsObject(f, (pending + moved)[i]) {
      assert (pending + moved)[i] in pending || (pending + moved)[i] in moved;
    }
  }
}
