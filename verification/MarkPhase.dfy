/** The mark phase of a collection: roots, finalizers, and the walks over the whole heap that finish
  * the job after the mark stack overflowed. */
module MarkPhases {
  import opened HeapModel
  import opened Clusters
  import opened Heap
  import opened MarkStacks
  import opened Marking
  import opened MarkerLoop

  class MarkPhase {
    const mem: Memory
    const clusters: seq<HeapCluster>
    ghost const ext: seq<Extent>
    const marker: Marker
    var finalizersAlive: seq<Addr>
    var finalizersPending: seq<Addr>

    constructor (mem: Memory, clusters: seq<HeapCluster>, ghost ext: seq<Extent>,
                 finalizersAlive: seq<Addr>, finalizersPending: seq<Addr>)
      ensures this.mem == mem && this.clusters == clusters && this.ext == ext
      ensures this.finalizersAlive == finalizersAlive && this.finalizersPending == finalizersPending
      ensures marker.mem == mem && fresh(marker) && fresh(marker.stack) && marker.weakDelegates == []
      ensures marker.stack.Valid() && marker.stack.Pending() == [] && !marker.stack.outOfSpace && marker.stack.overflows == 0
    {
      this.mem := mem;
      this.clusters := clusters;
      this.ext := ext;
      this.finalizersAlive := finalizersAlive;
      this.finalizersPending := finalizersPending;
      this.marker := new Marker(mem);
    }

    ghost predicate Wiring()
      reads this, mem
    {
      marker.mem == mem && Wired(mem, clusters, ext) && HeapOK(mem.blocks, mem.next, mem.prev, ext)
    }

    /** The state between two steps of the phase, relative to the heap `b0` it started with. */
    ghost predicate Step(b0: Blocks, roots: set<int>, dropped: set<int>)
      reads this, mem, marker, marker.stack
    {
      && Wiring() && Remarked(b0, mem.blocks)
      && marker.Rest(roots, dropped) && RootsMarked(mem.blocks, roots) && RootsMarked(mem.blocks, dropped)
      && (!marker.stack.outOfSpace ==> dropped == {})
    }

    /** One pass of MarkSlow: visits every marked block again.  What is dropped afterwards was newly
      * marked by the pass, so a pass that overflows again has made progress. */
    method SlowPass(ghost b0: Blocks, ghost roots: set<int>, ghost dropped0: set<int>) returns (ghost dropped: set<int>)
      requires Wiring() && Remarked(b0, mem.blocks) && !marker.stack.outOfSpace
      requires marker.Rest(roots, dropped0) && RootsMarked(mem.blocks, roots) && RootsMarked(mem.blocks, dropped0)
      modifies marker`weakDelegates, mem`blocks, marker.stack
      ensures Step(b0, roots, dropped)
      ensures marker.stack.outOfSpace ==> SomeFresh(old(mem.blocks), mem.blocks)
      ensures Remarked(old(mem.blocks), mem.blocks) && marker.stack.overflows >= old(marker.stack.overflows)
    {
      hide HeapOK, Marker.Rest, Remarked, RootsMarked, Progress, Fresh, SomeFresh;
      ghost var b1, n, p, count0 := mem.blocks, mem.next, mem.prev, marker.stack.overflows;
      dropped := dropped0;
      RemarkedReflexive(b1);
      PassBegins(b1, n, p, ext, dropped);
      var i := 0;
      while i < |clusters|
        invariant 0 <= i <= |clusters| && Wiring() && marker.Rest(roots, dropped) && marker.stack.overflows >= count0
        invariant PassSoFar(b1, mem.blocks, dropped0, dropped, marker.stack.outOfSpace, PassStart(ext, i))
      {
        var ptr, end := clusters[i].payloadStart, clusters[i].payloadEnd;
        PassEnters(b1, mem.blocks, n, p, ext, i, dropped0, dropped, marker.stack.outOfSpace);
        while ptr < end
          invariant ext[i].start <= ptr <= end && Boundary(mem.blocks, ext[i], ptr)
          invariant Wiring() && marker.Rest(roots, dropped) && marker.stack.overflows >= count0
          invariant PassSoFar(b1, mem.blocks, dropped0, dropped, marker.stack.outOfSpace, ptr)
          decreases end - ptr
        {
          ghost var b, flag, d := mem.blocks, marker.stack.outOfSpace, dropped;
          NextBoundary(b, n, p, ext, i, ptr);
          var size := mem.blocks[ptr].size;
          if mem.blocks[ptr].alive && !mem.blocks[ptr].event {
            MarkedIsOccupied(b, n, p, ext, i, ptr);
            dropped := marker.Revisit(ptr, roots, d);
            RemarkedPlaces(b, mem.blocks, n, p, ext);
          } else {
            marker.ForgetDropped(roots, d, ptr);
            RemarkedReflexive(b);
            NoProgress(b, d, ptr, flag);
            dropped := d - {ptr};
          }
          PassStep(b1, b, mem.blocks, dropped0, d, dropped, flag, marker.stack.outOfSpace, ptr, size);
          ptr := ptr + size;
        }
        i := i + 1;
      }
      PassEnds(b1, mem.blocks, n, p, ext, dropped0, dropped, marker.stack.outOfSpace);
      RemarkedTransitive(b0, b1, mem.blocks);
      RootsStayMarked(b1, mem.blocks, roots);
    }

    /** MarkSlow: repeats the pass until the stack no longer overflows.  It ends because every pass
      * that overflows leaves fewer unmarked blocks. */
    method MarkSlow(ghost b0: Blocks, ghost roots: set<int>, ghost dropped0: set<int>)
      requires Step(b0, roots, dropped0)
      modifies marker`weakDelegates, mem`blocks, marker.stack
      ensures Step(b0, roots, {}) && !marker.stack.outOfSpace && Remarked(old(mem.blocks), mem.blocks)
      ensures marker.stack.overflows >= old(marker.stack.overflows)
    {
      hide HeapOK, Marker.Rest, Remarked, RootsMarked, Progress, SomeFresh, Unmarked;
      ghost var dropped, b1 := dropped0, mem.blocks;
      RemarkedReflexive(b1);
      while marker.stack.outOfSpace
        invariant Step(b0, roots, dropped) && Remarked(b1, mem.blocks)
        invariant marker.stack.overflows >= old(marker.stack.overflows)
        decreases marker.stack.outOfSpace, |Unmarked(mem.blocks)|
      {
        ghost var b := mem.blocks;
        marker.ClearFlag(roots, dropped);
        dropped := SlowPass(b0, roots, dropped);
        PassShrinks(b, mem.blocks);
        RemarkedTransitive(b1, b, mem.blocks);
      }
    }

    /** Marks from a list of roots. */
    method MarkRoots(list: seq<Root>, ghost b0: Blocks, ghost roots0: set<int>, ghost dropped0: set<int>)
      returns (ghost dropped: set<int>)
      requires Step(b0, roots0, dropped0) && forall i :: 0 <= i < |list| ==> RootOK(b0, list[i])
      modifies marker`weakDelegates, mem`blocks, marker.stack
      ensures Step(b0, roots0 + RootSets(b0, list), dropped) && marker.stack.overflows >= old(marker.stack.overflows)
    {
      hide HeapOK, Marker.Rest, Remarked, RootsMarked, Progress, SomeFresh, RootOK, RootSet;
      dropped := dropped0;
      ghost var roots := roots0;
      var i := 0;
      assert roots0 + RootSets(b0, list[..0]) == roots0;
      while i < |list|
        invariant 0 <= i <= |list| && roots == roots0 + RootSets(b0, list[..i])
        invariant Step(b0, roots, dropped) && marker.stack.overflows >= old(marker.stack.overflows)
      {
        roots, dropped := MarkRoot(list[i], b0, roots, dropped);
        assert list[..i + 1][..i] == list[..i];
        i := i + 1;
      }
      assert list[..|list|] == list;
    }

    method MarkRoot(root: Root, ghost b0: Blocks, ghost roots0: set<int>, ghost dropped0: set<int>)
      returns (ghost roots: set<int>, ghost dropped: set<int>)
      requires Step(b0, roots0, dropped0) && RootOK(b0, root)
      modifies marker`weakDelegates, mem`blocks, marker.stack
      ensures roots == roots0 + RootSet(b0, root) && Step(b0, roots, dropped)
      ensures Counted(old(marker.stack.outOfSpace), old(marker.stack.overflows), marker.stack.outOfSpace, marker.stack.overflows)
      ensures Remarked(old(mem.blocks), mem.blocks)
    {
      hide HeapOK, Marker.Rest, Remarked, RootsMarked, Progress, SomeFresh, RootOK, RootSet;
      ghost var b, flag := mem.blocks, marker.stack.outOfSpace;
      RootRemarked(b0, b, root);
      dropped := marker.CheckRoot(root, roots0, dropped0);
      roots := roots0 + RootSet(b0, root);
      RemarkedPlaces(b, mem.blocks, mem.next, mem.prev, ext);
      RemarkedTransitive(b0, b, mem.blocks);
      RootStep(b, mem.blocks, roots0, RootSet(b0, root), dropped0, dropped, flag, marker.stack.outOfSpace);
    }

    /** The finalizers of dead objects move to the pending list; their objects, and whatever those
      * lead to, are brought back for one last time. */
    method PrepareFinalizers(ghost b0: Blocks, ghost roots0: set<int>)
      returns (ghost roots: set<int>, ghost dropped: set<int>, ghost moved: seq<Addr>)
      requires Step(b0, roots0, {}) && FinalizersOK(b0, finalizersAlive)
      requires ExactMarks(b0, mem.blocks, roots0) && !marker.stack.outOfSpace
      modifies this`finalizersAlive, this`finalizersPending, marker`weakDelegates, mem`blocks, marker.stack
      ensures Step(b0, roots, dropped) && roots == roots0 + Members(moved)
      ensures marker.stack.overflows >= old(marker.stack.overflows)
      ensures FrontToBack(b0, roots0, old(finalizersAlive), moved, finalizersAlive,
                          marker.stack.overflows == old(marker.stack.overflows))
      ensures finalizersPending == old(finalizersPending) + moved
      ensures multiset(finalizersAlive) + multiset(moved) == multiset(old(finalizersAlive))
      ensures forall m :: m in moved ==> !Reachable(b0, roots0, m)
      ensures forall a :: a in finalizersAlive ==> a in mem.blocks && mem.blocks[a].alive
    {
      hide HeapOK, Marker.Rest, Remarked, RootsMarked, Progress, SomeFresh, RootSet, Reachable, ExactMarks, Halfway, Judged,
        FrontToBack;
      ghost var b1, list, count0 := mem.blocks, finalizersAlive, marker.stack.overflows;
      RemarkedReflexive(b1);
      roots, dropped, moved := roots0, {}, [];
      ghost var goes: seq<bool> := [];
      HalfwayBegins(b0, roots0, list);
      assert roots0 + Members([]) == roots0;
      assert finalizersPending + moved == finalizersPending;
      var i := 0;
      while i < |finalizersAlive|
        invariant 0 <= i <= |finalizersAlive| && Step(b0, roots, dropped) && Remarked(b1, mem.blocks)
        invariant roots == roots0 + Members(moved) && finalizersPending == old(finalizersPending) + moved
        invariant multiset(finalizersAlive) + multiset(moved) == multiset(old(finalizersAlive))
        invariant Halfway(b0, roots0, list, goes, i, moved, finalizersAlive, marker.stack.overflows == count0)
        invariant marker.stack.overflows >= count0 && (marker.stack.overflows == count0 ==> !marker.stack.outOfSpace)
        invariant FinalizersOK(b0, finalizersAlive) && forall m :: m in moved ==> !Reachable(b0, roots0, m)
        invariant forall k :: 0 <= k < i ==> finalizersAlive[k] in mem.blocks && mem.blocks[finalizersAlive[k]].alive
        decreases |finalizersAlive| - i
      {
        ghost var b := mem.blocks;
        var target := finalizersAlive[i];
        SameDomain(b0, b, target);
        ghost var exact, alive := marker.stack.overflows == count0, finalizersAlive;
        MarkJudges(b0, b1, roots0, moved, dropped, target, exact);
        HalfwayStep(b0, roots0, list, goes, i, moved, alive, exact, !mem.blocks[target].alive);
        if !mem.blocks[target].alive {
          roots, dropped := Resurrect(i, b0, b1, roots0, roots, dropped);
          RemarkedTransitive(b1, b, mem.blocks);
          MembersPush(roots0, moved, target);
          moved := moved + [target];
          StillMarked(b, mem.blocks, finalizersAlive, i);
          goes := goes + [true];
          HalfwayLess(b0, roots0, list, goes, i, moved, finalizersAlive, exact, marker.stack.overflows == count0);
        } else {
          i := i + 1;
          goes := goes + [false];
        }
      }
      HalfwayEnds(b0, roots0, list, goes, moved, finalizersAlive, marker.stack.overflows == count0);
    }

    /** Moves the finalizer at `i` and marks from its dead object. */
    method Resurrect(i: nat, ghost b0: Blocks, ghost b1: Blocks, ghost roots0: set<int>,
                     ghost roots: set<int>, ghost dropped: set<int>) returns (ghost roots': set<int>, ghost dropped': set<int>)
      requires Step(b0, roots, dropped) && FinalizersOK(b0, finalizersAlive) && i < |finalizersAlive|
      requires ExactMarks(b0, b1, roots0) && Remarked(b1, mem.blocks)
      requires finalizersAlive[i] in mem.blocks && !mem.blocks[finalizersAlive[i]].alive
      modifies this`finalizersAlive, this`finalizersPending, marker`weakDelegates, mem`blocks, marker.stack
      ensures Step(b0, roots', dropped') && Remarked(old(mem.blocks), mem.blocks)
      ensures Counted(old(marker.stack.outOfSpace), old(marker.stack.overflows), marker.stack.outOfSpace, marker.stack.overflows)
      ensures roots' == roots + {old(finalizersAlive)[i] as int} && !Reachable(b0, roots0, old(finalizersAlive)[i])
      ensures finalizersPending == old(finalizersPending) + [old(finalizersAlive)[i]]
      ensures finalizersAlive == old(finalizersAlive)[..i] + old(finalizersAlive)[i + 1..]
      ensures multiset(finalizersAlive) + multiset{old(finalizersAlive)[i]} == multiset(old(finalizersAlive))
    {
      hide HeapOK, Marker.Rest, Remarked, RootsMarked, Progress, SomeFresh, RootSet, Reachable, ExactMarks;
      var target := finalizersAlive[i];
      StepGraph(b0, roots, dropped);
      DeadIsUnreachable(b0, b1, mem.blocks, roots0, target);
      SingleRoot(b0, target);
      roots', dropped' := MarkRoot(Single(target), b0, roots, dropped);
      TakeOut(finalizersAlive, i);
      finalizersPending := finalizersPending + [target];
      finalizersAlive := finalizersAlive[..i] + finalizersAlive[i + 1..];
    }

    /** The mark of a finalizer's object tells whether it goes. */
    lemma MarkJudges(b0: Blocks, b1: Blocks, roots0: set<int>, moved: seq<Addr>, dropped: set<int>, x: Addr, exact: bool)
      requires Step(b0, roots0 + Members(moved), dropped) && ExactMarks(b0, b1, roots0) && Remarked(b1, mem.blocks)
      requires InUse(b0, x) && x in mem.blocks && (exact ==> !marker.stack.outOfSpace)
      ensures Judged(b0, roots0, moved, x, !mem.blocks[x].alive, exact)
    {
      hide HeapOK, Reachable, Closed, Members;
      var roots := roots0 + Members(moved);
      ReachableRemarked(b0, mem.blocks, roots, x);
      if !mem.blocks[x].alive {
        DeadIsUnreachable(b0, b1, mem.blocks, roots0, x);
        if exact {
          MarksAreExact(b0, roots);
        }
      }
    }

    lemma StepGraph(b0: Blocks, roots: set<int>, dropped: set<int>)
      requires Step(b0, roots, dropped)
      ensures EventsMarked(mem.blocks)
    {
    }

    /** Mark.  Whatever overflowed on the way, in the end exactly the objects that the roots and the
      * resurrected objects reach are marked, and a finalizer is moved only if its object was
      * unreachable.  `overflows` counts the ranges given up while the finalizers were gone through. */
    method Mark(before: seq<Root>, after: seq<Root>)
      returns (ghost roots: set<int>, ghost moved: seq<Addr>, ghost overflows: nat)
      requires Wiring() && Graph(mem.blocks) && CleanMarks(mem.blocks)
      requires marker.stack.Valid() && marker.stack.Pending() == [] && !marker.stack.outOfSpace
      requires marker.weakDelegates == []
      requires RootsOK(mem.blocks, before) && RootsOK(mem.blocks, after)
      requires FinalizersOK(mem.blocks, finalizersAlive) && FinalizersOK(mem.blocks, finalizersPending)
      modifies this`finalizersAlive, this`finalizersPending, marker`weakDelegates, mem`blocks, marker.stack
      ensures Wiring() && Remarked(old(mem.blocks), mem.blocks) && Graph(mem.blocks)
      ensures roots == RootSets(old(mem.blocks), before + Singles(old(finalizersPending)) + after)
      ensures ExactMarks(old(mem.blocks), mem.blocks, roots + Members(moved))
      ensures forall m :: m in moved ==> !Reachable(old(mem.blocks), roots, m)
      ensures finalizersPending == old(finalizersPending) + moved
      ensures old(marker.stack.overflows) + overflows <= marker.stack.overflows
      ensures FrontToBack(old(mem.blocks), roots, old(finalizersAlive), moved, finalizersAlive, overflows == 0)
      ensures multiset(finalizersAlive) + multiset(moved) == multiset(old(finalizersAlive))
      ensures forall a :: a in finalizersAlive ==> a in mem.blocks && mem.blocks[a].alive
      ensures WeakListed(mem.blocks, marker.weakDelegates) && Closed(mem.blocks, {}, [])
    {
      hide HeapOK, Remarked, RootsMarked, Progress, SomeFresh, RootSet, Reachable, ExactMarks, Marker.Rest, FrontToBack;
      ghost var b0 := mem.blocks;
      MarkBegins();
      ghost var dropped := MarkRoots(before + Singles(finalizersPending) + after, b0, {}, {});
      roots := RootSets(b0, before + Singles(finalizersPending) + after);
      assert {} + roots == roots;
      if marker.stack.outOfSpace {
        MarkSlow(b0, roots, dropped);
      }
      MarksAreExact(b0, roots);
      ghost var all, count := {}, marker.stack.overflows;
      all, dropped, moved := PrepareFinalizers(b0, roots);
      overflows := marker.stack.overflows - count;
      ghost var b1 := mem.blocks;
      RemarkedReflexive(b1);
      if marker.stack.outOfSpace {
        MarkSlow(b0, all, dropped);
      }
      MarksAreExact(b0, all);
      assert forall a :: a in b1 && b1[a].alive ==> a in mem.blocks && mem.blocks[a].alive by {
        MarksStay(b1, mem.blocks);
      }
    }

    lemma MarkBegins()
      requires Wiring() && Graph(mem.blocks) && CleanMarks(mem.blocks)
      requires marker.stack.Valid() && marker.stack.Pending() == [] && !marker.stack.outOfSpace
      requires marker.weakDelegates == []
      ensures Step(mem.blocks, {}, {})
    {
      hide HeapOK, Graph, CleanMarks, WeakListed, Traversal, MarkStack.Valid, MarkStack.Pending;
      CleanStart(mem.blocks);
    }

    lemma MarksAreExact(b0: Blocks, roots: set<int>)
      requires Step(b0, roots, {})
      ensures ExactMarks(b0, mem.blocks, roots)
      ensures Graph(mem.blocks) && WeakListed(mem.blocks, marker.weakDelegates) && Closed(mem.blocks, {}, [])
    {
      hide HeapOK, Reachable;
      assert marker.stack.Pending() + Idle.Grey() == [];
      ClosureIsExact(mem.blocks, roots);
      RemarkedGraph(b0, mem.blocks);
      forall a ensures Reachable(b0, roots, a) <==> Reachable(mem.blocks, roots, a) {
        ReachableRemarked(b0, mem.blocks, roots, a);
      }
    }
  }

  /** A pass has dealt with every block below `limit`: what is dropped there was newly marked. */
  ghost predicate PassSoFar(b1: Blocks, b: Blocks, dropped0: set<int>, dropped: set<int>, flag: bool, limit: int) {
    && Remarked(b1, b) && Progress(b1, b, dropped0, dropped, false, flag) && RootsMarked(b, dropped)
    && (forall d :: d in dropped ==> Fresh(b1, b, d) || limit <= d)
  }

  lemma PassBegins(b1: Blocks, n: Links, p: Links, ext: seq<Extent>, dropped: set<int>)
    requires HeapOK(b1, n, p, ext) && RootsMarked(b1, dropped)
    ensures PassSoFar(b1, b1, dropped, dropped, false, PassStart(ext, 0))
  {
    hide ClusterOK;
    forall d | d in dropped ensures 0 <= d {
      assert Inside(ext, d);
      var j :| 0 <= j < |ext| && ext[j].start <= d < ext[j].end;
      hide HeapOK;
      ClusterShape(b1, n, p, ext, j);
    }
  }

  lemma PassEnters(b1: Blocks, b: Blocks, n: Links, p: Links, ext: seq<Extent>, i: nat,
                   dropped0: set<int>, dropped: set<int>, flag: bool)
    requires HeapOK(b, n, p, ext) && i < |ext|
    requires PassSoFar(b1, b, dropped0, dropped, flag, PassStart(ext, i))
    ensures ext[i].start <= ext[i].end && Boundary(b, ext[i], ext[i].start)
    ensures PassSoFar(b1, b, dropped0, dropped, flag, ext[i].start)
  {
    hide HeapOK, Progress, Remarked, Fresh;
    GapEmpty(b, n, p, ext, i);
    ClusterShape(b, n, p, ext, i);
  }

  lemma PassStep(b1: Blocks, b: Blocks, b': Blocks, dropped0: set<int>, dropped: set<int>, dropped': set<int>,
                 flag: bool, flag': bool, ptr: int, size: int)
    requires PassSoFar(b1, b, dropped0, dropped, flag, ptr) && Remarked(b, b')
    requires Progress(b, b', dropped, dropped', flag, flag') && ptr !in dropped'
    requires forall a :: a in b && ptr < a ==> ptr + size <= a
    ensures PassSoFar(b1, b', dropped0, dropped', flag', ptr + size)
  {
    RemarkedTransitive(b1, b, b');
    StillFresh(b1, b, b');
    if flag' && !flag {
      var x :| Fresh(b, b', x);
      assert Fresh(b1, b', x);
    }
  }

  lemma StillFresh(b1: Blocks, b: Blocks, b': Blocks)
    requires Remarked(b1, b) && Remarked(b, b')
    ensures forall x :: Fresh(b1, b, x) || Fresh(b, b', x) ==> Fresh(b1, b', x)
    ensures SomeFresh(b1, b) ==> SomeFresh(b1, b')
  {
    if SomeFresh(b1, b) {
      var x :| Fresh(b1, b, x);
      assert Fresh(b1, b', x);
    }
  }

  lemma NoProgress(b: Blocks, dropped: set<int>, ptr: int, flag: bool)
    ensures Progress(b, b, dropped, dropped - {ptr}, flag, flag)
  {
  }

  lemma PassEnds(b1: Blocks, b: Blocks, n: Links, p: Links, ext: seq<Extent>, dropped0: set<int>, dropped: set<int>, flag: bool)
    requires HeapOK(b, n, p, ext) && RootsMarked(b1, dropped0)
    requires PassSoFar(b1, b, dropped0, dropped, flag, PassStart(ext, |ext|))
    ensures Remarked(b1, b) && RootsMarked(b, dropped)
    ensures if flag then SomeFresh(b1, b) else dropped == {}
  {
    hide ClusterOK, Remarked;
    forall d | d in dropped ensures Fresh(b1, b, d) {
      assert Inside(ext, d);
      var j :| 0 <= j < |ext| && ext[j].start <= d < ext[j].end;
      ExtentsUpTo(b, n, p, ext, |ext| - 1);
    }
    if !flag {
      forall d ensures d !in dropped {
        assert d in dropped ==> d in dropped0 && Fresh(b1, b, d);
      }
      assert dropped == {};
    }
  }

  lemma MarkedIsOccupied(b: Blocks, n: Links, p: Links, ext: seq<Extent>, i: nat, ptr: int)
    requires HeapOK(b, n, p, ext) && i < |ext| && ext[i].start <= ptr < ext[i].end && ptr in b && b[ptr].alive
    ensures InUse(b, ptr) && 0 < ptr < ADDRESS_SPACE
  {
  }

  lemma RemarkedPlaces(b: Blocks, b': Blocks, n: Links, p: Links, ext: seq<Extent>)
    requires Remarked(b, b') && HeapOK(b, n, p, ext)
    ensures HeapOK(b', n, p, ext)
    ensures forall x: Extent, ptr: int :: Boundary(b, x, ptr) ==> Boundary(b', x, ptr)
  {
    hide HeapOK;
    RemarkedShape(b, b');
    ShapeKeepsHeap(b, n, p, b', ext);
  }

  lemma PassShrinks(b: Blocks, b': Blocks)
    requires Remarked(b, b')
    ensures SomeFresh(b, b') ==> |Unmarked(b')| < |Unmarked(b)|
  {
    FewerUnmarked(b, b');
    if SomeFresh(b, b') {
      var a :| Fresh(b, b', a);
    }
  }

  lemma RootsStayMarked(b: Blocks, b': Blocks, roots: set<int>)
    requires Remarked(b, b') && RootsMarked(b, roots)
    ensures RootsMarked(b', roots)
  {
  }

  lemma RootRemarked(b: Blocks, b': Blocks, root: Root)
    requires Remarked(b, b') && RootOK(b, root)
    ensures RootOK(b', root) && RootSet(b', root) == RootSet(b, root)
  {
    RemarkedGraph(b, b');
  }

  lemma RootStep(b: Blocks, b': Blocks, roots: set<int>, more: set<int>, dropped0: set<int>, dropped: set<int>,
                 flag0: bool, flag: bool)
    requires Remarked(b, b') && RootsMarked(b, roots) && RootsMarked(b', more) && RootsMarked(b, dropped0)
    requires Progress(b, b', dropped0, dropped, flag0, flag) && (!flag0 ==> dropped0 == {})
    ensures RootsMarked(b', roots + more) && RootsMarked(b', dropped) && (!flag ==> dropped == {})
  {
  }

  /** The targets of a list of roots. */
  ghost function RootSets(b: Blocks, list: seq<Root>): set<int> {
    if list == [] then {} else RootSets(b, list[..|list| - 1]) + RootSet(b, list[|list| - 1])
  }

  // ----- Marks, roots and finalizers

  /** Before a collection only the event blocks are marked. */
  ghost predicate CleanMarks(b: Blocks) {
    forall a :: a in b ==> (b[a].alive <==> b[a].event && b[a].Occupied())
  }

  lemma CleanStart(b: Blocks)
    requires Graph(b) && CleanMarks(b)
    ensures Remarked(b, b) && WeakListed(b, []) && Traversal(b, {}, {}, [], Idle, -1)
  {
    assert [] + Idle.Grey() == [];
    hide Graph;
    forall a | InUse(b, a) && !b[a].event ensures !b[a].alive {
    }
  }

  /** The marks of `b` are the strong closure of the roots in `b0`. */
  ghost predicate ExactMarks(b0: Blocks, b: Blocks, roots: set<int>) {
    forall a :: InUse(b0, a) && !b0[a].event ==> a in b && (b[a].alive <==> Reachable(b0, roots, a))
  }

  ghost predicate RootsOK(b: Blocks, list: seq<Root>) {
    forall i :: 0 <= i < |list| ==> RootOK(b, list[i])
  }

  ghost predicate FinalizersOK(b: Blocks, objects: seq<Addr>) {
    forall i :: 0 <= i < |objects| ==> objects[i] != NULL && InUse(b, objects[i])
  }

  function Singles(objects: seq<Addr>): seq<Root> {
    seq(|objects|, i requires 0 <= i < |objects| => Single(objects[i]))
  }

  ghost function Members(objects: seq<Addr>): set<int> {
    set a | a in objects :: a as int
  }

  lemma MembersPush(roots: set<int>, objects: seq<Addr>, x: Addr)
    ensures roots + Members(objects) + {x as int} == roots + Members(objects + [x])
  {
    assert forall a :: a in objects + [x] <==> a in objects || a == x;
    forall a ensures a in Members(objects) + {x as int} <==> a in Members(objects + [x]) {
      if a in Members(objects + [x]) {
        assert exists y: Addr :: y in objects + [x] && y == a;
      }
    }
    assert Members(objects) + {x as int} == Members(objects + [x]);
  }

  lemma SingleRoot(b: Blocks, x: Addr)
    requires x != NULL && InUse(b, x)
    ensures RootOK(b, Single(x)) && RootSet(b, Single(x)) == {x as int}
  {
  }

  lemma SameDomain(b: Blocks, b': Blocks, a: int)
    requires Remarked(b, b') && a in b
    ensures a in b'
  {
  }

  /** An unmarked object was not reached when the marks were last exact. */
  lemma DeadIsUnreachable(b0: Blocks, b1: Blocks, b: Blocks, roots: set<int>, x: int)
    requires ExactMarks(b0, b1, roots) && Remarked(b1, b) && Remarked(b0, b) && InUse(b0, x)
    requires x in b && !b[x].alive && EventsMarked(b)
    ensures !Reachable(b0, roots, x)
  {
    assert b[x].event == b0[x].event;
  }

  // ----- The finalizers that move

  /** Of the entries decided so far, those that go or those that stay, in the order of the list. */
  ghost function Picked(list: seq<Addr>, goes: seq<bool>, which: bool): seq<Addr>
    requires |goes| <= |list|
  {
    if goes == [] then []
    else
      var n := |goes| - 1;
      Picked(list, goes[..n], which) + if goes[n] == which then [list[n]] else []
  }

  /** No root reaches the object.  Event blocks never die. */
  ghost predicate Dead(b: Blocks, roots: set<int>, x: Addr) {
    !(x in b && b[x].event) && !Reachable(b, roots, x)
  }

  /** One that stays has an object that the roots or the objects moved before it reach.  One that goes
    * has an object that the roots do not reach; if the marks are exact, neither do the objects moved
    * before it. */
  ghost predicate Judged(b: Blocks, roots: set<int>, before: seq<Addr>, x: Addr, going: bool, exact: bool) {
    && (going ==> Dead(b, roots, x))
    && (!going ==> !Dead(b, roots + Members(before), x))
    && (exact ==> (going <==> Dead(b, roots + Members(before), x)))
  }

  ghost predicate Decided(b: Blocks, roots: set<int>, list: seq<Addr>, goes: seq<bool>, exact: bool)
    requires |goes| <= |list|
  {
    forall i :: 0 <= i < |goes| ==> Judged(b, roots, Picked(list, goes[..i], true), list[i], goes[i], exact)
  }

  /** The list is gone through front to back; what goes and what stays keep their order. */
  ghost predicate FrontToBack(b: Blocks, roots: set<int>, list: seq<Addr>, moved: seq<Addr>, kept: seq<Addr>, exact: bool) {
    exists goes: seq<bool> :: SplitBy(b, roots, list, goes, moved, kept, exact)
  }

  ghost predicate SplitBy(b: Blocks, roots: set<int>, list: seq<Addr>, goes: seq<bool>, moved: seq<Addr>, kept: seq<Addr>,
                          exact: bool)
  {
    && |goes| == |list| && moved == Picked(list, goes, true) && kept == Picked(list, goes, false)
    && Decided(b, roots, list, goes, exact)
  }

  lemma DecidedLess(b: Blocks, roots: set<int>, list: seq<Addr>, goes: seq<bool>, exact: bool, exact': bool)
    requires |goes| <= |list| && Decided(b, roots, list, goes, exact) && (exact' ==> exact)
    ensures Decided(b, roots, list, goes, exact')
  {
    hide Dead, Picked;
  }

  /** Everything in front of the cursor `i` is decided, everything behind it is still there. */
  ghost predicate Halfway(b: Blocks, roots: set<int>, list: seq<Addr>, goes: seq<bool>, i: int, moved: seq<Addr>, alive: seq<Addr>,
                          exact: bool)
  {
    && |goes| <= |list| && i == |Picked(list, goes, false)| && moved == Picked(list, goes, true)
    && alive == Picked(list, goes, false) + list[|goes|..] && Decided(b, roots, list, goes, exact)
  }

  lemma HalfwayBegins(b: Blocks, roots: set<int>, list: seq<Addr>)
    ensures Halfway(b, roots, list, [], 0, [], list, true)
  {
    assert list == [] + list[0..];
  }

  lemma HalfwayStep(b: Blocks, roots: set<int>, list: seq<Addr>, goes: seq<bool>, i: nat, moved: seq<Addr>, alive: seq<Addr>,
                    exact: bool, going: bool)
    requires Halfway(b, roots, list, goes, i, moved, alive, exact) && i < |alive|
    requires Judged(b, roots, moved, alive[i], going, exact)
    ensures if going
            then Halfway(b, roots, list, goes + [true], i, moved + [alive[i]], alive[..i] + alive[i + 1..], exact)
            else Halfway(b, roots, list, goes + [false], i + 1, moved, alive, exact)
  {
    hide Judged, Picked, Decided;
    assert alive[i] == list[|goes|];
    PartingStep(b, roots, list, goes, going, exact);
    assert list[|goes|..] == [alive[i]] + list[|goes| + 1..];
  }

  lemma HalfwayLess(b: Blocks, roots: set<int>, list: seq<Addr>, goes: seq<bool>, i: int, moved: seq<Addr>, alive: seq<Addr>,
                    exact: bool, exact': bool)
    requires Halfway(b, roots, list, goes, i, moved, alive, exact) && (exact' ==> exact)
    ensures Halfway(b, roots, list, goes, i, moved, alive, exact')
  {
    hide Judged, Picked, Decided;
    DecidedLess(b, roots, list, goes, exact, exact');
  }

  lemma HalfwayEnds(b: Blocks, roots: set<int>, list: seq<Addr>, goes: seq<bool>, moved: seq<Addr>, alive: seq<Addr>, exact: bool)
    requires Halfway(b, roots, list, goes, |alive|, moved, alive, exact)
    ensures FrontToBack(b, roots, list, moved, alive, exact)
  {
    hide Judged, Picked, Decided;
    assert list[|goes|..] == [] && |goes| == |list|;
    assert SplitBy(b, roots, list, goes, moved, alive, exact);
  }

  lemma PartingStep(b: Blocks, roots: set<int>, list: seq<Addr>, goes: seq<bool>, going: bool, exact: bool)
    requires |goes| < |list| && Decided(b, roots, list, goes, exact)
    requires Judged(b, roots, Picked(list, goes, true), list[|goes|], going, exact)
    ensures Decided(b, roots, list, goes + [going], exact)
    ensures Picked(list, goes + [going], going) == Picked(list, goes, going) + [list[|goes|]]
    ensures Picked(list, goes + [going], !going) == Picked(list, goes, !going)
  {
    hide Judged;
    var more := goes + [going];
    assert more[..|goes|] == goes;
    forall i | 0 <= i < |more| ensures Judged(b, roots, Picked(list, more[..i], true), list[i], more[i], exact) {
      assert more[..i] == goes[..i];
      if i < |goes| {
        assert Judged(b, roots, Picked(list, goes[..i], true), list[i], goes[i], exact);
      } else {
        assert goes[..i] == goes;
      }
    }
  }

  /** Where exactness ends.  An object `a` was marked while the stack was full, no segment is to be had
    * and everything pending is data: the slots of `a` are given up, the rest of the traversal finds
    * nothing more, and `t` keeps looking dead although `a` refers to it.  A finalizer of `t` moves. */
  lemma OverflowHidesTarget(s: Stack, b: Blocks, roots: set<int>, a: Addr, t: Addr)
    requires s.Valid() && s.top.Full() && s.above == [] && forall c :: c in s.Pending() ==> c.Data?
    requires InUse(b, a) && b[a].alive && !b[a].event && StrongCells(b[a]) == [Ref(t), Data(0)]
    requires t != NULL && InUse(b, t) && !b[t].alive && !b[t].event
    requires Traversal(b, roots, {}, s.Pending(), Range(StrongCells(b[a])), a)
    ensures s.PushStep([Data(0)], 0) == (s, false)
    ensures Traversal(b, roots, {a}, [], Idle, -1) && !b[t].alive && Reachable(b, roots, t)
  {
    hide Reachable, PointersValid;
    DropRange(b, roots, {}, s.Pending(), StrongCells(b[a]), a);
    assert Edge(b, a, t);
    EdgeReachable(b, roots, a, t);
    assert [] + Idle.Grey() == [] && s.Pending() + Idle.Grey() == s.Pending();
    ClosedThrough(b, {} + {a}, s.Pending(), []);
    assert {} + {a} == {a};
  }

  lemma TakeOut(s: seq<Addr>, i: nat)
    requires i < |s|
    ensures multiset(s[..i] + s[i + 1..]) + multiset{s[i]} == multiset(s)
  {
    assert s == s[..i] + [s[i]] + s[i + 1..];
  }

  lemma StillMarked(b: Blocks, b': Blocks, objects: seq<Addr>, i: nat)
    requires Remarked(b, b') && i <= |objects|
    requires forall k :: 0 <= k < i ==> objects[k] in b && b[objects[k]].alive
    ensures forall k :: 0 <= k < i ==> objects[k] in b' && b'[objects[k]].alive
  {
  }

  lemma MarksStay(b: Blocks, b': Blocks)
    requires Remarked(b, b')
    ensures forall a :: a in b && b[a].alive ==> a in b' && b'[a].alive
  {
  }
}
