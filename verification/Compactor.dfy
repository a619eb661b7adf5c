/** The compactor itself: the loops that choose sources and destinations, and the pass that rewrites
  * every pointer. */
module CompactorLoop {
  import opened HeapModel
  import opened Clusters
  import opened Heap
  import opened Relocation
  import opened Compaction
  import opened CompactionGaps

  /** Where a compaction came from and what it did so far: `log[..k]` is flushed, the rest is in
    * the relocation table. */
  datatype Trace = Trace(h0: Blocks, roots0: seq<Addr>, org: map<int, Addr>, log: seq<Region>, k: nat)

  class Compactor {
    const mem: Memory
    const clusters: seq<HeapCluster>
    ghost const ext: seq<Extent>
    const table: RelocationTable
    var roots: seq<Addr>

    constructor (mem: Memory, clusters: seq<HeapCluster>, ghost ext: seq<Extent>, roots: seq<Addr>, total: nat)
      requires Wired(mem, clusters, ext) && 0 < total
      requires HeapOK(mem.blocks, mem.next, mem.prev, ext) && HoleFree(mem.blocks)
      ensures this.mem == mem && this.clusters == clusters && this.ext == ext && this.roots == roots
      ensures Valid() && fresh(table) && fresh(table.regions)
    {
      this.mem := mem;
      this.clusters := clusters;
      this.ext := ext;
      this.roots := roots;
      this.table := new RelocationTable(total);
    }

    ghost predicate Valid()
      reads this, mem
    {
      && Wired(mem, clusters, ext) && 0 < table.regions.Length
      && HeapOK(mem.blocks, mem.next, mem.prev, ext)
      && HoleFree(mem.blocks)
    }

    /** The compaction in progress corresponds to the trace; nothing at `cursor` or above has moved. */
    ghost predicate Follows(t: Trace, cursor: int)
      reads this, mem, table, table.regions
    {
      && Valid() && Apart(t.h0)
      && Tracks(t.h0, mem.blocks, t.org, t.log, t.k, cursor)
      && table.count <= table.regions.Length && table.regions[..table.count] == t.log[t.k..]
      && roots == RelocatedRoots(t.roots0, t.log[..t.k])
    }

    // ----- Rewriting pointers

    /** Heap_Relocate: rewrites every pointer by the table, then empties it. */
    method Flush()
      requires Valid() && table.Valid()
      modifies this`roots, mem`blocks, table
      ensures mem.blocks == RelocatedHeap(old(mem.blocks), old(table.regions[..table.count]))
      ensures roots == RelocatedRoots(old(roots), old(table.regions[..table.count]))
      ensures table.count == 0
    {
      ghost var regions := table.regions[..table.count];
      if table.count != 0 {
        table.ComputeBounds();
        RelocatePass();
        RelocateRoots();
        table.count := 0;
      } else {
        FlushNothing(mem.blocks, roots);
      }
    }

    /** Walks every block of every cluster. */
    method RelocatePass()
      requires Wired(mem, clusters, ext) && HeapOK(mem.blocks, mem.next, mem.prev, ext)
      requires table.Valid() && table.Bounded()
      modifies mem`blocks
      ensures mem.blocks == RelocatedHeap(old(mem.blocks), table.regions[..table.count])
    {
      hide HeapOK, RelocatedHeap, RelocatedBlock;
      ghost var b0, n, p, regions := mem.blocks, mem.next, mem.prev, table.regions[..table.count];
      PassStarts(b0, n, p, ext, regions);
      var i := 0;
      while i < |clusters|
        invariant 0 <= i <= |clusters|
        invariant mem.blocks == RelocatedBelow(b0, regions, PassStart(ext, i))
      {
        var ptr, end := clusters[i].payloadStart, clusters[i].payloadEnd;
        PassHead(b0, n, p, ext, regions, i, ptr);
        while ptr < end
          invariant ext[i].start <= ptr <= end && Boundary(b0, ext[i], ptr)
          invariant mem.blocks == RelocatedBelow(b0, regions, ptr)
          decreases end - ptr
        {
          PassStep(b0, n, p, ext, regions, i, ptr);
          RelocateBlock(ptr);
          RelocatedSize(b0[ptr], regions);
          ptr := ptr + mem.blocks[ptr].size;
        }
        i := i + 1;
      }
      PassEnds(b0, n, p, ext, regions);
    }

    /** Rewrites the slots of one block, if its data type has a relocation routine. */
    method RelocateBlock(ptr: int)
      requires ptr in mem.blocks && table.Valid() && table.Bounded()
      modifies mem`blocks
      ensures mem.blocks == old(mem.blocks)[ptr := RelocatedBlock(old(mem.blocks)[ptr], table.regions[..table.count])]
    {
      hide RelocatedCells, Sorted;
      ghost var b0, regions := mem.blocks, table.regions[..table.count];
      ghost var h := mem.blocks[ptr];
      assert b0[ptr := h] == b0;
      if !NotRelocated(mem.blocks[ptr].kind) {
        CellsDone(h.cells, regions);
        var i, len := 0, |mem.blocks[ptr].cells|;
        while i < len
          invariant 0 <= i <= len == |h.cells| && ptr in mem.blocks
          invariant mem.blocks == b0[ptr := h.(cells := CellsUpTo(h.cells, regions, i))]
        {
          CellStep(h.cells, regions, i);
          var cell := mem.blocks[ptr].cells[i];
          if cell.Ref? {
            var target := table.Relocate(cell.addr);
            mem.blocks := mem.blocks[ptr := mem.blocks[ptr].(cells := mem.blocks[ptr].cells[i := Ref(target)])];
          }
          i := i + 1;
        }
      }
    }

    method RelocateRoots()
      requires table.Valid() && table.Bounded()
      modifies this`roots
      ensures roots == RelocatedRoots(old(roots), table.regions[..table.count])
    {
      var i := 0;
      while i < |roots|
        invariant 0 <= i <= |roots| == |old(roots)|
        invariant forall j :: 0 <= j < i ==> roots[j] == Lookup(table.regions[..table.count], old(roots)[j])
        invariant forall j :: i <= j < |roots| ==> roots[j] == old(roots)[j]
      {
        var target := table.Relocate(roots[i]);
        roots := roots[i := target];
        i := i + 1;
      }
    }

    /** Heap_Relocate, seen as a step of the compaction. */
    method HeapRelocate(ghost t: Trace, ghost cursor: int) returns (ghost t': Trace)
      requires Follows(t, cursor)
      modifies this`roots, mem`blocks, table
      ensures t' == t.(k := |t.log|) && Follows(t', cursor) && table.count == 0
      ensures SameShape(old(mem.blocks), mem.blocks)
    {
      hide HeapOK, HoleFree, Tracks, Sorted, SameShape, RelocatedHeap, RelocatedRoots;
      TableIsSorted(t, mem.blocks, cursor);
      HeapRelocated(mem.blocks, mem.next, mem.prev, ext, t.log[t.k..]);
      TracksFlush(t.h0, mem.blocks, t.org, t.log, t.k, cursor);
      RootsFlush(t.roots0, t.log, t.k);
      Flush();
      t' := t.(k := |t.log|);
      assert t.log[..|t.log|] == t.log && t.log[|t.log|..] == [];
    }

    // ----- Choosing what to move

    /** The first cluster from `start` on that has a free block, and its first free block. */
    method FindFree(start: nat) returns (fi: nat, ptr: int)
      requires Valid() && start <= |clusters|
      ensures start <= fi <= |clusters|
      ensures fi < |clusters| ==> ext[fi].start <= ptr < ext[fi].end && IsFree(mem.blocks, ptr)
      ensures FirstFree(mem.blocks, ext, start, fi, ptr)
    {
      hide HeapOK;
      fi, ptr := start, 0;
      while fi < |clusters|
        invariant start <= fi <= |clusters|
        invariant forall i, a :: start <= i < fi && ext[i].start <= a < ext[i].end ==> !IsFree(mem.blocks, a)
      {
        FirstNode(mem.blocks, mem.next, mem.prev, ext, fi);
        ptr := mem.next[clusters[fi].payloadStart - 1];
        if ptr != clusters[fi].payloadEnd {
          return;
        }
        fi := fi + 1;
      }
    }

    method SkipUnmovable(ci: nat, start: int) returns (ptr: int)
      requires Valid() && ci < |clusters| && Boundary(mem.blocks, ext[ci], start)
      ensures start <= ptr && Boundary(mem.blocks, ext[ci], ptr)
      ensures ptr != ext[ci].end ==> ptr < ext[ci].end && ptr in mem.blocks && !mem.blocks[ptr].Unmovable()
      ensures forall a :: a in mem.blocks && start <= a < ptr ==> mem.blocks[a].Unmovable()
    {
      hide HeapOK, HoleFree;
      ptr := start;
      while ptr < clusters[ci].payloadEnd && mem.blocks[ptr].Unmovable()
        invariant start <= ptr && Boundary(mem.blocks, ext[ci], ptr)
        invariant forall a :: a in mem.blocks && start <= a < ptr ==> mem.blocks[a].Unmovable()
        decreases ext[ci].end - ptr
      {
        NextBoundary(mem.blocks, mem.next, mem.prev, ext, ci, ptr);
        ptr := ptr + mem.blocks[ptr].size;
      }
    }

    /** Moves the run `src .. src + move` down into the free block `freeRegion`, and puts what the
      * move leaves unused back on the free lists.  The next destination is the free block left
      * behind the run, or the next one on the list. */
    method MoveRun(fi: nat, freeRegion: int, ci: nat, src: int, move: int, rest: int, slide: bool) returns (next: int)
      requires Valid() && fi < |clusters| && ci < |clusters|
      requires ext[fi].start <= freeRegion < ext[fi].end && IsFree(mem.blocks, freeRegion)
      requires ext[ci].start <= src && MovableRun(mem.blocks, src, move) && Boundary(mem.blocks, ext[ci], src + move)
      requires freeRegion < src && freeRegion + mem.blocks[freeRegion].size <= src
      requires slide <==> freeRegion + mem.blocks[freeRegion].size == src
      requires rest == mem.blocks[freeRegion].size - (if slide then 0 else move) && 0 <= rest
      modifies mem
      ensures Valid()
      ensures RunMoved(old(mem.blocks), mem.blocks, freeRegion, src, move)
      ensures OnList(mem.blocks, ext[fi], next) && Nearest(old(mem.blocks), ext[fi], freeRegion, next)
      ensures src + move <= next ==> !slide && rest == 0
      ensures !slide && rest == 0 && fi == ci && OnlyFree(old(mem.blocks), freeRegion) ==> next == ext[fi].end
    {
      hide HeapOK, HoleFree, MovableRun, RunMoved, Memmoved, SameInUse, HolesAmong, OnList, ClusterOK, SameOutside, Filled, Boundary,
        Ordered, Nearest, OnlyFree;
      ghost var b0, n0, p0, cap := mem.blocks, mem.next, mem.prev, mem.blocks[freeRegion].size;
      SuccessorOnList(mem.blocks, mem.next, mem.prev, ext, fi, freeRegion);
      ClusterIn(mem.blocks, mem.next, mem.prev, ext, fi);
      next := mem.next[freeRegion];
      EndOfList(b0, ext[fi], freeRegion, next);
      clusters[fi].UnlinkFree(freeRegion);
      ghost var b1 := mem.blocks;
      UnlinkPhase(b0, n0, p0, mem.blocks, mem.next, mem.prev, ext, fi, freeRegion, next);
      RunInSameBlocks(b0, b1, ext[ci], freeRegion, src, move);
      MovePhase(mem.blocks, mem.next, mem.prev, ext, fi, freeRegion, cap, ci, src, move, next);

      mem.blocks := Memmoved(mem.blocks, freeRegion, mem.blocks[freeRegion].size, src, move);
      ghost var b2, n2, p2 := mem.blocks, mem.next, mem.prev;
      ghost var holes := if slide then {freeRegion + move} else if move < cap then {freeRegion + move, src} else {src};
      SameInUseReflexive(b2);
      DestinationInUse(b1, b2, freeRegion, src, move);
      if rest != 0 {
        ClusterIn(mem.blocks, mem.next, mem.prev, ext, fi);
        next := clusters[fi].InsertInOrder(freeRegion + move, rest);
        InsertPhase(b2, n2, p2, mem.blocks, mem.next, mem.prev, ext, fi, freeRegion + move, rest, next, holes);
        FilledAbove(b2, mem.blocks, ext[fi].start, ext[fi].end, freeRegion + move, rest, next, freeRegion);
        RestNearest(b0, ext[fi], freeRegion, cap, src, move, next);
        holes := holes - {freeRegion + move};
      }
      ghost var b3, n3, p3 := mem.blocks, mem.next, mem.prev;
      SameInUseReflexive(b3);
      if !slide {
        ClusterIn(mem.blocks, mem.next, mem.prev, ext, fi);
        ClusterIn(mem.blocks, mem.next, mem.prev, ext, ci);
        var dst := clusters[ci].InsertInOrder(src, move);
        InsertPhase(b3, n3, p3, mem.blocks, mem.next, mem.prev, ext, ci, src, move, dst, holes);
        StillOnList(b3, mem.blocks, ext, fi, ci, src, move, dst, next);
        FilledAbove(b3, mem.blocks, ext[ci].start, ext[ci].end, src, move, dst, freeRegion);
        if dst < next && next < dst + mem.blocks[dst].size {
          LowerNearest(b0, ext[fi], freeRegion, next, dst);
          next := dst;
        }
        holes := holes - {src};
      }
      MoveSummary(b0, b1, b2, b3, mem.blocks, freeRegion, src, move);
      NoHolesLeft(mem.blocks, holes);
    }

    /** All movable blocks from `src` on. */
    method MeasureSlide(ci: nat, src: int) returns (move: int)
      requires Valid() && ci < |clusters| && ext[ci].start <= src < ext[ci].end && src in mem.blocks
      requires !mem.blocks[src].Unmovable()
      ensures 0 < move && MovableRun(mem.blocks, src, move) && Boundary(mem.blocks, ext[ci], src + move)
    {
      hide HeapOK, HoleFree, MovableRun;
      var ptr := src;
      move := 0;
      while ptr < clusters[ci].payloadEnd && !mem.blocks[ptr].Unmovable()
        invariant ptr == src + move && Boundary(mem.blocks, ext[ci], ptr) && src <= ptr
        invariant ptr == src ==> ptr < ext[ci].end
        invariant forall a :: a in mem.blocks && src <= a < ptr ==> !mem.blocks[a].Unmovable()
        decreases ext[ci].end - ptr
      {
        NextBoundary(mem.blocks, mem.next, mem.prev, ext, ci, ptr);
        var len := mem.blocks[ptr].size;
        ptr := ptr + len;
        move := move + len;
      }
      RunBetween(mem.blocks, mem.next, mem.prev, ext, ci, src, ptr);
    }

    /** As many movable blocks from `src` on as fit into `room`. */
    method MeasureFit(ci: nat, src: int, room: int) returns (move: int, rest: int)
      requires Valid() && ci < |clusters| && ext[ci].start <= src < ext[ci].end && src in mem.blocks
      requires !mem.blocks[src].Unmovable() && 0 <= room
      ensures 0 <= move && 0 <= rest && move + rest == room
      ensures mem.blocks[src].size <= room ==> mem.blocks[src].size <= move
      ensures 0 < move ==> MovableRun(mem.blocks, src, move) && Boundary(mem.blocks, ext[ci], src + move)
    {
      hide HeapOK, HoleFree, MovableRun;
      var ptr := src;
      move, rest := 0, room;
      NextBoundary(mem.blocks, mem.next, mem.prev, ext, ci, src);
      while rest != 0 && ptr < clusters[ci].payloadEnd && !mem.blocks[ptr].Unmovable()
        invariant ptr == src + move && Boundary(mem.blocks, ext[ci], ptr) && src <= ptr
        invariant 0 <= rest && move + rest == room && (ptr == src || mem.blocks[src].size <= move)
        invariant forall a :: a in mem.blocks && src <= a < ptr ==> !mem.blocks[a].Unmovable()
        decreases ext[ci].end - ptr
      {
        NextBoundary(mem.blocks, mem.next, mem.prev, ext, ci, ptr);
        var len := mem.blocks[ptr].size;
        if rest < len {
          break;
        }
        rest := rest - len;
        ptr := ptr + len;
        move := move + len;
      }
      if 0 < move {
        RunBetween(mem.blocks, mem.next, mem.prev, ext, ci, src, ptr);
      }
    }

    /** How much to move from `src` into the free block, and how much of that block stays unused. */
    method Measure(fi: nat, freeRegion: int, ci: nat, src: int) returns (move: int, rest: int, slide: bool)
      requires Valid() && fi < |clusters| && ci < |clusters|
      requires ext[fi].start <= freeRegion < ext[fi].end && IsFree(mem.blocks, freeRegion) && freeRegion < src
      requires ext[ci].start <= src < ext[ci].end && src in mem.blocks && !mem.blocks[src].Unmovable()
      ensures freeRegion + mem.blocks[freeRegion].size <= src
      ensures slide <==> freeRegion + mem.blocks[freeRegion].size == src
      ensures rest == mem.blocks[freeRegion].size - (if slide then 0 else move) && 0 <= rest
      ensures move == 0 || (MovableRun(mem.blocks, src, move) && 0 < move)
      ensures slide ==> move != 0
      ensures !slide && mem.blocks[src].size == mem.blocks[freeRegion].size ==> 0 < move == mem.blocks[src].size
      ensures 0 <= move && Boundary(mem.blocks, ext[ci], src + move)
    {
      hide HeapOK, HoleFree, Tiled;
      NextBoundary(mem.blocks, mem.next, mem.prev, ext, fi, freeRegion);
      NextBoundary(mem.blocks, mem.next, mem.prev, ext, ci, src);
      rest := mem.blocks[freeRegion].size;
      slide := src == freeRegion + rest;
      if slide {
        move := MeasureSlide(ci, src);
      } else {
        move, rest := MeasureFit(ci, src, rest);
      }
    }

    /** One round of the inner loop: moves what fits and records it, or gives the free block up. */
    method Step(fi: nat, freeRegion: int, ci: nat, src: int, ghost t: Trace)
      returns (src': int, next: int, ghost t': Trace)
      requires Follows(t, src) && fi < |clusters| && ci < |clusters| && table.count < table.regions.Length
      requires ext[fi].start <= freeRegion < ext[fi].end && IsFree(mem.blocks, freeRegion) && freeRegion < src
      requires ext[ci].start <= src < ext[ci].end && src in mem.blocks && !mem.blocks[src].Unmovable()
      requires Tidy(t.h0, mem.blocks, ext, t.log, ci, src, freeRegion)
      modifies mem, table, table.regions
      ensures Follows(t', src') && Extends(t, t') && Boundary(mem.blocks, ext[ci], src')
      ensures src < src' || (src == src' && freeRegion < next)
      ensures OnList(mem.blocks, ext[fi], next)
      ensures Tidy(t'.h0, mem.blocks, ext, t'.log, ci, src', next)
      ensures FitStep(old(mem.blocks), ext, t.log, t'.log, fi, freeRegion, ci, src, next)
    {
      hide HeapOK, HoleFree, MovableRun, RunMoved, Tracks, Apart, Boundary, OnList, RelocatedRoots, Tidy, Nearest, Ahead,
        OnlyFree;
      ghost var b0, n0, p0 := mem.blocks, mem.next, mem.prev;
      TableIsSorted(t, b0, src);
      var move, rest, slide := Measure(fi, freeRegion, ci, src);
      if move != 0 {
        src' := SkipUnmovable(ci, src + move);
        RunBounds(b0, n0, p0, ext, fi, freeRegion, ci, src, move);
        next := MoveRun(fi, freeRegion, ci, src, move, rest, slide);
        SourceSurvives(b0, n0, p0, mem.blocks, ext, ci, freeRegion, src, move, src');
        ghost var org := TracksMove(t.h0, b0, mem.blocks, t.org, t.log, t.k, src, freeRegion, src, move);
        t' := t.(org := org, log := t.log + [RegionOf(freeRegion, src, move)]);
        TracksAhead(t.h0, mem.blocks, org, t'.log, t.k, src + move);
        StepTidy(t.h0, b0, n0, p0, mem.blocks, mem.next, mem.prev, ext, t.log, fi, freeRegion, ci, src, move, src', next);
        CursorUp(t', mem.blocks, src + move, src');
        Recorded(t, RegionOf(freeRegion, src, move), table.regions[..table.count]);
        table.regions[table.count] := RegionOf(freeRegion, src, move);
        table.count := table.count + 1;
        assert table.regions[..table.count] == t'.log[t'.k..];
      } else {
        SuccessorOnList(mem.blocks, mem.next, mem.prev, ext, fi, freeRegion);
        src', next, t' := src, mem.next[freeRegion], t;
        PassTidy(t.h0, b0, n0, p0, ext, t.log, ci, src, fi, freeRegion, next);
      }
    }

    /** The next movable block above the free block, with room in the table to record its move. */
    method NextSource(ci0: nat, src0: int, fi: nat, freeRegion: int, ghost t0: Trace)
      returns (ci: nat, src: int, found: bool, ghost t: Trace)
      requires Follows(t0, src0) && ci0 < |clusters| && Boundary(mem.blocks, ext[ci0], src0) && Target(fi, freeRegion)
      requires Tidy(t0.h0, mem.blocks, ext, t0.log, ci0, src0, freeRegion)
      modifies this`roots, mem`blocks, table
      ensures ci0 <= ci < |clusters| && src0 <= src && Follows(t, src) && Extends(t0, t) && Target(fi, freeRegion)
      ensures freeRegion <= src < ADDRESS_SPACE && Boundary(mem.blocks, ext[ci], src)
      ensures if found then Source(ci, src, freeRegion) else src == ext[ci].end
      ensures Tidy(t.h0, mem.blocks, ext, t.log, ci, src, freeRegion)
      ensures t.log == t0.log && (t0.log == [] ==> mem.blocks == old(mem.blocks))
      ensures forall a :: a in old(mem.blocks) && src0 <= a < src && freeRegion <= a ==> old(mem.blocks)[a].Unmovable()
    {
      hide HeapOK, HoleFree, Tracks, Apart, Boundary, RelocatedRoots, SameShape, Tidy;
      ci, src, t, found := ci0, src0, t0, true;
      BoundaryBelow(mem.blocks, mem.next, mem.prev, ext, ci, src);
      if src < freeRegion {
        TargetIsLater(mem.blocks, mem.next, mem.prev, ext, ci, src, fi, freeRegion);
        JumpTidy(t.h0, mem.blocks, ext, t.log, ci, src, fi, freeRegion);
        ci, src := fi, freeRegion;
      }
      ghost var from := src;
      src := SkipUnmovable(ci, src);
      SkipTidy(t.h0, mem.blocks, ext, t.log, ci, from, src, freeRegion);
      CursorUp(t, mem.blocks, src0, src);
      BoundaryBelow(mem.blocks, mem.next, mem.prev, ext, ci, src);
      if src == clusters[ci].payloadEnd {
        found := false;
      } else {
        SourceAboveTarget(mem.blocks, mem.next, mem.prev, ext, ci, src, fi, freeRegion);
        if table.count >= table.regions.Length {
          ghost var b := mem.blocks;
          assert 0 < |table.regions[..table.count]|;
          t := HeapRelocate(t, src);
          ShapeKeepsPlaces(b, mem.blocks, ext[ci], freeRegion, src);
          ShapeTidy(t.h0, b, mem.blocks, ext, t.log, ci, src, freeRegion);
        }
      }
    }

    ghost predicate Source(ci: nat, src: int, freeRegion: int)
      requires |clusters| == |ext|
      reads this, mem, table
    {
      && ci < |clusters| && freeRegion < src && table.count < table.regions.Length
      && ext[ci].start <= src < ext[ci].end && src in mem.blocks && !mem.blocks[src].Unmovable()
    }

    /** The inner loop, from the first block of cluster `ci` on, while there is a free block below
      * the source to move into. */
    method CompactFrom(ci0: nat, fi0: nat, freeRegion0: int, ghost t0: Trace, ghost cursor0: int)
      returns (ci: nat, fi: nat, freeRegion: int, located: bool, ghost t: Trace, ghost cursor: int)
      requires Follows(t0, cursor0) && ci0 < |clusters| && cursor0 <= ext[ci0].start
      requires Target(fi0, freeRegion0) && TidyBelow(t0.h0, mem.blocks, ext, t0.log, freeRegion0 + 1)
      requires TidyBelow(t0.h0, mem.blocks, ext, t0.log, ext[ci0].start)
      modifies this`roots, mem, table, table.regions
      ensures ci0 <= ci < |clusters| && Follows(t, cursor) && Extends(t0, t)
      ensures ci + 1 < |clusters| ==> cursor <= ext[ci + 1].start
      ensures located ==> Target(fi, freeRegion) && TidyBelow(t.h0, mem.blocks, ext, t.log, freeRegion + 1)
      ensures located && ci + 1 < |clusters| ==> TidyBelow(t.h0, mem.blocks, ext, t.log, ext[ci + 1].start)
      ensures !located || ci + 1 == |clusters| ==> Compacted(t.h0, mem.blocks, ext, t.log)
      ensures t0.log == [] && old(mem.blocks) == t0.h0 ==> MovesFit(t.h0, ext, t.log)
    {
      hide HeapOK, HoleFree, Tracks, Apart, Boundary, RelocatedRoots, SameShape, Tidy, TidyBelow, Compacted, Nearest, OnList,
        OneFit, AwaitsFit, AtFit, MovesFit;
      ghost var first := t0.log == [] && mem.blocks == t0.h0;
      ci, fi, freeRegion, located, t := ci0, fi0, freeRegion0, true, t0;
      var src := clusters[ci].payloadStart;
      PassHead(mem.blocks, mem.next, mem.prev, ext, [], ci, src);
      CursorUp(t, mem.blocks, cursor0, src);
      EnterTidy(t.h0, mem.blocks, ext, t.log, ci, freeRegion);
      FitAhead(t.h0, mem.blocks, mem.next, mem.prev, ext, t.log, ci);
      while true
        invariant ci0 <= ci < |clusters| && Target(fi, freeRegion) && located
        invariant Follows(t, src) && Extends(t0, t) && Boundary(mem.blocks, ext[ci], src)
        invariant Tidy(t.h0, mem.blocks, ext, t.log, ci, src, freeRegion)
        invariant first ==> AwaitsFit(t.h0, mem.blocks, ext, t.log, src)
        decreases ADDRESS_SPACE - src, |clusters| - fi, ADDRESS_SPACE - freeRegion
      {
        var found;
        ghost var b, from := mem.blocks, src;
        ci, src, found, t := NextSource(ci, src, fi, freeRegion, t);
        if first {
          FitReached(t.h0, b, mem.blocks, mem.next, mem.prev, ext, t.log, freeRegion, from, ci, src, found);
        }
        if !found {
          ClusterTidy(t.h0, mem.blocks, mem.next, mem.prev, ext, t.log, ci, freeRegion);
          break;
        }
        src, fi, freeRegion, located, t := StepOn(fi, freeRegion, ci, src, t, first);
        if !located {
          break;
        }
      }
      cursor := src;
      BoundaryBelow(mem.blocks, mem.next, mem.prev, ext, ci, src);
    }

    /** One round of the inner loop up to the choice of the next free block. */
    method StepOn(fi0: nat, freeRegion0: int, ci: nat, src0: int, ghost t0: Trace, ghost first: bool)
      returns (src: int, fi: nat, freeRegion: int, located: bool, ghost t: Trace)
      requires Follows(t0, src0) && Source(ci, src0, freeRegion0) && Target(fi0, freeRegion0)
      requires Tidy(t0.h0, mem.blocks, ext, t0.log, ci, src0, freeRegion0)
      requires first ==> AtFit(t0.h0, mem.blocks, ext, t0.log, freeRegion0, src0)
      modifies mem, table, table.regions
      ensures Follows(t, src) && Extends(t0, t) && Boundary(mem.blocks, ext[ci], src)
      ensures located ==> Target(fi, freeRegion) && Tidy(t.h0, mem.blocks, ext, t.log, ci, src, freeRegion)
      ensures located ==> src0 < src || (src0 == src && (fi0 < fi || (fi0 == fi && freeRegion0 < freeRegion)))
      ensures !located ==> Compacted(t.h0, mem.blocks, ext, t.log)
      ensures first ==> if located then AwaitsFit(t.h0, mem.blocks, ext, t.log, src) else MovesFit(t.h0, ext, t.log)
    {
      hide HeapOK, HoleFree, Tracks, Apart, Boundary, RelocatedRoots, SameShape, Tidy, Compacted, Nearest, OnList,
        OneFit, AwaitsFit, AtFit, MovesFit, FitStep;
      ghost var b := mem.blocks;
      var next: int;
      src, next, t := Step(fi0, freeRegion0, ci, src0, t0);
      if first {
        FitMoved(t.h0, b, mem.blocks, ext, t0.log, t.log, fi0, freeRegion0, ci, src0, src, next);
      }
      fi, freeRegion, located := NextFree(fi0, next, ci, src, t);
    }

    /** The next free block on the list, or the first one of a later cluster. */
    method NextFree(fi0: nat, next: int, ghost ci: nat, ghost src: int, ghost t: Trace)
      returns (fi: nat, freeRegion: int, located: bool)
      requires Valid() && fi0 < |clusters| && OnList(mem.blocks, ext[fi0], next)
      requires Tidy(t.h0, mem.blocks, ext, t.log, ci, src, next)
      ensures located ==> Target(fi, freeRegion) && Tidy(t.h0, mem.blocks, ext, t.log, ci, src, freeRegion)
      ensures !located ==> Compacted(t.h0, mem.blocks, ext, t.log) && next == ext[fi0].end
      ensures if next != ext[fi0].end then located && fi == fi0 && freeRegion == next else fi0 < fi && (located ==> fi0 + 1 < |ext|)
    {
      hide HeapOK, HoleFree, Tidy, Compacted, FirstFree;
      fi, freeRegion, located := fi0, next, true;
      if next == clusters[fi0].payloadEnd {
        fi, freeRegion := FindFree(fi0 + 1);
        NextListTidy(t.h0, mem.blocks, mem.next, mem.prev, ext, t.log, ci, src, fi0, fi, freeRegion);
        located := fi != |clusters|;
      }
    }

    /** A free block of the given cluster. */
    ghost predicate Target(fi: nat, freeRegion: int)
      requires |clusters| == |ext|
      reads mem
    {
      fi < |clusters| && ext[fi].start <= freeRegion < ext[fi].end && IsFree(mem.blocks, freeRegion)
    }

    /** Heap_Compact.  The inner loop moves one run at a time down into the current free block; the
      * outer one restarts it at the next cluster.  Whatever the loops choose, the object graph
      * survives. */
    method HeapCompact() returns (ghost log: seq<Region>)
      requires Valid()
      modifies this`roots, mem, table, table.regions
      ensures Valid() && table.count == 0
      ensures GraphPreserved(old(mem.blocks), old(roots), mem.blocks, roots, log)
      ensures Compacted(old(mem.blocks), mem.blocks, ext, log)
      ensures FreeInFront(old(mem.blocks), mem.blocks, ext, log)
      ensures forall i :: 0 <= i < |ext| && AllMovable(old(mem.blocks), ext[i]) ==> FreeAtEnd(mem.blocks, ext[i])
      ensures MovesFit(old(mem.blocks), ext, log)
    {
      hide HeapOK, HoleFree, Tracks, Apart, RelocatedRoots, GraphPreserved, Compacted, TidyBelow, FirstFree, SameShape,
        OneFit, MovesFit, FreeInFront, AllMovable, FreeAtEnd;
      table.count := 0;
      ghost var t0 := TraceStart();
      ghost var cursor := 0;
      ghost var t := t0;
      var ci, fi, freeRegion, located := 0, 0, 0, false;
      HeadersAreAboveZero(mem.blocks, mem.next, mem.prev, ext);
      TidyStart(mem.blocks, mem.next, mem.prev, ext);
      while ci < |clusters|
        invariant 0 <= ci <= |clusters| && Follows(t, cursor) && Extends(t0, t)
        invariant ci < |clusters| ==> cursor <= ext[ci].start
        invariant located ==> Target(fi, freeRegion) && TidyBelow(t.h0, mem.blocks, ext, t.log, freeRegion + 1)
        invariant if ci < |clusters| then TidyBelow(t.h0, mem.blocks, ext, t.log, ext[ci].start)
                  else Compacted(t.h0, mem.blocks, ext, t.log)
        invariant if ci == 0 then t.log == [] && mem.blocks == t.h0 && !located else ci == 1 ==> MovesFit(t.h0, ext, t.log)
      {
        if !located {
          fi, freeRegion := FindFree(0);
          FirstTidy(t.h0, mem.blocks, mem.next, mem.prev, ext, t.log, ext[ci].start, fi, freeRegion);
          if ci == 0 {
            NothingFits(t.h0, mem.next, mem.prev, ext, t.log, fi, freeRegion);
          }
          if fi == |clusters| {
            break;
          }
        }
        ci, fi, freeRegion, located, t, cursor := CompactFrom(ci, fi, freeRegion, t, cursor);
        if !located && ci + 1 < |clusters| {
          DoneTidy(t.h0, mem.blocks, ext, t.log, ext[ci + 1].start);
        }
        ci := ci + 1;
      }
      if |clusters| != 1 {
        ManyClusters(t.h0, ext, t.log);
      }
      if table.count != 0 {
        ghost var b := mem.blocks;
        t := HeapRelocate(t, cursor);
        ShapeTidy(t.h0, b, mem.blocks, ext, t.log, 0, 0, 0);
      }
      TraceEnd(t, cursor);
      log := t.log;
      CompactedFree(t.h0, mem.blocks, mem.next, mem.prev, ext, log);
      forall i | 0 <= i < |ext| && AllMovable(t.h0, ext[i]) ensures FreeAtEnd(mem.blocks, ext[i]) {
        MovableClusters(t.h0, t.roots0, mem.blocks, mem.next, mem.prev, roots, ext, log, i);
      }
    }

    lemma TraceStart() returns (t: Trace)
      requires Valid() && table.count == 0
      ensures Follows(t, 0) && t.h0 == mem.blocks && t.roots0 == roots && t.log == []
    {
      hide HeapOK, HoleFree, Tracks, Lookup;
      HeapApart(mem.blocks, mem.next, mem.prev, ext);
      TracksStart(mem.blocks);
      FlushNothing(mem.blocks, roots);
      t := Trace(mem.blocks, roots, map x | x in mem.blocks :: x as Addr, [], 0);
    }

    lemma TraceEnd(t: Trace, cursor: int)
      requires Follows(t, cursor) && table.count == 0
      ensures GraphPreserved(t.h0, t.roots0, mem.blocks, roots, t.log)
    {
      hide HeapOK, HoleFree, Tracks, Apart, RelocatedRoots, GraphPreserved;
      TableIsSorted(t, mem.blocks, cursor);
      assert t.k == |t.log| && t.log[..t.k] == t.log;
      TracksEnd(t.h0, t.roots0, mem.blocks, t.org, t.log, cursor);
    }
  }

  // ----- The phases of one move

  lemma UnlinkPhase(b: Blocks, n: Links, p: Links, b': Blocks, n': Links, p': Links, ext: seq<Extent>, i: nat,
                    f: int, next: int)
    requires HeapOK(b, n, p, ext) && HoleFree(b) && i < |ext| && ext[i].start <= f < ext[i].end && IsFree(b, f)
    requires f in n && next == n[f]
    requires ClusterOK(b', n', p', ext[i].start, ext[i].end) && b' == b[f := HoleHeader(b[f].size)]
    requires SameOutside(b, n, p, b', n', p', ext[i].start, ext[i].end)
    ensures HeapOK(b', n', p', ext) && SameInUse(b, b') && HolesAmong(b', {f}) && OnList(b', ext[i], next)
    ensures 0 < b[f].size && f + b[f].size <= ext[i].end && forall a :: a in b && f < a ==> f + b[f].size <= a
  {
    HeapStep(b, n, p, b', n', p', ext, i);
    SuccessorOnList(b, n, p, ext, i, f);
    hide HeapOK, ClusterOK, SameOutside;
    UnlinkEffects(b, f, ext[i], next);
    NextBoundary(b, n, p, ext, i, f);
  }

  lemma SuccessorOnList(b: Blocks, n: Links, p: Links, ext: seq<Extent>, i: nat, f: int)
    requires HeapOK(b, n, p, ext) && i < |ext| && ext[i].start <= f < ext[i].end && IsFree(b, f)
    ensures f in n && f < n[f] && OnList(b, ext[i], n[f]) && Nearest(b, ext[i], f, n[f])
  {
    NextIsNearest(FreeSet(b, ext[i].start, ext[i].end), n, p, ext[i].start, ext[i].end, f);
    assert forall a :: IsFree(b, a) && f < a < ext[i].end ==> a in FreeSet(b, ext[i].start, ext[i].end);
  }

  lemma InsertPhase(b: Blocks, n: Links, p: Links, b': Blocks, n': Links, p': Links, ext: seq<Extent>, i: nat,
                    node: int, size: int, res: int, holes: set<int>)
    requires HeapOK(b, n, p, ext) && HolesAmong(b, holes) && i < |ext|
    requires node in b && b[node] == HoleHeader(size) && ext[i].start <= node < ext[i].end
    requires ClusterOK(b', n', p', ext[i].start, ext[i].end)
    requires SameOutside(b, n, p, b', n', p', ext[i].start, ext[i].end)
    requires Filled(b, b', ext[i].start, ext[i].end, node, size, res)
    ensures HeapOK(b', n', p', ext) && SameInUse(b, b') && HolesAmong(b', holes - {node}) && OnList(b', ext[i], res)
    ensures res in b' && ext[i].start <= res < res + b'[res].size <= ext[i].end
    ensures forall a :: a in b && b[a].kind.Hole? && a != node ==> a in b' && b'[a] == b[a]
  {
    HeapStep(b, n, p, b', n', p', ext, i);
    hide ClusterOK, SameOutside;
    NextBoundary(b, n, p, ext, i, node);
    hide HeapOK;
    FilledEffects(b, b', ext[i].start, ext[i].end, node, size, res, holes);
    NextBoundary(b', n', p', ext, i, res);
  }

  /** A free block found earlier survives a later insertion or is swallowed by the new one. */
  lemma StillOnList(b: Blocks, b': Blocks, ext: seq<Extent>, fi: nat, ci: nat, node: int, size: int, res: int, next: int)
    requires Ordered(ext) && fi < |ext| && ci < |ext| && OnList(b, ext[fi], next)
    requires res in b' && ext[ci].start <= res < res + b'[res].size <= ext[ci].end && ext[fi].start <= ext[fi].end
    requires Filled(b, b', ext[ci].start, ext[ci].end, node, size, res)
    ensures OnList(b', ext[fi], if res < next < res + b'[res].size then res else next)
  {
    assert fi < ci ==> ext[fi].end + 1 < ext[ci].start;
    assert ci < fi ==> ext[ci].end + 1 < ext[fi].start;
  }

  lemma MovePhase(b: Blocks, n: Links, p: Links, ext: seq<Extent>, fi: nat, dst: int, cap: int, ci: nat, src: int, len: int,
                  next: int)
    requires HeapOK(b, n, p, ext) && HolesAmong(b, {dst}) && fi < |ext| && ci < |ext|
    requires ext[fi].start <= dst < ext[fi].end && dst in b && b[dst] == HoleHeader(cap)
    requires ext[ci].start <= src && MovableRun(b, src, len) && Boundary(b, ext[ci], src + len)
    requires dst + cap <= src && (dst + cap == src || len <= cap)
    requires OnList(b, ext[fi], next)
    ensures var b' := Memmoved(b, dst, cap, src, len);
      && HeapOK(b', n, p, ext) && RunMoved(b, b', dst, src, len) && OnList(b', ext[fi], next)
      && (dst + cap == src ==> HolesAmong(b', {dst + len}) && dst + len in b' && b'[dst + len] == HoleHeader(cap))
      && (dst + cap != src ==> HolesAmong(b', if len < cap then {dst + len, src} else {src}))
      && (dst + cap != src ==> src in b' && b'[src] == HoleHeader(len))
      && (dst + cap != src && len < cap ==> dst + len in b' && b'[dst + len] == HoleHeader(cap - len))
      && 0 < cap && 0 < len && (len < cap || dst + cap == src ==> dst + len < ext[fi].end) && src + len <= ext[ci].end
  {
    hide HeapOK, Memmoved, RunMoved;
    if dst + cap == src {
      SameCluster(b, n, p, ext, fi, dst, cap, ci, src);
    }
    HoleEndsInside(b, n, p, ext, fi, dst, cap);
    MemmoveKeepsHeap(b, n, p, ext, fi, dst, cap, ci, src, len);
    MemmoveMovesRun(b, dst, cap, src, len);
    MemmovedFree(b, dst, cap, src, len);
  }

  lemma EndOfList(b: Blocks, x: Extent, f: int, next: int)
    requires OnList(b, x, next) && Nearest(b, x, f, next)
    ensures OnlyFree(b, f) ==> next == x.end
  {
  }

  lemma DestinationInUse(b: Blocks, b': Blocks, dst: int, src: int, len: int)
    requires MovableRun(b, src, len) && RunMoved(b, b', dst, src, len)
    ensures InUse(b', dst)
  {
    assert InUse(b, src);
    assert Plus(src, dst - src) == dst;
  }

  lemma FilledAbove(b: Blocks, b': Blocks, s: int, e: int, node: int, size: int, res: int, f: int)
    requires Filled(b, b', s, e, node, size, res) && SameInUse(b, b') && InUse(b, f) && f < node && 0 < size
    ensures InUse(b', f) && f < res <= node
  {
    hide Contents;
    assert InUse(b', f);
  }

  /** What a run leaves of the free block comes before the free blocks behind it. */
  lemma RestNearest(b: Blocks, x: Extent, f: int, cap: int, src: int, len: int, next: int)
    requires MovableRun(b, src, len) && (forall a :: a in b && f < a ==> f + cap <= a)
    requires 0 < cap && (f + cap == src || len <= cap)
    requires f < next <= f + len && next <= x.end
    ensures Nearest(b, x, f, next)
  {
    hide Tiled;
    forall y | IsFree(b, y) && f < y < x.end ensures next <= y {
      assert !(src <= y < src + len);
    }
  }

  lemma LowerNearest(b: Blocks, x: Extent, f: int, next: int, lower: int)
    requires Nearest(b, x, f, next) && f < lower < next
    ensures Nearest(b, x, f, lower)
  {
  }

  lemma MoveSummary(b0: Blocks, b1: Blocks, b2: Blocks, b3: Blocks, b4: Blocks, dst: int, src: int, len: int)
    requires SameInUse(b0, b1) && RunMoved(b1, b2, dst, src, len) && SameInUse(b2, b3) && SameInUse(b3, b4)
    ensures RunMoved(b0, b4, dst, src, len)
  {
    SameInUseTransitive(b2, b3, b4);
    RunMovedFrom(b0, b1, b2, dst, src, len);
    RunMovedTo(b0, b2, b4, dst, src, len);
  }

  lemma SameInUseTransitive(b: Blocks, b': Blocks, b'': Blocks)
    requires SameInUse(b, b') && SameInUse(b', b'')
    ensures SameInUse(b, b'')
  {
  }

  lemma RunMovedFrom(b0: Blocks, b1: Blocks, b: Blocks, dst: int, src: int, len: int)
    requires SameInUse(b0, b1) && RunMoved(b1, b, dst, src, len)
    ensures RunMoved(b0, b, dst, src, len)
  {
    forall a | InUse(b0, a) ensures InUse(b, if src <= a < src + len then Plus(a, dst - src) else a) {
      assert InUse(b1, a);
    }
  }

  lemma RunMovedTo(b: Blocks, b1: Blocks, b2: Blocks, dst: int, src: int, len: int)
    requires RunMoved(b, b1, dst, src, len) && SameInUse(b1, b2)
    ensures RunMoved(b, b2, dst, src, len)
  {
    forall a | InUse(b, a) ensures InUse(b2, if src <= a < src + len then Plus(a, dst - src) else a) {
      assert InUse(b1, if src <= a < src + len then Plus(a, dst - src) else a);
    }
  }

  lemma SameInUseReflexive(b: Blocks)
    ensures SameInUse(b, b)
  {
  }

  lemma NoHolesLeft(b: Blocks, holes: set<int>)
    requires HolesAmong(b, holes) && holes == {}
    ensures HoleFree(b)
  {
  }

  lemma ClusterIn(b: Blocks, n: Links, p: Links, ext: seq<Extent>, i: nat)
    requires HeapOK(b, n, p, ext) && i < |ext|
    ensures ClusterOK(b, n, p, ext[i].start, ext[i].end) && Ordered(ext) && ext[i].start <= ext[i].end
  {
  }

  lemma RunInSameBlocks(b: Blocks, b': Blocks, x: Extent, f: int, src: int, len: int)
    requires MovableRun(b, src, len) && Boundary(b, x, src + len) && f < src && f in b
    requires b' == b[f := HoleHeader(b[f].size)]
    ensures MovableRun(b', src, len) && Boundary(b', x, src + len)
  {
    TiledFrame(b, b', src, src + len);
  }

  // ----- Facts about the heap that the loops use

  lemma BoundaryBelow(b: Blocks, n: Links, p: Links, ext: seq<Extent>, ci: nat, src: int)
    requires HeapOK(b, n, p, ext) && ci < |ext| && Boundary(b, ext[ci], src)
    ensures ext[ci].start <= src <= ext[ci].end < ADDRESS_SPACE
    ensures ci + 1 < |ext| ==> src <= ext[ci + 1].start
  {
    hide ClusterOK;
    ClusterShape(b, n, p, ext, ci);
    if ci + 1 < |ext| {
      assert ext[ci].end + 1 < ext[ci + 1].start;
    }
  }

  /** Moving only backward: a free block above the source is in the same or a later cluster. */
  lemma TargetIsLater(b: Blocks, n: Links, p: Links, ext: seq<Extent>, ci: nat, src: int, fi: nat, f: int)
    requires HeapOK(b, n, p, ext) && ci < |ext| && fi < |ext|
    requires ext[ci].start <= src < f && ext[fi].start <= f < ext[fi].end && f in b
    ensures ci <= fi && Boundary(b, ext[fi], f)
  {
    var target, source := ext[fi], ext[ci];
    if fi < ci { assert false; }
  }

  lemma SourceAboveTarget(b: Blocks, n: Links, p: Links, ext: seq<Extent>, ci: nat, src: int, fi: nat, f: int)
    requires HeapOK(b, n, p, ext) && ci < |ext| && fi < |ext| && f <= src
    requires ext[fi].start <= f < ext[fi].end && IsFree(b, f)
    requires Boundary(b, ext[ci], src) && src != ext[ci].end && !b[src].Unmovable()
    ensures f < src && src in b && ext[ci].start <= src < ext[ci].end
  {
    if f == src {
      hide HeapOK;
      HeadersAt(b, n, p, ext, fi, f);
    }
  }

  lemma ShapeKeepsPlaces(b: Blocks, b': Blocks, x: Extent, f: int, src: int)
    requires SameShape(b, b') && IsFree(b, f) && src in b && !b[src].Unmovable() && Boundary(b, x, src)
    ensures Boundary(b', x, src) && IsFree(b', f) && src in b' && !b'[src].Unmovable()
  {
  }

  lemma HeadersAreAboveZero(b: Blocks, n: Links, p: Links, ext: seq<Extent>)
    requires HeapOK(b, n, p, ext)
    ensures forall i :: 0 <= i < |ext| ==> 0 < ext[i].start
  {
  }


  /** A later trace of the same compaction. */
  ghost predicate Extends(t: Trace, t': Trace) {
    t'.h0 == t.h0 && t'.roots0 == t.roots0
  }

  lemma RunBounds(b: Blocks, n: Links, p: Links, ext: seq<Extent>, fi: nat, f: int, ci: nat, src: int, len: int)
    requires HeapOK(b, n, p, ext) && fi < |ext| && ci < |ext|
    requires ext[fi].start <= f && ext[ci].start <= src && Boundary(b, ext[ci], src + len)
    requires f < src && 0 < len
    ensures 0 <= f && src + len <= ADDRESS_SPACE
  {
    hide HeapOK;
    ClusterShape(b, n, p, ext, fi);
    ClusterShape(b, n, p, ext, ci);
  }

  /** The next source lies above the run and is not free, so the move leaves it alone. */
  lemma SourceSurvives(b: Blocks, n: Links, p: Links, b': Blocks, ext: seq<Extent>, ci: nat,
                       dst: int, src: int, len: int, ptr: int)
    requires HeapOK(b, n, p, ext) && ci < |ext| && Boundary(b, ext[ci], ptr) && RunMoved(b, b', dst, src, len)
    requires src + len <= ptr && (ptr < ext[ci].end ==> !b[ptr].Unmovable())
    ensures Boundary(b', ext[ci], ptr)
  {
    hide HeapOK;
    if ptr != ext[ci].end {
      HeadersAt(b, n, p, ext, ci, ptr);
      assert InUse(b, ptr);
    }
  }

  lemma CursorUp(t: Trace, b: Blocks, low: int, high: int)
    requires Tracks(t.h0, b, t.org, t.log, t.k, low) && low <= high
    ensures Tracks(t.h0, b, t.org, t.log, t.k, high)
  {
  }

  lemma Recorded(t: Trace, r: Region, entries: seq<Region>)
    requires t.k <= |t.log| && entries == t.log[t.k..]
    ensures (t.log + [r])[t.k..] == entries + [r] && (t.log + [r])[..t.k] == t.log[..t.k]
  {
  }


  lemma TableIsSorted(t: Trace, b: Blocks, cursor: int)
    requires Tracks(t.h0, b, t.org, t.log, t.k, cursor)
    ensures t.k <= |t.log| && Sorted(t.log[t.k..]) && Sorted(t.log) && Downwards(t.log)
  {
  }

  lemma HeapRelocated(b: Blocks, n: Links, p: Links, ext: seq<Extent>, regions: seq<Region>)
    requires HeapOK(b, n, p, ext) && HoleFree(b)
    ensures var b' := RelocatedHeap(b, regions);
      HeapOK(b', n, p, ext) && HoleFree(b') && SameShape(b, b')
  {
    hide HeapOK, RelocatedCells;
    ShapeKeepsHeap(b, n, p, RelocatedHeap(b, regions), ext);
  }

  lemma FirstNode(b: Blocks, n: Links, p: Links, ext: seq<Extent>, i: nat)
    requires HeapOK(b, n, p, ext) && i < |ext|
    ensures ext[i].start - 1 in n && OnList(b, ext[i], n[ext[i].start - 1])
    ensures forall a :: IsFree(b, a) && ext[i].start <= a < ext[i].end ==> n[ext[i].start - 1] <= a
  {
    NextIsNearest(FreeSet(b, ext[i].start, ext[i].end), n, p, ext[i].start, ext[i].end, ext[i].start - 1);
    assert forall a :: IsFree(b, a) && ext[i].start <= a < ext[i].end ==> a in FreeSet(b, ext[i].start, ext[i].end);
  }

  lemma RunBetween(b: Blocks, n: Links, p: Links, ext: seq<Extent>, i: nat, src: int, ptr: int)
    requires HeapOK(b, n, p, ext) && i < |ext| && src in b && ext[i].start <= src < ptr && Boundary(b, ext[i], ptr)
    requires forall a :: a in b && src <= a < ptr ==> !b[a].Unmovable()
    ensures MovableRun(b, src, ptr - src)
  {
    hide HeapOK, Tiled;
    ClusterShape(b, n, p, ext, i);
    TiledSuffix(b, ext[i].start, src, ext[i].end);
    if ptr < ext[i].end {
      TiledSplit(b, src, ptr, ext[i].end);
    }
    forall a | a in b && src <= a < ptr ensures b[a].Occupied() {
      HeadersAt(b, n, p, ext, i, a);
    }
  }

  lemma HeadersAt(b: Blocks, n: Links, p: Links, ext: seq<Extent>, i: nat, a: int)
    requires HeapOK(b, n, p, ext) && i < |ext| && ext[i].start <= a < ext[i].end && a in b && !b[a].Unmovable()
    ensures b[a].Occupied()
  {
  }

  // ----- The pass over the heap

  ghost function RelocatedBelow(b: Blocks, regions: seq<Region>, limit: int): Blocks {
    map a | a in b :: if a < limit then RelocatedBlock(b[a], regions) else b[a]
  }

  /** A block's slots while the first `i` of them are rewritten. */
  ghost function CellsUpTo(cells: seq<Cell>, regions: seq<Region>, i: nat): seq<Cell> {
    seq(|cells|, j requires 0 <= j < |cells| => if j < i then RelocatedCell(cells[j], regions) else cells[j])
  }

  lemma CellsDone(cells: seq<Cell>, regions: seq<Region>)
    ensures CellsUpTo(cells, regions, 0) == cells
    ensures CellsUpTo(cells, regions, |cells|) == RelocatedCells(cells, regions)
  {
  }

  lemma CellStep(cells: seq<Cell>, regions: seq<Region>, i: nat)
    requires i < |cells|
    ensures var now, next := CellsUpTo(cells, regions, i), CellsUpTo(cells, regions, i + 1);
      && now[i] == cells[i]
      && next == (if cells[i].Ref? then now[i := Ref(Lookup(regions, cells[i].addr))] else now)
  {
  }

  lemma RelocatedSize(h: Block, regions: seq<Region>)
    ensures RelocatedBlock(h, regions).size == h.size
  {
  }

  lemma FlushNothing(b: Blocks, roots: seq<Addr>)
    ensures RelocatedHeap(b, []) == b && RelocatedRoots(roots, []) == roots
  {
    forall a | a in b ensures RelocatedBlock(b[a], []) == b[a] {
      RelocatedNothing(b[a]);
    }
  }

  lemma PassStarts(b: Blocks, n: Links, p: Links, ext: seq<Extent>, regions: seq<Region>)
    requires HeapOK(b, n, p, ext)
    ensures RelocatedBelow(b, regions, 0) == b
  {
    hide HeapOK;
    HeapApart(b, n, p, ext);
  }

  lemma PassHead(b: Blocks, n: Links, p: Links, ext: seq<Extent>, regions: seq<Region>, i: nat, ptr: int)
    requires HeapOK(b, n, p, ext) && i < |ext| && ptr == ext[i].start
    ensures ptr <= ext[i].end && Boundary(b, ext[i], ptr)
    ensures RelocatedBelow(b, regions, ptr) == RelocatedBelow(b, regions, PassStart(ext, i))
  {
    hide HeapOK, RelocatedBlock;
    ClusterShape(b, n, p, ext, i);
    GapEmpty(b, n, p, ext, i);
  }

  lemma PassStep(b: Blocks, n: Links, p: Links, ext: seq<Extent>, regions: seq<Region>, i: nat, ptr: int)
    requires HeapOK(b, n, p, ext) && i < |ext| && ext[i].start <= ptr < ext[i].end && ptr in b
    ensures Boundary(b, ext[i], ptr + b[ptr].size) && 0 < b[ptr].size && ptr + b[ptr].size <= ext[i].end
    ensures RelocatedBelow(b, regions, ptr)[ptr := RelocatedBlock(b[ptr], regions)]
         == RelocatedBelow(b, regions, ptr + b[ptr].size)
  {
    hide HeapOK, RelocatedBlock;
    NextBoundary(b, n, p, ext, i, ptr);
    ClusterShape(b, n, p, ext, i);
    BelowNext(b, regions, ptr, b[ptr].size);
  }

  lemma BelowNext(b: Blocks, regions: seq<Region>, ptr: int, size: int)
    requires ptr in b && 0 < size && forall a :: a in b && ptr < a ==> ptr + size <= a
    ensures RelocatedBelow(b, regions, ptr)[ptr := RelocatedBlock(b[ptr], regions)]
         == RelocatedBelow(b, regions, ptr + size)
  {
    hide RelocatedBlock;
  }

  lemma PassEnds(b: Blocks, n: Links, p: Links, ext: seq<Extent>, regions: seq<Region>)
    requires HeapOK(b, n, p, ext)
    ensures RelocatedBelow(b, regions, PassStart(ext, |ext|)) == RelocatedHeap(b, regions)
  {
    hide ClusterOK, RelocatedBlock;
    forall a | a in b ensures a < PassStart(ext, |ext|) {
      assert Inside(ext, a);
      var j :| 0 <= j < |ext| && ext[j].start <= a < ext[j].end;
      ExtentsUpTo(b, n, p, ext, |ext| - 1);
    }
  }
}
