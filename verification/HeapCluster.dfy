/** The cluster allocator: first-fit extraction, rebuilding the free list after a mark, and
  * ordered insertion with coalescing. */
module Clusters {
  import opened HeapModel

  datatype Option<T> = None | Some(value: T)

  /** Allocation flags: the header flags, and whether the block is cleared. */
  datatype Flags = Flags(alive: bool, event: bool, pinned: bool, initializeToZero: bool)

  /** The memory all clusters live in: headers, and the two link words of list nodes. */
  class Memory {
    var blocks: Blocks
    var next: Links
    var prev: Links

    constructor ()
      ensures blocks == map[] && next == map[] && prev == map[]
    {
      blocks, next, prev := map[], map[], map[];
    }
  }

  /** `fb` is the free block a request of `length` is served from: the lowest one that is large
    * enough, or the highest one for event blocks. */
  ghost predicate Fits(b: Blocks, s: int, e: int, length: int, event: bool, fb: int) {
    && fb in FreeSet(b, s, e) && b[fb].size >= length
    && (forall y :: y in FreeSet(b, s, e) && b[y].size >= length ==> if event then y <= fb else fb <= y)
  }

  class HeapCluster {
    const mem: Memory
    const payloadStart: int
    const payloadEnd: int

    ghost predicate Valid()
      reads mem
    {
      && ClusterOK(mem.blocks, mem.next, mem.prev, payloadStart, payloadEnd)
      && NoHoles(mem.blocks, payloadStart, payloadEnd)
    }

    /** Carves the payload into free blocks of `blockSize` (the last one may be shorter) and
      * builds the free list, which merges them all. */
    constructor (mem: Memory, payloadStart: int, payloadEnd: int, blockSize: int)
      requires 0 < payloadStart <= payloadEnd < 0x1_0000_0000 && payloadEnd - payloadStart <= 0xFFFF
      requires 0 < blockSize
      requires forall a :: a in mem.blocks ==> a < payloadStart || a >= payloadEnd
      modifies mem
      ensures this.mem == mem && this.payloadStart == payloadStart && this.payloadEnd == payloadEnd
      ensures Valid()
      ensures Contents(mem.blocks, payloadStart, payloadEnd) == map[]
      ensures SameOutside(old(mem.blocks), old(mem.next), old(mem.prev),
                          mem.blocks, mem.next, mem.prev, payloadStart, payloadEnd)
    {
      this.mem := mem;
      this.payloadStart := payloadStart;
      this.payloadEnd := payloadEnd;
      new;
      hide Contents, BlocksOK, NoHoles, ListOK, FreeSet, SameOutside, Tiled;
      ghost var b0, n0, p0 := mem.blocks, mem.next, mem.prev;
      Carve(blockSize);
      ghost var b1 := mem.blocks;
      RecoverFromGC();
      NothingSurvives(b1, payloadStart, payloadEnd);
      OutsideTransitive(b0, n0, p0, b1, n0, p0, mem.blocks, mem.next, mem.prev, payloadStart, payloadEnd);
    }

    /** Writes the free headers of a new cluster. */
    method Carve(blockSize: int)
      requires payloadStart <= payloadEnd && 0 < blockSize
      requires forall a :: a in mem.blocks ==> a < payloadStart || a >= payloadEnd
      modifies mem`blocks
      ensures Tiled(mem.blocks, payloadStart, payloadEnd)
      ensures forall a :: a in mem.blocks && payloadStart <= a < payloadEnd ==> !mem.blocks[a].alive
      ensures SameOutside(old(mem.blocks), mem.next, mem.prev, mem.blocks, mem.next, mem.prev, payloadStart, payloadEnd)
    {
      hide SameOutside, Tiled;
      ghost var b0 := mem.blocks;
      CarvingStarts(b0, mem.next, mem.prev, payloadStart, payloadEnd);
      var ptr := payloadStart;
      var size := blockSize;
      while ptr < payloadEnd
        invariant payloadStart <= ptr <= payloadEnd && 0 < size
        invariant forall a :: ptr <= a < payloadEnd ==> a !in mem.blocks
        invariant Tiled(mem.blocks, payloadStart, ptr)
        invariant forall a :: a in mem.blocks && payloadStart <= a < ptr ==> !mem.blocks[a].alive
        invariant SameOutside(b0, mem.next, mem.prev, mem.blocks, mem.next, mem.prev, payloadStart, payloadEnd)
      {
        if ptr + size > payloadEnd {
          size := payloadEnd - ptr;
        }
        ghost var b, h := mem.blocks, Block(size, FreeBlock, false, false, false, []);
        TiledPush(b, payloadStart, ptr, h);
        UpdateOutside(b, mem.next, mem.prev, payloadStart, payloadEnd, ptr, h);
        OutsideTransitive(b0, mem.next, mem.prev, b, mem.next, mem.prev, b[ptr := h], mem.next, mem.prev,
                          payloadStart, payloadEnd);
        mem.blocks := mem.blocks[ptr := Block(size, FreeBlock, false, false, false, [])];
        ptr := ptr + size;
      }
    }

    method ExtractBlocks(kind: Kind, flags: Flags, length: int) returns (res: Option<int>, ghost fb: int)
      requires Valid() && 0 < length && !kind.FreeBlock? && !kind.Hole?
      modifies mem
      ensures Valid()
      ensures SameOutside(old(mem.blocks), old(mem.next), old(mem.prev),
                          mem.blocks, mem.next, mem.prev, payloadStart, payloadEnd)
      ensures res.None? ==>
        && (forall a :: a in FreeSet(mem.blocks, payloadStart, payloadEnd) ==> mem.blocks[a].size < length)
        && unchanged(mem)
      ensures res.Some? ==>
        && Fits(old(mem.blocks), payloadStart, payloadEnd, length, flags.event, fb)
        && res.value == (if flags.event then fb + old(mem.blocks)[fb].size - length else fb)
        && res.value in mem.blocks
        && mem.blocks[res.value] == Block(length, kind, flags.alive, flags.event, flags.pinned, mem.blocks[res.value].cells)
        && (flags.initializeToZero ==> mem.blocks[res.value].cells == seq(length - 1, _ => Data(0)))
        && Contents(mem.blocks, payloadStart, payloadEnd)
           == Contents(old(mem.blocks), payloadStart, payloadEnd)[res.value := mem.blocks[res.value]]
    {
      var found := FindFit(length, flags.event);
      fb := found;
      if found == payloadStart - 1 || found == payloadEnd {
        return None, fb;
      }
      var stale: seq<Cell> := *;
      var cells := if flags.initializeToZero then seq(length - 1, _ => Data(0)) else stale;
      var header := Block(length, kind, flags.alive, flags.event, flags.pinned, cells);
      var available := mem.blocks[found].size - length;
      var r := found;
      if available != 0 {
        if flags.event {
          CarveTop(found, header);
          r := found + available;
        } else {
          CarveBottom(found, header);
        }
      } else {
        CarveWhole(found, header);
      }
      return Some(r), fb;
    }

    /** An event block comes from the top of the free block, which stays where it is in the list. */
    method CarveTop(found: int, header: Block)
      requires Valid() && payloadStart <= found < payloadEnd && IsFree(mem.blocks, found)
      requires 0 < header.size < mem.blocks[found].size && header.Occupied()
      modifies mem
      ensures Carved(old(mem.blocks), old(mem.next), old(mem.prev), mem.blocks, mem.next, mem.prev,
                     payloadStart, payloadEnd, found + old(mem.blocks)[found].size - header.size, header)
    {
      hide Tiled, Coalesced, FreeHeaders, NoHoles, Contents, ListOK, FreeSet;
      ghost var b := mem.blocks;
      var available := mem.blocks[found].size - header.size;
      TakeTop(mem.blocks, mem.next, mem.prev, payloadStart, payloadEnd, found, header);
      mem.blocks := mem.blocks[found := FreeHeader(available)];
      mem.blocks := mem.blocks[found + available := header];
      CarveFrame(b, payloadStart, payloadEnd, found, found + available, header, found, FreeHeader(available));
    }

    /** Other blocks come from the bottom; the remainder takes over the place in the list. */
    method CarveBottom(found: int, header: Block)
      requires Valid() && payloadStart <= found < payloadEnd && IsFree(mem.blocks, found)
      requires 0 < header.size < mem.blocks[found].size && header.Occupied()
      modifies mem
      ensures Carved(old(mem.blocks), old(mem.next), old(mem.prev), mem.blocks, mem.next, mem.prev,
                     payloadStart, payloadEnd, found, header)
    {
      hide Tiled, Coalesced, FreeHeaders, NoHoles, Contents, ListOK, FreeSet;
      ghost var b := mem.blocks;
      var available := mem.blocks[found].size - header.size;
      TakeBottom(mem.blocks, mem.next, mem.prev, payloadStart, payloadEnd, found, header);
      var next, prev := mem.next[found], mem.prev[found];
      var ptr := found + header.size;
      mem.blocks := mem.blocks[ptr := FreeHeader(available)];
      mem.next := mem.next[ptr := next];
      mem.prev := mem.prev[ptr := prev];
      mem.next := mem.next[prev := ptr];
      mem.prev := mem.prev[next := ptr];
      mem.blocks := mem.blocks[found := header];
      CarveFrame(b, payloadStart, payloadEnd, found, found, header, ptr, FreeHeader(available));
    }

    /** An exact fit is unlinked. */
    method CarveWhole(found: int, header: Block)
      requires Valid() && payloadStart <= found < payloadEnd && IsFree(mem.blocks, found)
      requires header.size == mem.blocks[found].size && header.Occupied()
      modifies mem
      ensures Carved(old(mem.blocks), old(mem.next), old(mem.prev), mem.blocks, mem.next, mem.prev,
                     payloadStart, payloadEnd, found, header)
    {
      hide Tiled, Coalesced, FreeHeaders, NoHoles, Contents, ListOK, FreeSet;
      ghost var b := mem.blocks;
      TakeWhole(mem.blocks, mem.next, mem.prev, payloadStart, payloadEnd, found, header);
      var next, prev := mem.next[found], mem.prev[found];
      mem.next := mem.next[prev := next];
      mem.prev := mem.prev[next := prev];
      mem.blocks := mem.blocks[found := header];
      CarveFrame(b, payloadStart, payloadEnd, found, found, header, found, header);
      assert b[found := header][found := header] == b[found := header];
    }

    /** Walks the free list, from the back for event blocks.  Ends on a list head if nothing fits. */
    method FindFit(length: int, event: bool) returns (ptr: int)
      requires ListOK(FreeSet(mem.blocks, payloadStart, payloadEnd), mem.next, mem.prev, payloadStart, payloadEnd)
      requires payloadStart <= payloadEnd
      ensures ptr == payloadStart - 1 || ptr == payloadEnd ==>
        forall a :: a in FreeSet(mem.blocks, payloadStart, payloadEnd) ==> mem.blocks[a].size < length
      ensures ptr != payloadStart - 1 && ptr != payloadEnd ==>
        Fits(mem.blocks, payloadStart, payloadEnd, length, event, ptr)
    {
      ghost var free := FreeSet(mem.blocks, payloadStart, payloadEnd);
      if event {
        PrevIsNearest(free, mem.next, mem.prev, payloadStart, payloadEnd, payloadEnd);
        ptr := mem.prev[payloadEnd];
        while ptr != payloadStart - 1
          invariant HasNext(free, payloadStart, ptr)
          invariant forall a :: a in free && ptr < a ==> mem.blocks[a].size < length
          decreases ptr - payloadStart
        {
          if mem.blocks[ptr].size >= length { return; }
          PrevIsNearest(free, mem.next, mem.prev, payloadStart, payloadEnd, ptr);
          ptr := mem.prev[ptr];
        }
      } else {
        NextIsNearest(free, mem.next, mem.prev, payloadStart, payloadEnd, payloadStart - 1);
        ptr := mem.next[payloadStart - 1];
        while ptr != payloadEnd
          invariant HasPrev(free, payloadEnd, ptr)
          invariant forall a :: a in free && a < ptr ==> mem.blocks[a].size < length
          decreases payloadEnd - ptr
        {
          if mem.blocks[ptr].size >= length { return; }
          NextIsNearest(free, mem.next, mem.prev, payloadStart, payloadEnd, ptr);
          ptr := mem.next[ptr];
        }
      }
    }

    /** Adds up the free list from the back: the size of everything not in use. */
    method FreeTotal() returns (freeBlocks: int)
      requires Valid()
      ensures freeBlocks == SizeFrom(mem.blocks, payloadStart, payloadEnd, false)
      ensures payloadEnd - payloadStart - freeBlocks == SizeFrom(mem.blocks, payloadStart, payloadEnd, true)
    {
      hide Coalesced, FreeHeaders, NoHoles, ListOK, SizeFrom, FreeSet, Tiled;
      ghost var b, s, e := mem.blocks, payloadStart, payloadEnd;
      ghost var free := FreeSet(b, s, e);
      SizesAddUp(b, s, e);
      freeBlocks := 0;
      PrevIsNearest(free, mem.next, mem.prev, s, e, e);
      var ptr := mem.prev[payloadEnd];
      ghost var above := e;
      NoFreeAbove(b, s, e, ptr, e);
      while ptr != payloadStart - 1
        invariant HasNext(free, s, ptr) && ptr < above <= e && (above == e || above in b)
        invariant Tiled(b, above, e) && freeBlocks == SizeFrom(b, above, e, false)
        invariant forall a :: a in free ==> a <= ptr || above <= a
        decreases ptr - payloadStart + 1
      {
        FreeStep(b, s, e, ptr, above);
        freeBlocks := freeBlocks + mem.blocks[ptr].size;
        PrevIsNearest(free, mem.next, mem.prev, s, e, ptr);
        assert s - 1 <= mem.prev[ptr];
        above := ptr;
        ptr := mem.prev[ptr];
      }
      TiledHead(b, s, e);
      GapSize(b, s, s, above, e);
    }

    /** Unlinks a free block; its space becomes a hole. */
    method UnlinkFree(node: int)
      requires ClusterOK(mem.blocks, mem.next, mem.prev, payloadStart, payloadEnd)
      requires payloadStart <= node < payloadEnd && IsFree(mem.blocks, node)
      modifies mem
      ensures ClusterOK(mem.blocks, mem.next, mem.prev, payloadStart, payloadEnd)
      ensures mem.blocks == old(mem.blocks)[node := HoleHeader(old(mem.blocks)[node].size)]
      ensures SameOutside(old(mem.blocks), old(mem.next), old(mem.prev),
                          mem.blocks, mem.next, mem.prev, payloadStart, payloadEnd)
    {
      hide Tiled, Coalesced, FreeHeaders, NoHoles, Contents, ListOK, FreeSet;
      TakeWhole(mem.blocks, mem.next, mem.prev, payloadStart, payloadEnd, node, HoleHeader(mem.blocks[node].size));
      var next, prev := mem.next[node], mem.prev[node];
      mem.next := mem.next[prev := next];
      mem.prev := mem.prev[next := prev];
      mem.blocks := mem.blocks[node := HoleHeader(mem.blocks[node].size)];
    }

    /** Puts the hole at `node` back on the free list, merging it with its free neighbours. */
    method InsertInOrder(node: int, size: int) returns (res: int)
      requires ClusterOK(mem.blocks, mem.next, mem.prev, payloadStart, payloadEnd)
      requires payloadStart <= node < payloadEnd && node in mem.blocks && mem.blocks[node] == HoleHeader(size)
      modifies mem
      ensures ClusterOK(mem.blocks, mem.next, mem.prev, payloadStart, payloadEnd)
      ensures SameOutside(old(mem.blocks), old(mem.next), old(mem.prev),
                          mem.blocks, mem.next, mem.prev, payloadStart, payloadEnd)
      ensures Filled(old(mem.blocks), mem.blocks, payloadStart, payloadEnd, node, size, res)
    {
      hide BlocksOK, Tiled, NoHoles, Contents, ListOK, FreeSet, Filled, SameBlocksOutside, SameLinksOutside;
      ghost var b, n, p := mem.blocks, mem.next, mem.prev;
      ghost var s, e := payloadStart, payloadEnd;
      ghost var linked := FreeSet(b, s, e);
      HoleIsUnlinked(b, s, e, node);
      BlocksAreTiled(b, s, e);
      var ptr := FirstAbove(node);
      Neighbours(b, n, p, s, e, node, size, ptr);
      InsertBeforeNode(linked, ptr, node);
      linked := linked + {node};
      ghost var n1, p1 := mem.next, mem.prev;
      var total := MergeNext(linked, node, size);
      ghost var hi := node + total;
      ghost var above := if hi == node + size then {} else {ptr};
      ghost var n2, p2 := mem.next, mem.prev;
      res, total := MergePrev(linked - above, node, total);
      ghost var below := if res == node then {} else {node};
      LinksTransitive(n, n1, n2, s, e);
      LinksTransitive(p, p1, p2, s, e);
      LinksTransitive(n, n2, mem.next, s, e);
      LinksTransitive(p, p2, mem.prev, s, e);
      assert mem.blocks == b - (above + below);
      assert linked - above - below == linked - (above + below);
      mem.blocks := mem.blocks[res := FreeHeader(total)];
      Coalesce(b, n, p, s, e, node, size, ptr, res, hi);
    }

    /** A free block that starts where the node ends is taken off the list and swallowed. */
    method MergeNext(ghost linked: set<int>, node: int, size: int) returns (total: int)
      requires ListOK(linked, mem.next, mem.prev, payloadStart, payloadEnd) && node in linked && node in mem.next
      requires mem.next[node] == payloadEnd
        || (mem.next[node] in linked && mem.next[node] in mem.blocks && 0 < mem.blocks[mem.next[node]].size)
      modifies mem
      ensures var q := old(mem.next)[node];
        var gone := if total == size then {} else {q};
        && total == size + (if q != payloadEnd && node + size == q then old(mem.blocks)[q].size else 0)
        && mem.blocks == old(mem.blocks) - gone
        && ListOK(linked - gone, mem.next, mem.prev, payloadStart, payloadEnd)
      ensures node in old(mem.prev) && node in mem.prev && mem.prev[node] == old(mem.prev)[node]
      ensures SameLinksOutside(old(mem.next), mem.next, payloadStart, payloadEnd)
      ensures SameLinksOutside(old(mem.prev), mem.prev, payloadStart, payloadEnd)
    {
      hide ListOK;
      HasLinks(linked, mem.next, mem.prev, payloadStart, payloadEnd, node);
      total := size;
      var ptr := mem.next[node];
      if ptr != payloadEnd && node + size == ptr {
        total := total + mem.blocks[ptr].size;
        Unlink(linked, ptr);
        mem.blocks := mem.blocks - {ptr};
      } else {
        assert linked - {} == linked;
      }
    }

    /** A free block that ends where the node starts swallows the node. */
    method MergePrev(ghost linked: set<int>, node: int, size: int) returns (res: int, total: int)
      requires ListOK(linked, mem.next, mem.prev, payloadStart, payloadEnd) && node in linked && node in mem.prev
      requires mem.prev[node] == payloadStart - 1 || mem.prev[node] in mem.blocks
      requires mem.prev[node] < node
      modifies mem
      ensures var q := old(mem.prev)[node];
        var gone := if res == node then {} else {node};
        && res == (if q != payloadStart - 1 && q + old(mem.blocks)[q].size == node then q else node)
        && total == size + (if res == node then 0 else old(mem.blocks)[q].size)
        && mem.blocks == old(mem.blocks) - gone
        && ListOK(linked - gone, mem.next, mem.prev, payloadStart, payloadEnd)
      ensures SameLinksOutside(old(mem.next), mem.next, payloadStart, payloadEnd)
      ensures SameLinksOutside(old(mem.prev), mem.prev, payloadStart, payloadEnd)
    {
      hide ListOK;
      res, total := node, size;
      var ptr := mem.prev[node];
      if ptr != payloadStart - 1 && ptr + mem.blocks[ptr].size == node {
        total := total + mem.blocks[ptr].size;
        Unlink(linked, node);
        mem.blocks := mem.blocks - {node};
        res := ptr;
      } else {
        assert linked - {} == linked;
      }
    }

    /** Links `node` in front of `q`. */
    method InsertBeforeNode(ghost f: set<int>, q: int, node: int)
      requires ListOK(f, mem.next, mem.prev, payloadStart, payloadEnd) && HasPrev(f, payloadEnd, q)
      requires payloadStart <= node < payloadEnd && node !in f && q in mem.prev && mem.prev[q] < node < q
      modifies mem`next, mem`prev
      ensures ListOK(f + {node}, mem.next, mem.prev, payloadStart, payloadEnd)
      ensures node in mem.next && mem.next[node] == q && node in mem.prev && mem.prev[node] == old(mem.prev)[q]
      ensures SameLinksOutside(old(mem.next), mem.next, payloadStart, payloadEnd)
      ensures SameLinksOutside(old(mem.prev), mem.prev, payloadStart, payloadEnd)
    {
      ListInsert(f, mem.next, mem.prev, payloadStart, payloadEnd, node, q);
      PrevIsNearest(f, mem.next, mem.prev, payloadStart, payloadEnd, q);
      var prev := mem.prev[q];
      mem.next := mem.next[node := q];
      mem.prev := mem.prev[node := prev];
      mem.prev := mem.prev[q := node];
      mem.next := mem.next[prev := node];
    }

    /** Takes a node off the list. */
    method Unlink(ghost f: set<int>, node: int)
      requires ListOK(f, mem.next, mem.prev, payloadStart, payloadEnd) && node in f
      modifies mem`next, mem`prev
      ensures node in old(mem.next) && node in old(mem.prev)
      ensures var next, prev := old(mem.next)[node], old(mem.prev)[node];
        && mem.next == old(mem.next)[prev := next] && mem.prev == old(mem.prev)[next := prev]
        && payloadStart - 1 <= prev < node < next <= payloadEnd
      ensures ListOK(f - {node}, mem.next, mem.prev, payloadStart, payloadEnd)
      ensures SameLinksOutside(old(mem.next), mem.next, payloadStart, payloadEnd)
      ensures SameLinksOutside(old(mem.prev), mem.prev, payloadStart, payloadEnd)
    {
      ListRemove(f, mem.next, mem.prev, payloadStart, payloadEnd, node);
      PrevIsNearest(f, mem.next, mem.prev, payloadStart, payloadEnd, node);
      NextIsNearest(f, mem.next, mem.prev, payloadStart, payloadEnd, node);
      var prev, next := mem.prev[node], mem.next[node];
      mem.next := mem.next[prev := next];
      mem.prev := mem.prev[next := prev];
    }

    /** The first list node above an address. */
    method FirstAbove(node: int) returns (ptr: int)
      requires ListOK(FreeSet(mem.blocks, payloadStart, payloadEnd), mem.next, mem.prev, payloadStart, payloadEnd)
      requires payloadStart <= node < payloadEnd && node !in FreeSet(mem.blocks, payloadStart, payloadEnd)
      ensures HasPrev(FreeSet(mem.blocks, payloadStart, payloadEnd), payloadEnd, ptr)
      ensures ptr in mem.prev && mem.prev[ptr] < node < ptr
    {
      ghost var free := FreeSet(mem.blocks, payloadStart, payloadEnd);
      NextIsNearest(free, mem.next, mem.prev, payloadStart, payloadEnd, payloadStart - 1);
      ptr := mem.next[payloadStart - 1];
      while ptr != payloadEnd
        invariant HasPrev(free, payloadEnd, ptr)
        invariant forall a :: a in free && a < ptr ==> a < node
        decreases payloadEnd - ptr
      {
        if ptr > node { break; }
        NextIsNearest(free, mem.next, mem.prev, payloadStart, payloadEnd, ptr);
        ptr := mem.next[ptr];
      }
      PrevIsNearest(free, mem.next, mem.prev, payloadStart, payloadEnd, ptr);
    }

    /** Turns every maximal run of unmarked blocks into one free block, unmarks the others, and
      * links the free blocks in address order.  Headers swallowed by a run disappear. */
    method RecoverFromGC()
      requires 0 < payloadStart <= payloadEnd < 0x1_0000_0000 && payloadEnd - payloadStart <= 0xFFFF
      requires Tiled(mem.blocks, payloadStart, payloadEnd)
      requires MarkedAreOccupied(mem.blocks, payloadStart, payloadEnd)
      modifies mem
      ensures Valid()
      ensures SameOutside(old(mem.blocks), old(mem.next), old(mem.prev),
                          mem.blocks, mem.next, mem.prev, payloadStart, payloadEnd)
      ensures Contents(mem.blocks, payloadStart, payloadEnd) == Survivors(old(mem.blocks), payloadStart, payloadEnd)
    {
      hide Tiled, BlocksOK, NoHoles, OpenList, SameOutside, SameWithin, FreeSet, Contents, Survivors, ListOK, Swept, RunEnded;
      var ptr := payloadStart;
      var last := payloadStart - 1;
      ghost var b0, n0, p0 := mem.blocks, mem.next, mem.prev;
      SweepStarts(b0, n0, p0, payloadStart, payloadEnd);
      while ptr < payloadEnd
        invariant payloadStart <= ptr <= payloadEnd && payloadStart - 1 <= last < payloadEnd
        invariant Swept(b0, mem.blocks, payloadStart, payloadEnd, ptr)
        invariant RunEnded(b0, mem.blocks, payloadStart, payloadEnd, ptr)
        invariant OpenList(FreeSet(mem.blocks, payloadStart, ptr), mem.next, mem.prev, payloadStart, payloadEnd, last)
        invariant SameOutside(b0, n0, p0, mem.blocks, mem.next, mem.prev, payloadStart, payloadEnd)
        decreases payloadEnd - ptr
      {
        SweptHead(b0, mem.blocks, payloadStart, payloadEnd, ptr);
        ghost var b1, n1, p1 := mem.blocks, mem.next, mem.prev;
        if !mem.blocks[ptr].alive {
          ptr, last := AbsorbRun(ptr, last, b0);
        } else {
          var size := Unmark(ptr, b0);
          ptr := ptr + size;
        }
        OutsideTransitive(b0, n0, p0, b1, n1, p1, mem.blocks, mem.next, mem.prev, payloadStart, payloadEnd);
      }
      OpenClose(FreeSet(mem.blocks, payloadStart, payloadEnd), mem.next, mem.prev, payloadStart, payloadEnd, last);
      SweepEnds(b0, mem.blocks, payloadStart, payloadEnd);
      LinksOutside(mem.blocks, mem.next, mem.prev, payloadStart, payloadEnd, last, payloadEnd, payloadEnd, last);
      OutsideTransitive(b0, n0, p0, mem.blocks, mem.next, mem.prev,
                        mem.blocks, mem.next[last := payloadEnd], mem.prev[payloadEnd := last], payloadStart, payloadEnd);
      mem.next := mem.next[last := payloadEnd];
      mem.prev := mem.prev[payloadEnd := last];
    }

    /** A marked block stays; its mark is cleared unless it is an event block. */
    method Unmark(ptr: int, ghost b0: Blocks) returns (size: int)
      requires Swept(b0, mem.blocks, payloadStart, payloadEnd, ptr) && payloadStart <= ptr < payloadEnd
      requires ptr in mem.blocks && mem.blocks[ptr].alive
      modifies mem`blocks
      ensures 0 < size && ptr + size <= payloadEnd
      ensures Swept(b0, mem.blocks, payloadStart, payloadEnd, ptr + size)
      ensures FreeSet(mem.blocks, payloadStart, ptr + size) == FreeSet(old(mem.blocks), payloadStart, ptr)
      ensures SameOutside(old(mem.blocks), mem.next, mem.prev, mem.blocks, mem.next, mem.prev, payloadStart, payloadEnd)
      ensures RunEnded(b0, mem.blocks, payloadStart, payloadEnd, ptr + size)
    {
      hide Swept, RunEnded, FreeSet, SameOutside;
      SweptHead(b0, mem.blocks, payloadStart, payloadEnd, ptr);
      KeepBlock(b0, mem.blocks, payloadStart, payloadEnd, ptr);
      UpdateOutside(mem.blocks, mem.next, mem.prev, payloadStart, payloadEnd, ptr, b0[ptr].(alive := b0[ptr].event));
      ghost var marked := mem.blocks[ptr];
      assert mem.blocks[ptr := marked] == mem.blocks;
      size := mem.blocks[ptr].size;
      if !mem.blocks[ptr].event {
        mem.blocks := mem.blocks[ptr := mem.blocks[ptr].(alive := false)];
      }
    }

    /** The run of unmarked blocks that starts at `start` becomes one free block. */
    method AbsorbRun(start: int, last: int, ghost b0: Blocks) returns (next: int, last': int)
      requires Swept(b0, mem.blocks, payloadStart, payloadEnd, start) && start < payloadEnd
      requires RunEnded(b0, mem.blocks, payloadStart, payloadEnd, start)
      requires OpenList(FreeSet(mem.blocks, payloadStart, start), mem.next, mem.prev, payloadStart, payloadEnd, last)
      requires start in mem.blocks && !mem.blocks[start].alive && payloadStart <= start
      modifies mem
      ensures start < next <= payloadEnd && payloadStart <= last' < payloadEnd
      ensures Swept(b0, mem.blocks, payloadStart, payloadEnd, next)
      ensures RunEnded(b0, mem.blocks, payloadStart, payloadEnd, next)
      ensures OpenList(FreeSet(mem.blocks, payloadStart, next), mem.next, mem.prev, payloadStart, payloadEnd, last')
      ensures SameOutside(old(mem.blocks), old(mem.next), old(mem.prev),
                          mem.blocks, mem.next, mem.prev, payloadStart, payloadEnd)
    {
      hide Tiled, BlocksOK, NoHoles, OpenList, SameOutside, FreeSet, Contents, Survivors, ListOK;
      ghost var b1 := mem.blocks;
      next := start;
      var lenTot := 0;
      while next < payloadEnd && !mem.blocks[next].alive
        invariant start <= next <= payloadEnd && lenTot == next - start
        invariant Tiled(b0, next, payloadEnd) && (next < payloadEnd ==> next in b1)
        invariant forall a :: a in b0 && start <= a < next ==> !b0[a].alive
        invariant mem.blocks == RemoveRange(b1, start, next)
        invariant mem.next == old(mem.next) && mem.prev == old(mem.prev)
        decreases payloadEnd - next
      {
        TiledDrop(b0, next, payloadEnd);
        var len := mem.blocks[next].size;
        mem.blocks := mem.blocks - {next};
        next := next + len;
        lenTot := lenTot + len;
        TiledHead(b0, next, payloadEnd);
      }
      FreeRun(b0, b1, payloadStart, payloadEnd, start, next);
      LastBelow(b1, mem.next, mem.prev, payloadStart, payloadEnd, start, last);
      OpenAppend(FreeSet(b1, payloadStart, start), mem.next, mem.prev, payloadStart, payloadEnd, last, start);
      RunOutside(b1, mem.next, mem.prev, payloadStart, payloadEnd, start, next, last, FreeHeader(lenTot));
      mem.blocks := mem.blocks[start := FreeHeader(lenTot)];
      mem.next := mem.next[last := start];
      mem.prev := mem.prev[start := last];
      last' := start;
    }
  }

  lemma HasLinks(f: set<int>, n: Links, p: Links, s: int, e: int, x: int)
    requires ListOK(f, n, p, s, e) && x in f
    ensures x in n && x in p && p[x] < x < n[x]
    ensures n[x] != e ==> n[x] in f
  {
  }

  ghost predicate MarkedAreOccupied(b: Blocks, s: int, e: int) {
    forall a :: a in b && s <= a < e && b[a].alive ==> b[a].Occupied()
  }

  /** What a sweep keeps: the marked blocks, unmarked again unless they are event blocks. */
  ghost function Survivors(b: Blocks, s: int, e: int): Blocks {
    map a | a in b && s <= a < e && b[a].alive :: b[a].(alive := b[a].event)
  }

  function RemoveRange(b: Blocks, lo: int, hi: int): Blocks {
    map a | a in b && (a < lo || hi <= a) :: b[a]
  }

  /** The sweep has rebuilt every header below `ptr` and none above it. */
  ghost predicate Swept(b0: Blocks, b: Blocks, s: int, e: int, ptr: int) {
    && s <= ptr <= e && Tiled(b0, ptr, e) && SameWithin(b0, b, ptr, e) && MarkedAreOccupied(b0, s, e)
    && BlocksOK(b, s, ptr) && NoHoles(b, s, ptr)
    && Contents(b, s, ptr) == Survivors(b0, s, ptr)
  }

  /** An unmarked block at `ptr` starts a new run: no free block below reaches up to it. */
  ghost predicate RunEnded(b0: Blocks, b: Blocks, s: int, e: int, ptr: int) {
    ptr < e && ptr in b0 && !b0[ptr].alive ==> forall a :: a in FreeSet(b, s, ptr) ==> a + b[a].size < ptr
  }

  lemma SweepStarts(b0: Blocks, n: Links, p: Links, s: int, e: int)
    requires Tiled(b0, s, e) && MarkedAreOccupied(b0, s, e)
    ensures Swept(b0, b0, s, e, s) && RunEnded(b0, b0, s, e, s)
    ensures OpenList(FreeSet(b0, s, s), n, p, s, e, s - 1)
    ensures SameOutside(b0, n, p, b0, n, p, s, e)
  {
    EmptyRange(b0, s);
    hide BlocksOK, NoHoles, FreeSet, Contents, Survivors, MarkedAreOccupied;
    assert s <= e by {
      hide *;
      TiledBounds(b0, s, e);
    }
    hide Tiled;
    EmptyList(n, p, s, e);
  }

  lemma TiledBounds(b: Blocks, s: int, e: int)
    requires Tiled(b, s, e)
    ensures s <= e
  {
  }

  lemma EmptyRange(b: Blocks, s: int)
    ensures BlocksOK(b, s, s) && NoHoles(b, s, s) && FreeSet(b, s, s) == {}
    ensures Contents(b, s, s) == map[] == Survivors(b, s, s)
  {
  }

  lemma EmptyList(n: Links, p: Links, s: int, e: int)
    requires s <= e
    ensures OpenList({}, n, p, s, e, s - 1)
  {
  }

  lemma SweepEnds(b0: Blocks, b: Blocks, s: int, e: int)
    requires Swept(b0, b, s, e, e)
    ensures BlocksOK(b, s, e) && NoHoles(b, s, e) && Contents(b, s, e) == Survivors(b0, s, e)
  {
  }

  lemma RunOutside(b: Blocks, n: Links, p: Links, s: int, e: int, start: int, next: int, last: int, h: Block)
    requires s <= start < next <= e && s - 1 <= last < start
    ensures SameOutside(b, n, p, RemoveRange(b, start, next)[start := h], n[last := start], p[start := last], s, e)
  {
  }

  lemma OpenClose(f: set<int>, n: Links, p: Links, s: int, e: int, last: int)
    requires OpenList(f, n, p, s, e, last)
    ensures ListOK(f, n[last := e], p[e := last], s, e)
  {
  }

  lemma LastBelow(b: Blocks, n: Links, p: Links, s: int, e: int, ptr: int, last: int)
    requires OpenList(FreeSet(b, s, ptr), n, p, s, e, last) && s <= ptr
    ensures s - 1 <= last < ptr
  {
  }

  lemma RangeOutside(b: Blocks, s: int, e: int, lo: int, hi: int, h: Block)
    requires s <= lo < hi <= e
    ensures SameBlocksOutside(b, RemoveRange(b, lo, hi)[lo := h], s, e)
  {
  }

  lemma LinksTransitive(n: Links, n1: Links, n2: Links, s: int, e: int)
    requires SameLinksOutside(n, n1, s, e) && SameLinksOutside(n1, n2, s, e)
    ensures SameLinksOutside(n, n2, s, e)
  {
  }

  lemma OutsideTransitive(b: Blocks, n: Links, p: Links, b1: Blocks, n1: Links, p1: Links,
                          b2: Blocks, n2: Links, p2: Links, s: int, e: int)
    requires SameOutside(b, n, p, b1, n1, p1, s, e) && SameOutside(b1, n1, p1, b2, n2, p2, s, e)
    ensures SameOutside(b, n, p, b2, n2, p2, s, e)
  {
  }

  /** Rewriting a header of a cluster changes nothing outside it. */
  lemma UpdateOutside(b: Blocks, n: Links, p: Links, s: int, e: int, x: int, h: Block)
    requires s <= x < e
    ensures SameOutside(b, n, p, b[x := h], n, p, s, e)
  {
  }

  /** Rewriting one forward and one backward link of a cluster changes nothing outside it. */
  lemma LinksOutside(b: Blocks, n: Links, p: Links, s: int, e: int, x: int, x': int, y: int, y': int)
    requires s - 1 <= x <= e && s - 1 <= y <= e
    ensures SameOutside(b, n, p, b, n[x := x'], p[y := y'], s, e)
  {
  }

  lemma SweptHead(b0: Blocks, b: Blocks, s: int, e: int, ptr: int)
    requires Swept(b0, b, s, e, ptr) && ptr < e
    ensures ptr in b && ptr in b0 && b[ptr] == b0[ptr]
    ensures b[ptr].alive ==> b[ptr].Occupied()
    ensures 0 < b[ptr].size && ptr + b[ptr].size <= e && Tiled(b0, ptr + b[ptr].size, e)
  {
    TiledDrop(b0, ptr, e);
  }

  lemma KeepBlock(b0: Blocks, b: Blocks, s: int, e: int, ptr: int)
    requires Swept(b0, b, s, e, ptr) && ptr < e && ptr in b0 && b0[ptr].alive && b0[ptr].Occupied()
    ensures var b', q := b[ptr := b0[ptr].(alive := b0[ptr].event)], ptr + b0[ptr].size;
      Swept(b0, b', s, e, q) && FreeSet(b', s, q) == FreeSet(b, s, ptr) && RunEnded(b0, b', s, e, q)
  {
    hide Tiled, Coalesced, FreeHeaders, NoHoles, Survivors, Contents;
    TiledDrop(b0, ptr, e);
    var h, q := b0[ptr].(alive := b0[ptr].event), End(b0, ptr);
    var b1 := RemoveRange(b, ptr, q);
    WithinFrame(b, b1, s, ptr);
    PushOccupied(b1, s, ptr, h);
    WithinFrame(b1[ptr := h], b[ptr := h], s, q);
    SurvivorsPush(b0, s, ptr, q);
    FreeEnds(b, s, ptr);
  }

  lemma FreeRun(b0: Blocks, b: Blocks, s: int, e: int, ptr: int, q: int)
    requires Swept(b0, b, s, e, ptr) && ptr < q <= e && Tiled(b0, q, e)
    requires forall a :: a in b0 && ptr <= a < q ==> !b0[a].alive
    requires forall a :: a in FreeSet(b, s, ptr) ==> a + b[a].size < ptr
    ensures var b' := RemoveRange(b, ptr, q)[ptr := FreeHeader(q - ptr)];
      Swept(b0, b', s, e, q) && FreeSet(b', s, q) == FreeSet(b, s, ptr) + {ptr}
  {
    hide Tiled, BlocksOK, NoHoles, Contents;
    var b1 := RemoveRange(b, ptr, q);
    WithinFrame(b, b1, s, ptr);
    PushFree(b1, s, ptr, q - ptr);
    assert Survivors(b0, s, q) == Survivors(b0, s, ptr);
  }

  lemma FreeEnds(b: Blocks, s: int, e: int)
    requires Tiled(b, s, e)
    ensures forall a :: a in FreeSet(b, s, e) ==> a + b[a].size <= e
  {
    assert forall a :: a in FreeSet(b, s, e) ==> End(b, a) <= e;
  }

  lemma NothingSurvives(b: Blocks, s: int, e: int)
    requires forall a :: a in b && s <= a < e ==> !b[a].alive
    ensures Survivors(b, s, e) == map[]
  {
  }

  lemma CarvingStarts(b: Blocks, n: Links, p: Links, s: int, e: int)
    requires forall a :: a in b ==> a < s || a >= e
    ensures Tiled(b, s, s) && SameOutside(b, n, p, b, n, p, s, e)
  {
  }

  lemma SurvivorsPush(b0: Blocks, s: int, ptr: int, q: int)
    requires ptr in b0 && s <= ptr < q && b0[ptr].alive
    requires forall a :: ptr < a < q ==> a !in b0
    ensures Survivors(b0, s, q) == Survivors(b0, s, ptr)[ptr := b0[ptr].(alive := b0[ptr].event)]
  {
  }

  lemma TiledHead(b: Blocks, m: int, e: int)
    requires Tiled(b, m, e)
    ensures m < e ==> m in b
  {
  }

  /** The first block of a range ends where the rest begins. */
  lemma TiledDrop(b: Blocks, m: int, e: int)
    requires Tiled(b, m, e) && m < e
    ensures m in b && m < m + b[m].size <= e && Tiled(b, m + b[m].size, e)
    ensures forall a :: m < a < m + b[m].size ==> a !in b
  {
    assert End(b, m) == e || End(b, m) in b;
    assert forall a :: a in b && m < a < e ==> End(b, m) <= a;
  }

  // ----- Adding up the free list

  lemma NoFreeAbove(b: Blocks, s: int, e: int, ptr: int, above: int)
    requires Tiled(b, s, e)
    ensures Tiled(b, e, e) && SizeFrom(b, e, e, false) == 0
    ensures forall a :: a in FreeSet(b, s, e) ==> a < e
  {
  }

  /** Blocks in use add nothing to the free size. */
  lemma {:induction false} GapSize(b: Blocks, s: int, m: int, q: int, e: int)
    requires Tiled(b, s, e) && s <= m <= q <= e && (m == e || m in b) && (q == e || q in b)
    requires NoHoles(b, s, e) && forall a :: a in FreeSet(b, s, e) ==> a < m || q <= a
    ensures Tiled(b, m, e) && Tiled(b, q, e)
    ensures SizeFrom(b, m, e, false) == SizeFrom(b, q, e, false)
    decreases e - m
  {
    TiledSuffix(b, s, m, e);
    TiledSuffix(b, s, q, e);
    if m < q {
      assert m !in FreeSet(b, s, e) && !b[m].kind.Hole?;
      assert m == q || End(b, m) <= q;
      GapSize(b, s, End(b, m), q, e);
    }
  }

  lemma FreeStep(b: Blocks, s: int, e: int, ptr: int, above: int)
    requires Tiled(b, s, e) && NoHoles(b, s, e) && ptr in FreeSet(b, s, e)
    requires ptr < above <= e && (above == e || above in b)
    requires forall a :: a in FreeSet(b, s, e) ==> a <= ptr || above <= a
    ensures Tiled(b, ptr, e) && Tiled(b, above, e) && ptr in b
    ensures SizeFrom(b, ptr, e, false) == b[ptr].size + SizeFrom(b, above, e, false)
  {
    TiledSuffix(b, s, ptr, e);
    assert IsFree(b, ptr) && End(b, ptr) <= above;
    GapSize(b, s, End(b, ptr), above, e);
  }

  // ----- Filling a hole

  /** The hole at `node` became part of the free block `res`; nothing else changed except that
    * the free blocks next to the hole were swallowed. */
  ghost predicate Filled(b: Blocks, b': Blocks, s: int, e: int, node: int, size: int, res: int) {
    && s <= res <= node && IsFree(b', res) && node + size <= res + b'[res].size
    && SameBlocksOutside(b, b', res, res + b'[res].size)
    && (forall a :: a in b && res <= a < res + b'[res].size ==> a == node || IsFree(b, a))
    && (forall a :: a in b' && res < a ==> res + b'[res].size <= a)
    && Contents(b', s, e) == Contents(b, s, e)
  }

  /** A range of blocks may be replaced by one block of the same total size. */
  lemma TiledMelt(b: Blocks, s: int, e: int, lo: int, hi: int, h: Block)
    requires Tiled(b, s, e) && lo in b && s <= lo < hi <= e && (hi == e || hi in b) && h.size == hi - lo
    ensures Tiled(RemoveRange(b, lo, hi)[lo := h], s, e)
  {
    hide Tiled;
    var b1 := RemoveRange(b, lo, hi);
    TiledSplit(b, s, lo, e);
    TiledSuffix(b, s, hi, e);
    TiledFrame(b, b1, s, lo);
    TiledPush(b1, s, lo, h);
    TiledFrame(b, b1[lo := h], hi, e);
    TiledJoin(b1[lo := h], s, hi, e);
  }

  lemma TiledSuffix(b: Blocks, s: int, m: int, e: int)
    requires Tiled(b, s, e) && s <= m <= e && (m == e || m in b)
    ensures Tiled(b, m, e)
  {
    if m < e {
      TiledSplit(b, s, m, e);
    }
  }

  /** What the list says about the blocks next to a hole. */
  lemma Neighbours(b: Blocks, n: Links, p: Links, s: int, e: int, node: int, size: int, ptr: int)
    requires Tiled(b, s, e) && ListOK(FreeSet(b, s, e), n, p, s, e)
    requires s <= node < e && node in b && b[node] == HoleHeader(size)
    requires HasPrev(FreeSet(b, s, e), e, ptr) && ptr in p && p[ptr] < node < ptr
    ensures 0 < size && node + size <= ptr <= e
    ensures ptr != e ==> ptr in b && 0 < b[ptr].size && ptr + b[ptr].size <= e
    ensures p[ptr] != s - 1 ==> p[ptr] in b && s <= p[ptr] && p[ptr] + b[p[ptr]].size <= node
    ensures forall a :: a in FreeSet(b, s, e) ==> a <= p[ptr] || ptr <= a
    ensures forall a :: a in b && node < a ==> node + size <= a
  {
    assert End(b, node) <= e;
    assert forall a :: a in b && s <= a < node ==> End(b, a) <= node;
    PrevIsNearest(FreeSet(b, s, e), n, p, s, e, ptr);
  }

  /** The two tests of InsertInOrder find the free neighbours of the hole. */
  lemma Edges(b: Blocks, n: Links, p: Links, s: int, e: int, node: int, size: int, q: int, lo: int, hi: int)
    requires Tiled(b, s, e) && ListOK(FreeSet(b, s, e), n, p, s, e)
    requires s <= node < e && node in b && b[node] == HoleHeader(size)
    requires HasPrev(FreeSet(b, s, e), e, q) && q in p && p[q] < node < q
    requires p[q] != s - 1 ==> p[q] in b
    requires lo == if p[q] != s - 1 && p[q] + b[p[q]].size == node then p[q] else node
    requires q != e ==> q in b
    requires hi == if q != e && node + size == q then q + b[q].size else node + size
    ensures LowEdge(b, s, e, node, lo) && HighEdge(b, s, e, node + size, hi)
    ensures FreeSet(b, s, e) - {node + size} + {lo}
      == FreeSet(b, s, e) + {node} - (if hi == node + size then {} else {q}) - (if lo == node then {} else {node})
  {
    Neighbours(b, n, p, s, e, node, size, q);
    PrevIsNearest(FreeSet(b, s, e), n, p, s, e, q);
    forall a | a in FreeSet(b, s, e) && a < node && lo == node ensures a + b[a].size < node {
      assert a < p[q] ==> End(b, a) <= p[q];
    }
  }

  /** The header and list updates of InsertInOrder amount to filling the hole. */
  lemma Coalesce(b: Blocks, n: Links, p: Links, s: int, e: int, node: int, size: int, q: int, lo: int, hi: int)
    requires BlocksOK(b, s, e) && ListOK(FreeSet(b, s, e), n, p, s, e)
    requires s <= node < e && node in b && b[node] == HoleHeader(size)
    requires HasPrev(FreeSet(b, s, e), e, q) && q in p && p[q] < node < q
    requires p[q] != s - 1 ==> p[q] in b
    requires lo == if p[q] != s - 1 && p[q] + b[p[q]].size == node then p[q] else node
    requires q != e ==> q in b
    requires hi == if q != e && node + size == q then q + b[q].size else node + size
    ensures var absorbed := (if hi == node + size then {} else {q}) + (if lo == node then {} else {node});
      var b' := (b - absorbed)[lo := FreeHeader(hi - lo)];
      && BlocksOK(b', s, e) && Filled(b, b', s, e, node, size, lo) && SameBlocksOutside(b, b', s, e)
      && FreeSet(b', s, e) == FreeSet(b, s, e) + {node} - absorbed
  {
    hide BlocksOK, ListOK, FreeSet, LowEdge, HighEdge, Filled;
    BlocksAreTiled(b, s, e);
    Edges(b, n, p, s, e, node, size, q, lo, hi);
    FillRange(b, s, e, node, size, lo, hi);
    var absorbed := (if hi == node + size then {} else {q}) + (if lo == node then {} else {node});
    assert (b - absorbed)[lo := FreeHeader(hi - lo)] == RemoveRange(b, lo, hi)[lo := FreeHeader(hi - lo)];
    Fill(b, s, e, node, size, lo, hi);
    RangeOutside(b, s, e, lo, hi, FreeHeader(hi - lo));
  }

  lemma BlocksAreTiled(b: Blocks, s: int, e: int)
    requires BlocksOK(b, s, e)
    ensures Tiled(b, s, e)
  {
  }

  /** `lo` is the start of the free block that ends at `node`, or `node` if there is none. */
  ghost predicate LowEdge(b: Blocks, s: int, e: int, node: int, lo: int) {
    if lo == node then forall a :: a in FreeSet(b, s, e) && a < node ==> a + b[a].size < node
    else lo in FreeSet(b, s, e) && lo + b[lo].size == node
  }

  /** `hi` is the end of the free block that starts at `q`, or `q` if there is none. */
  ghost predicate HighEdge(b: Blocks, s: int, e: int, q: int, hi: int) {
    if q in FreeSet(b, s, e) then hi == q + b[q].size else hi == q
  }

  lemma Fill(b: Blocks, s: int, e: int, node: int, size: int, lo: int, hi: int)
    requires BlocksOK(b, s, e) && s <= node < e && node in b && b[node] == HoleHeader(size)
    requires LowEdge(b, s, e, node, lo) && HighEdge(b, s, e, node + size, hi)
    ensures s <= lo <= node < hi <= e
    ensures var b' := RemoveRange(b, lo, hi)[lo := FreeHeader(hi - lo)];
      && BlocksOK(b', s, e) && Filled(b, b', s, e, node, size, lo)
      && FreeSet(b', s, e) == FreeSet(b, s, e) - {node + size} + {lo}
  {
    hide Coalesced, FreeHeaders, LowEdge, HighEdge, Tiled, Contents, FreeSet;
    FillRange(b, s, e, node, size, lo, hi);
    TiledMelt(b, s, e, lo, hi, FreeHeader(hi - lo));
    FillHeaders(b, s, e, lo, hi);
    FillApart(b, s, e, node, size, lo, hi);
    FillCoalesced(b, s, e, lo, hi);
    FillContents(b, s, e, node, size, lo, hi);
  }

  lemma FillRange(b: Blocks, s: int, e: int, node: int, size: int, lo: int, hi: int)
    requires Tiled(b, s, e) && s <= node < e && node in b && b[node].size == size
    requires LowEdge(b, s, e, node, lo) && HighEdge(b, s, e, node + size, hi)
    ensures s <= lo <= node < node + size <= hi <= e && lo in b && (hi == e || hi in b)
    ensures forall a :: a in b && lo <= a < hi ==> a == node || (IsFree(b, a) && (a == lo || a == node + size))
  {
    assert End(b, node) <= e;
    assert lo != node ==> End(b, lo) == node;
    assert hi != node + size ==> End(b, node + size) == hi;
  }

  lemma FillHeaders(b: Blocks, s: int, e: int, lo: int, hi: int)
    requires FreeHeaders(b, s, e)
    ensures FreeHeaders(RemoveRange(b, lo, hi)[lo := FreeHeader(hi - lo)], s, e)
  {
  }

  lemma FillApart(b: Blocks, s: int, e: int, node: int, size: int, lo: int, hi: int)
    requires Coalesced(b, s, e) && Tiled(b, s, e) && s <= node < e && node in b && b[node].size == size
    requires LowEdge(b, s, e, node, lo) && HighEdge(b, s, e, node + size, hi)
    ensures forall x :: x in FreeSet(b, s, e) && x < lo ==> x + b[x].size < lo
    ensures forall x :: x in FreeSet(b, s, e) && lo < x && x != node + size ==> hi < x
    ensures node + size in FreeSet(b, s, e) ==> node + size < hi
  {
    assert forall x :: x in FreeSet(b, s, e) ==> IsFree(b, x);
    assert node + size in FreeSet(b, s, e) ==> End(b, node + size) == hi && 0 < b[node + size].size;
    forall x | x in FreeSet(b, s, e) && lo < x && x != node + size ensures hi < x {
      assert End(b, node) <= e;
      assert lo < node ==> IsFree(b, lo);
      assert node <= x && (x == node || End(b, node) <= x);
    }
  }

  lemma FillCoalesced(b: Blocks, s: int, e: int, lo: int, hi: int)
    requires Coalesced(b, s, e) && s <= lo < hi
    requires forall x :: x in FreeSet(b, s, e) && x < lo ==> x + b[x].size < lo
    requires forall x :: x in FreeSet(b, s, e) && lo < x && hi <= x ==> hi < x
    ensures Coalesced(RemoveRange(b, lo, hi)[lo := FreeHeader(hi - lo)], s, e)
  {
    var b' := RemoveRange(b, lo, hi)[lo := FreeHeader(hi - lo)];
    forall a, x | s <= a < x < e && IsFree(b', a) && IsFree(b', x)
      ensures a + b'[a].size < x
    {
      if a != lo && x != lo {
        assert IsFree(b, a) && IsFree(b, x);
      } else if a == lo {
        assert x in FreeSet(b, s, e);
      } else {
        assert a in FreeSet(b, s, e);
      }
    }
  }

  lemma FillContents(b: Blocks, s: int, e: int, node: int, size: int, lo: int, hi: int)
    requires s <= lo <= node < node + size <= hi <= e && node in b && b[node].kind.Hole?
    requires node + size in FreeSet(b, s, e) ==> node + size < hi
    requires HighEdge(b, s, e, node + size, hi)
    requires forall a :: a in b && lo <= a < hi ==> a == node || (IsFree(b, a) && (a == lo || a == node + size))
    requires forall x :: x in FreeSet(b, s, e) && lo < x && x != node + size ==> hi < x
    ensures var b' := RemoveRange(b, lo, hi)[lo := FreeHeader(hi - lo)];
      && Filled(b, b', s, e, node, size, lo)
      && FreeSet(b', s, e) == FreeSet(b, s, e) - {node + size} + {lo}
  {
    var b' := RemoveRange(b, lo, hi)[lo := FreeHeader(hi - lo)];
    assert Contents(b', s, e) == Contents(b, s, e);
    FillFreeSet(b, s, e, node + size, lo, hi);
  }

  lemma FillFreeSet(b: Blocks, s: int, e: int, q: int, lo: int, hi: int)
    requires s <= lo < q <= hi <= e && HighEdge(b, s, e, q, hi)
    requires forall x :: x in FreeSet(b, s, e) && lo < x && x != q ==> hi < x
    requires q in FreeSet(b, s, e) ==> q < hi
    ensures FreeSet(RemoveRange(b, lo, hi)[lo := FreeHeader(hi - lo)], s, e) == FreeSet(b, s, e) - {q} + {lo}
  {
    var b' := RemoveRange(b, lo, hi)[lo := FreeHeader(hi - lo)];
    forall x ensures x in FreeSet(b', s, e) <==> x in FreeSet(b, s, e) - {q} + {lo} {
      assert x != lo ==> (x in b' <==> x in b && (x < lo || hi <= x));
    }
  }

  lemma HoleIsUnlinked(b: Blocks, s: int, e: int, node: int)
    requires node in b && b[node].kind.Hole?
    ensures node !in FreeSet(b, s, e)
  {
  }

  // ----- The three ways a free block is consumed

  /** The memory after the block `r` with header `h` was carved out of a cluster. */
  ghost predicate Carved(b: Blocks, n: Links, p: Links, b': Blocks, n': Links, p': Links,
                         s: int, e: int, r: int, h: Block) {
    && ClusterOK(b', n', p', s, e) && NoHoles(b', s, e)
    && SameOutside(b, n, p, b', n', p', s, e)
    && r in b' && b'[r] == h
    && Contents(b', s, e) == Contents(b, s, e)[r := h]
  }

  /** The contents gain the new block and nothing else. */
  lemma CarveFrame(b: Blocks, s: int, e: int, fb: int, r: int, h: Block, q: int, rest: Block)
    requires Tiled(b, s, e) && NoHoles(b, s, e) && s <= fb < e && IsFree(b, fb)
    requires fb <= r < fb + b[fb].size && fb <= q < fb + b[fb].size && (r == fb || q == fb)
    requires h.Occupied() && (if q == r then rest == h else rest.kind.FreeBlock?)
    ensures var b' := b[q := rest][r := h];
      && NoHoles(b', s, e) && SameBlocksOutside(b, b', s, e)
      && Contents(b', s, e) == Contents(b, s, e)[r := h]
  {
    assert forall a :: fb < a < End(b, fb) ==> a !in b;
  }

  /** Cutting one block in two keeps the tiling. */
  lemma TiledCut(b: Blocks, s: int, e: int, a: int, low: Block, high: Block)
    requires Tiled(b, s, e) && a in b && s <= a < e
    requires 0 < low.size && 0 < high.size && low.size + high.size == b[a].size
    ensures Tiled(b[a := low][a + low.size := high], s, e)
  {
    var b' := b[a := low][a + low.size := high];
    hide Tiled;
    var m := a + low.size;
    TiledSplit(b, s, a, e);
    TiledDrop(b, a, e);
    var b1 := RemoveRange(b, a, End(b, a));
    assert SameWithin(b, b1, s, a) && SameWithin(b, b1, End(b, a), e);
    TiledFrame(b, b1, s, a);
    TiledPush(b1, s, a, low);
    TiledPush(b1[a := low], s, m, high);
    TiledFrame(b1[a := low][m := high], b', s, End(b, a));
    TiledFrame(b, b', End(b, a), e);
    TiledJoin(b', s, End(b, a), e);
  }

  /** Replacing a header by one of the same size keeps the tiling. */
  lemma TiledRelabel(b: Blocks, s: int, e: int, a: int, h: Block)
    requires Tiled(b, s, e) && a in b && s <= a < e && h.size == b[a].size
    ensures Tiled(b[a := h], s, e)
  {
    var b' := b[a := h];
    assert forall x :: x in b && s <= x < e ==> End(b', x) == End(b, x);
  }

  /** A free block changes hands as a whole. */
  lemma BlocksRelabel(b: Blocks, s: int, e: int, a: int, h: Block)
    requires BlocksOK(b, s, e) && s <= a < e && IsFree(b, a)
    requires h.size == b[a].size && !h.kind.FreeBlock? && (h.kind.Hole? ==> h == HoleHeader(h.size))
    ensures BlocksOK(b[a := h], s, e)
    ensures FreeSet(b[a := h], s, e) == FreeSet(b, s, e) - {a}
  {
    TiledRelabel(b, s, e, a, h);
    var b' := b[a := h];
    assert forall x :: IsFree(b', x) ==> IsFree(b, x) && x != a && b'[x] == b[x];
  }

  /** A free block is cut in two; `f` is the part that stays free. */
  lemma BlocksCut(b: Blocks, s: int, e: int, a: int, low: Block, high: Block, f: int)
    requires BlocksOK(b, s, e) && s <= a < e && IsFree(b, a)
    requires 0 < low.size && 0 < high.size && low.size + high.size == b[a].size
    requires if f == a then low == FreeHeader(low.size) && high.Occupied()
             else f == a + low.size && high == FreeHeader(high.size) && low.Occupied()
    ensures var b' := b[a := low][a + low.size := high];
      BlocksOK(b', s, e) && FreeSet(b', s, e) == FreeSet(b, s, e) - {a} + {f}
  {
    var b' := b[a := low][a + low.size := high];
    TiledCut(b, s, e, a, low, high);
    CoalescedCut(b, s, e, a, low, high, f);
    assert a + low.size < End(b, a);
    assert a + low.size !in b;
    assert forall x :: IsFree(b', x) <==> (IsFree(b, x) && x != a) || x == f;
  }

  lemma CoalescedCut(b: Blocks, s: int, e: int, a: int, low: Block, high: Block, f: int)
    requires Tiled(b, s, e) && Coalesced(b, s, e) && s <= a < e && IsFree(b, a)
    requires 0 < low.size && 0 < high.size && low.size + high.size == b[a].size
    requires if f == a then !high.kind.FreeBlock? else f == a + low.size && !low.kind.FreeBlock?
    ensures Coalesced(b[a := low][a + low.size := high], s, e)
  {
    var b' := b[a := low][a + low.size := high];
    forall x, y | s <= x < y < e && IsFree(b', x) && IsFree(b', y) ensures x + b'[x].size < y {
      var x0 := if x == f then a else x;
      var y0 := if y == f then a else y;
      assert IsFree(b, x0) && IsFree(b, y0);
      assert x0 < y0;
    }
  }

  lemma TakeWhole(b: Blocks, n: Links, p: Links, s: int, e: int, fb: int, h: Block)
    requires ClusterOK(b, n, p, s, e) && s <= fb < e && IsFree(b, fb)
    requires h.size == b[fb].size && !h.kind.FreeBlock? && (h.kind.Hole? ==> h == HoleHeader(h.size))
    ensures fb in p && fb in n
    ensures ClusterOK(b[fb := h], n[p[fb] := n[fb]], p[n[fb] := p[fb]], s, e)
    ensures s - 1 <= p[fb] < fb < n[fb] <= e && 0 < h.size
  {
    BlocksRelabel(b, s, e, fb, h);
    var f := FreeSet(b, s, e);
    PrevIsNearest(f, n, p, s, e, fb);
    NextIsNearest(f, n, p, s, e, fb);
    ListRemove(f, n, p, s, e, fb);
  }

  lemma TakeTop(b: Blocks, n: Links, p: Links, s: int, e: int, fb: int, h: Block)
    requires ClusterOK(b, n, p, s, e) && s <= fb < e && IsFree(b, fb)
    requires 0 < h.size < b[fb].size && h.Occupied()
    ensures ClusterOK(b[fb := FreeHeader(b[fb].size - h.size)][fb + b[fb].size - h.size := h], n, p, s, e)
  {
    BlocksCut(b, s, e, fb, FreeHeader(b[fb].size - h.size), h, fb);
    assert FreeSet(b, s, e) - {fb} + {fb} == FreeSet(b, s, e);
  }

  lemma TakeBottom(b: Blocks, n: Links, p: Links, s: int, e: int, fb: int, h: Block)
    requires ClusterOK(b, n, p, s, e) && s <= fb < e && IsFree(b, fb)
    requires 0 < h.size < b[fb].size && h.Occupied()
    ensures fb in p && fb in n
    ensures var ptr := fb + h.size;
      ClusterOK(b[ptr := FreeHeader(b[fb].size - h.size)][fb := h],
                n[ptr := n[fb]][p[fb] := ptr], p[ptr := p[fb]][n[fb] := ptr], s, e)
      && SameLinksOutside(n, n[ptr := n[fb]][p[fb] := ptr], s, e)
      && SameLinksOutside(p, p[ptr := p[fb]][n[fb] := ptr], s, e)
  {
    var ptr := fb + h.size;
    var rest := FreeHeader(b[fb].size - h.size);
    BlocksCut(b, s, e, fb, h, rest, ptr);
    assert b[ptr := rest][fb := h] == b[fb := h][ptr := rest];
    NextAfterFree(b, n, p, s, e, fb);
    ListSlide(FreeSet(b, s, e), n, p, s, e, fb, ptr);
  }

  lemma NextAfterFree(b: Blocks, n: Links, p: Links, s: int, e: int, fb: int)
    requires ClusterOK(b, n, p, s, e) && s <= fb < e && IsFree(b, fb)
    ensures fb in n && fb + b[fb].size <= n[fb] <= e
  {
    assert End(b, fb) <= e;
    NextIsNearest(FreeSet(b, s, e), n, p, s, e, fb);
  }

  /** Replacing a member by a higher one below its successor. */
  lemma ListSlide(f: set<int>, n: Links, p: Links, s: int, e: int, x: int, x': int)
    requires ListOK(f, n, p, s, e) && x in f && x in n && x < x' < n[x] <= e
    ensures x in p && s - 1 <= p[x] < x
    ensures ListOK(f - {x} + {x'}, n[x' := n[x]][p[x] := x'], p[x' := p[x]][n[x] := x'], s, e)
    ensures SameLinksOutside(n, n[x' := n[x]][p[x] := x'], s, e)
    ensures SameLinksOutside(p, p[x' := p[x]][n[x] := x'], s, e)
  {
    PrevIsNearest(f, n, p, s, e, x);
    NextIsNearest(f, n, p, s, e, x);
    ListRemove(f, n, p, s, e, x);
    var n1, p1 := n[p[x] := n[x]], p[n[x] := p[x]];
    ListInsert(f - {x}, n1, p1, s, e, x', n[x]);
    assert n1[x' := n[x]][p[x] := x'] == n[x' := n[x]][p[x] := x'];
    assert p1[x' := p[x]][n[x] := x'] == p[x' := p[x]][n[x] := x'];
  }
}
