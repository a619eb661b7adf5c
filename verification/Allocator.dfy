/** Allocation over all clusters, with a garbage collection before it gives up. */
module Allocation {
  import opened HeapModel
  import opened Clusters
  import opened Heap
  import opened Marking
  import opened MarkerLoop
  import opened MarkPhases
  import opened WeakPhases
  import opened Collection

  /** A block was carved out of free space; every other block in use is as it was. */
  ghost predicate AllocatedFrom(b: Blocks, b': Blocks, a: int, kind: Kind, flags: Flags, length: int) {
    && a in b' && b'[a] == Block(length, kind, flags.alive, flags.event, flags.pinned, b'[a].cells)
    && (flags.initializeToZero ==> 0 < length && b'[a].cells == seq(length - 1, _ => Data(0)))
    && InFreeBlock(b, a, length) && !InUse(b, a)
    && (forall x :: x != a ==> (InUse(b', x) <==> InUse(b, x)))
    && (forall x :: x != a && InUse(b, x) && x in b' ==> b'[x] == b[x])
  }

  ghost predicate NothingFits(b: Blocks, length: int) {
    forall a :: IsFree(b, a) ==> b[a].size < length
  }

  ghost predicate NothingFitsIn(b: Blocks, x: Extent, length: int) {
    forall a :: a in FreeSet(b, x.start, x.end) ==> b[a].size < length
  }

  /** The cluster a block at `a` comes from.  Event blocks come from the last cluster with room; other
    * blocks from the cluster that served last if it has room, and from the first one with room
    * otherwise. */
  ghost predicate Chosen(b: Blocks, ext: seq<Extent>, length: int, event: bool, last: int, i: nat, a: int) {
    && i < |ext| && ext[i].start <= a < ext[i].end
    && if event then forall j :: i < j < |ext| ==> NothingFitsIn(b, ext[j], length)
       else if 0 <= last < |ext| && !NothingFitsIn(b, ext[last], length) then i == last
       else forall j :: 0 <= j < i ==> NothingFitsIn(b, ext[j], length)
  }

  /** In its cluster, the block is the bottom of the lowest free block with room, and an event block
    * the top of the highest one. */
  ghost predicate CarvedFrom(b: Blocks, x: Extent, length: int, event: bool, a: int, fb: int) {
    && fb in FreeSet(b, x.start, x.end) && length <= b[fb].size
    && (if event then a + length == End(b, fb) else a == fb)
    && forall f :: f in FreeSet(b, x.start, x.end) && (if event then fb < f else f < fb) ==> b[f].size < length
  }

  lemma CarvedFromFit(b: Blocks, n: Links, p: Links, ext: seq<Extent>, i: nat, length: int, event: bool, a: int, fb: int)
    requires HeapOK(b, n, p, ext) && i < |ext| && 0 < length && Fits(b, ext[i].start, ext[i].end, length, event, fb)
    requires a == (if event then fb + b[fb].size - length else fb)
    ensures CarvedFrom(b, ext[i], length, event, a, fb) && ext[i].start <= a < ext[i].end
    ensures !NothingFitsIn(b, ext[i], length)
  {
    ClusterShape(b, n, p, ext, i);
    assert fb in FreeSet(b, ext[i].start, ext[i].end);
    assert End(b, fb) <= ext[i].end;
  }

  /** A block carved in one cluster is a block carved in the heap. */
  lemma CarvedInHeap(b: Blocks, n: Links, p: Links, b': Blocks, n': Links, p': Links, ext: seq<Extent>, i: nat, a: int, fb: int,
                     kind: Kind, flags: Flags, length: int)
    requires HeapOK(b, n, p, ext) && i < |ext| && SameOutside(b, n, p, b', n', p', ext[i].start, ext[i].end)
    requires ClusterOK(b', n', p', ext[i].start, ext[i].end) && NoHoles(b', ext[i].start, ext[i].end) && HoleFree(b)
    requires 0 < length && Fits(b, ext[i].start, ext[i].end, length, flags.event, fb)
    requires a == (if flags.event then fb + b[fb].size - length else fb) && a in b'
    requires b'[a] == Block(length, kind, flags.alive, flags.event, flags.pinned, b'[a].cells) && !kind.FreeBlock? && !kind.Hole?
    requires flags.initializeToZero ==> b'[a].cells == seq(length - 1, _ => Data(0))
    requires Contents(b', ext[i].start, ext[i].end) == Contents(b, ext[i].start, ext[i].end)[a := b'[a]]
    ensures HeapOK(b', n', p', ext) && HoleFree(b') && AllocatedFrom(b, b', a, kind, flags, length)
  {
    hide ClusterOK, HeapOK;
    HeapStep(b, n, p, b', n', p', ext, i);
    ClusterShape(b, n, p, ext, i);
    var s, e := ext[i].start, ext[i].end;
    assert IsFree(b, fb) && End(b, fb) <= e;
    CarvedKeeps(b, b', s, e, a);
    var after := End(b, fb);
    assert a == fb || a !in b;
  }

  lemma CarvedKeeps(b: Blocks, b': Blocks, s: int, e: int, a: int)
    requires SameBlocksOutside(b, b', s, e) && a in b' && HoleFree(b) && NoHoles(b', s, e)
    requires s <= a < e && Contents(b', s, e) == Contents(b, s, e)[a := b'[a]]
    ensures HoleFree(b')
    ensures forall x :: x != a ==> (InUse(b', x) <==> InUse(b, x))
    ensures forall x :: x != a && InUse(b, x) && x in b' ==> b'[x] == b[x]
  {
    forall x | x != a && s <= x < e
      ensures InUse(b', x) <==> InUse(b, x)
      ensures InUse(b, x) && x in b' ==> b'[x] == b[x]
    {
      assert x in Contents(b', s, e) <==> x in Contents(b, s, e);
    }
  }

  lemma NothingFitsAnywhere(b: Blocks, n: Links, p: Links, ext: seq<Extent>, length: int)
    requires HeapOK(b, n, p, ext) && forall i :: 0 <= i < |ext| ==> NothingFitsIn(b, ext[i], length)
    ensures NothingFits(b, length)
  {
    forall a | IsFree(b, a) ensures b[a].size < length {
      assert Inside(ext, a);
      var i :| 0 <= i < |ext| && ext[i].start <= a < ext[i].end;
      assert a in FreeSet(b, ext[i].start, ext[i].end);
    }
  }

  lemma ClusterIsReady(b: Blocks, n: Links, p: Links, ext: seq<Extent>, i: nat)
    requires HeapOK(b, n, p, ext) && i < |ext| && HoleFree(b)
    ensures ClusterOK(b, n, p, ext[i].start, ext[i].end) && NoHoles(b, ext[i].start, ext[i].end)
  {
  }

  class Allocator {
    const collector: Collector
    var lastUsed: int                  // m_lastHcUsed: a cluster, or -1
    var compactionPending: bool

    constructor (collector: Collector)
      ensures this.collector == collector && lastUsed == -1 && !compactionPending
    {
      this.collector := collector;
      lastUsed, compactionPending := -1, false;
    }

    ghost predicate HeapReady()
      reads this, collector.mem
    {
      && Wired(collector.mem, collector.clusters, collector.ext)
      && HeapOK(collector.mem.blocks, collector.mem.next, collector.mem.prev, collector.ext)
      && HoleFree(collector.mem.blocks) && -1 <= lastUsed < |collector.clusters|
    }

    method TryCluster(i: nat, kind: Kind, flags: Flags, length: int) returns (res: Option<int>, ghost fb: int)
      requires HeapReady() && i < |collector.clusters| && 0 < length && !kind.FreeBlock? && !kind.Hole?
      modifies collector.mem
      ensures HeapReady()
      ensures res.None? <==> old(NothingFitsIn(collector.mem.blocks, collector.ext[i], length))
      ensures res.None? ==> unchanged(collector.mem)
      ensures res.Some? ==>
        && AllocatedFrom(old(collector.mem.blocks), collector.mem.blocks, res.value, kind, flags, length)
        && CarvedFrom(old(collector.mem.blocks), collector.ext[i], length, flags.event, res.value, fb)
        && collector.ext[i].start <= res.value < collector.ext[i].end
    {
      hide HeapOK, HoleFree, ClusterOK, SameOutside, Contents, Fits, FreeSet, NoHoles, AllocatedFrom, CarvedFrom;
      var mem := collector.mem;
      ghost var ext, b, n, p := collector.ext, mem.blocks, mem.next, mem.prev;
      ClusterIsReady(b, n, p, ext, i);
      res, fb := collector.clusters[i].ExtractBlocks(kind, flags, length);
      if res.Some? {
        CarvedInHeap(b, n, p, mem.blocks, mem.next, mem.prev, ext, i, res.value, fb, kind, flags, length);
        CarvedFromFit(b, n, p, ext, i, length, flags.event, res.value, fb);
      }
    }

    /** One phase of ExtractHeapBlocks: event blocks try the clusters backwards, others the cluster
      * that served last and then all of them in order. */
    method TryClusters(kind: Kind, flags: Flags, length: int) returns (res: Option<int>, ghost i: nat, ghost fb: int)
      requires HeapReady() && 0 < length && !kind.FreeBlock? && !kind.Hole?
      modifies this`lastUsed, collector.mem
      ensures HeapReady()
      ensures res.None? ==> unchanged(collector.mem) && NothingFits(collector.mem.blocks, length) && lastUsed == -1
      ensures res.Some? ==>
        && AllocatedFrom(old(collector.mem.blocks), collector.mem.blocks, res.value, kind, flags, length)
        && Chosen(old(collector.mem.blocks), collector.ext, length, flags.event, old(lastUsed), i, res.value)
        && CarvedFrom(old(collector.mem.blocks), collector.ext[i], length, flags.event, res.value, fb)
        && lastUsed == (if flags.event then old(lastUsed) else i)
    {
      hide HeapOK, HoleFree, NothingFitsIn, AllocatedFrom, NothingFits, CarvedFrom;
      var count := |collector.clusters|;
      if flags.event {
        var c := count;
        while c > 0
          invariant 0 <= c <= count && HeapReady() && unchanged(collector.mem) && lastUsed == old(lastUsed)
          invariant forall j :: c <= j < count ==> NothingFitsIn(collector.mem.blocks, collector.ext[j], length)
        {
          c := c - 1;
          res, fb := TryCluster(c, kind, flags, length);
          if res.Some? {
            i := c;
            return;
          }
        }
      } else {
        if lastUsed != -1 {
          res, fb := TryCluster(lastUsed, kind, flags, length);
          if res.Some? {
            i := lastUsed;
            return;
          }
        }
        var c := 0;
        while c < count
          invariant 0 <= c <= count && HeapReady() && unchanged(collector.mem) && lastUsed == old(lastUsed)
          invariant lastUsed != -1 ==> NothingFitsIn(collector.mem.blocks, collector.ext[lastUsed], length)
          invariant forall j :: 0 <= j < c ==> NothingFitsIn(collector.mem.blocks, collector.ext[j], length)
        {
          res, fb := TryCluster(c, kind, flags, length);
          if res.Some? {
            lastUsed, i := c, c;
            return;
          }
          c := c + 1;
        }
      }
      NothingFitsAnywhere(collector.mem.blocks, collector.mem.next, collector.mem.prev, collector.ext, length);
      lastUsed := -1;
      res, i, fb := None, 0, 0;
    }

    /** ExtractHeapBlocks: the clusters are tried, and tried again after a collection unless the caller
      * forbids one.  `b` is the heap the block is taken from. */
    method ExtractHeapBlocks(kind: Kind, flags: Flags, noCollection: bool, length: int, before: seq<Root>, after: seq<Root>)
      returns (res: Option<int>, ghost b: Blocks, ghost collected: bool, ghost kept: set<int>, ghost i: nat, ghost fb: int)
      requires collector.Valid() && HeapReady() && 0 < length && !kind.FreeBlock? && !kind.Hole?
      requires RootsProper(collector.mem.blocks, before) && RootsProper(collector.mem.blocks, after)
      modifies this, collector, collector.mem, collector.cache`lists, collector.weak`weakReferences
      ensures HeapReady()
      ensures !collected ==> b == old(collector.mem.blocks)
      ensures collected ==>
        !noCollection && NothingFits(old(collector.mem.blocks), length) && Collected(old(collector.mem.blocks), b, kept)
      ensures res.Some? ==>
        && AllocatedFrom(b, collector.mem.blocks, res.value, kind, flags, length)
        && Chosen(b, collector.ext, length, flags.event, if collected then -1 else old(lastUsed), i, res.value)
        && CarvedFrom(b, collector.ext[i], length, flags.event, res.value, fb)
        && lastUsed == (if !flags.event then i else if collected then -1 else old(lastUsed))
        && compactionPending == old(compactionPending)
      ensures res.None? ==>
        && lastUsed == -1
        && collector.Valid() && collector.mem.blocks == b && NothingFits(b, length)
        && (collected <==> !noCollection)
        && compactionPending == (old(compactionPending) || (collected && collector.freeBlocks >= length))
    {
      hide HeapOK, HoleFree, NothingFits, AllocatedFrom, Chosen, CarvedFrom, Collected, RootsProper;
      b, kept, collected := collector.mem.blocks, {}, false;
      res, i, fb := TryClusters(kind, flags, length);
      if res.Some? || noCollection {
        return;
      }
      ghost var roots, moved, overflows;
      roots, moved, overflows := collector.ExecuteGarbageCollection(before, after);
      kept, collected := roots + Members(moved), true;
      b := collector.mem.blocks;
      res, i, fb := TryClusters(kind, flags, length);
      if res.None? && collector.freeBlocks >= length {
        compactionPending := true;
      }
    }
  }
}
