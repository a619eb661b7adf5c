/** The cache of event blocks: size-segregated lists that serve small requests exactly and large
  * ones with at most 25% overhead.  A cached block stays in the heap as a marked event block. */
module EventCaches {
  import opened HeapModel
  import opened Clusters
  import opened Heap

  /** c_maxFastLists. */
  const FAST_LISTS := 40

  /** The list a block of the given size is kept on: its own, or list 0 for large ones. */
  function ListOf(size: int): nat
    requires 0 < size
  {
    if size < FAST_LISTS then size else 0
  }

  ghost predicate EmptyLists(lists: seq<seq<int>>) {
    |lists| == FAST_LISTS && forall i :: 0 <= i < FAST_LISTS ==> lists[i] == []
  }

  predicate Cached(b: Blocks, a: int) {
    a in b && b[a].kind.CachedBlock?
  }

  ghost predicate Distinct(s: seq<int>) {
    forall i, j :: 0 <= i < j < |s| ==> s[i] != s[j]
  }

  /** List `i` holds exactly the cached blocks of its size class, each once; `loose` is a cached
    * header that is on no list yet. */
  ghost predicate CacheOK(b: Blocks, lists: seq<seq<int>>, loose: set<int>) {
    && |lists| == FAST_LISTS
    && (forall a :: Cached(b, a) ==> 0 < b[a].size && b[a].alive && b[a].event && !b[a].pinned)
    && (forall i, a :: 0 <= i < FAST_LISTS ==>
          (a in lists[i] <==> a !in loose && Cached(b, a) && 0 < b[a].size && ListOf(b[a].size) == i))
    && (forall i :: 0 <= i < FAST_LISTS ==> Distinct(lists[i]))
  }

  /** The block an allocation of `blocks` is served from: on a fast list the oldest one; otherwise
    * the smallest of the large ones, the oldest among equals. */
  ghost predicate SmallestFit(b: Blocks, list: seq<int>, blocks: int, k: int) {
    && 0 <= k < |list| && list[k] in b && blocks <= b[list[k]].size
    && (forall j :: 0 <= j < |list| && list[j] in b && blocks <= b[list[j]].size ==>
          b[list[k]].size < b[list[j]].size || (b[list[k]].size == b[list[j]].size && k <= j))
  }

  /** The first `k` blocks of the list: none has the exact size, and `best` is the smallest fit among
    * them if that one is acceptable. */
  ghost predicate BestSoFar(b: Blocks, list: seq<int>, blocks: int, k: nat, best: int)
    requires k <= |list| && forall j :: 0 <= j < |list| ==> list[j] in b
  {
    && (forall j :: 0 <= j < k ==> b[list[j]].size != blocks)
    && (if best == -1 then forall j :: 0 <= j < k ==> b[list[j]].size < blocks || !Acceptable(b[list[j]].size, blocks)
        else
          && 0 <= best < k && blocks <= b[list[best]].size && Acceptable(b[list[best]].size, blocks)
          && forall j :: 0 <= j < k && blocks <= b[list[j]].size ==>
               b[list[best]].size < b[list[j]].size || (b[list[best]].size == b[list[j]].size && best <= j))
  }

  ghost predicate NoneAcceptable(b: Blocks, list: seq<int>, blocks: int) {
    forall a :: a in list ==> a in b && (b[a].size < blocks || !Acceptable(b[a].size, blocks))
  }

  lemma LargeBlocks(b: Blocks, lists: seq<seq<int>>)
    requires CacheOK(b, lists, {})
    ensures |lists| == FAST_LISTS && forall j :: 0 <= j < |lists[0]| ==> lists[0][j] in b
  {
    assert forall j :: 0 <= j < |lists[0]| ==> lists[0][j] in lists[0] && Cached(b, lists[0][j]);
  }

  lemma BestSoFarStart(b: Blocks, list: seq<int>, blocks: int)
    requires forall j :: 0 <= j < |list| ==> list[j] in b
    ensures BestSoFar(b, list, blocks, 0, -1)
  {
  }

  /** One more block: an exact fit wins, otherwise a smaller acceptable one. */
  lemma BestStep(b: Blocks, list: seq<int>, blocks: int, k: nat, best: int)
    requires k < |list| && forall j :: 0 <= j < |list| ==> list[j] in b
    requires BestSoFar(b, list, blocks, k, best) && 0 <= blocks && -1 <= best < k
    ensures var size := b[list[k]].size;
      if size == blocks then SmallestFit(b, list, blocks, k) && Acceptable(size, blocks)
      else if size >= blocks && (if best == -1 then size <= (blocks * 20) / 16 else size < b[list[best]].size)
        then BestSoFar(b, list, blocks, k + 1, k)
      else BestSoFar(b, list, blocks, k + 1, best)
  {
  }

  lemma BestEnd(b: Blocks, list: seq<int>, blocks: int, best: int)
    requires forall j :: 0 <= j < |list| ==> list[j] in b
    requires BestSoFar(b, list, blocks, |list|, best)
    ensures if best == -1 then NoneAcceptable(b, list, blocks)
            else SmallestFit(b, list, blocks, best) && Acceptable(b[list[best]].size, blocks)
  {
  }

  /** A maximum overhead of 25%. */
  predicate Acceptable(size: int, blocks: int) {
    size == blocks || size <= (blocks * 20) / 16
  }

  class EventCache {
    const mem: Memory
    ghost const ext: seq<Extent>
    var lists: seq<seq<int>>

    constructor (mem: Memory, ghost ext: seq<Extent>)
      requires HeapOK(mem.blocks, mem.next, mem.prev, ext) && forall a :: a in mem.blocks ==> !Cached(mem.blocks, a)
      ensures this.mem == mem && this.ext == ext && Valid() && Total() == 0
    {
      this.mem := mem;
      this.ext := ext;
      lists := seq(FAST_LISTS, _ => []);
      new;
      EmptyTotal(mem.blocks, lists);
    }

    ghost predicate Valid()
      reads this, mem
    {
      HeapOK(mem.blocks, mem.next, mem.prev, ext) && CacheOK(mem.blocks, lists, {})
    }

    /** The total size of the cached blocks. */
    ghost function Total(): int
      reads this, mem
    {
      CacheTotal(mem.blocks, lists)
    }

    /** EventCache_Cleanup: every cached block becomes free space that is on no list yet. */
    method Cleanup() returns (tot: int)
      requires Valid()
      modifies this`lists, mem`blocks
      ensures Valid() && Total() == 0 && tot == old(Total()) && EmptyLists(lists)
      ensures mem.blocks == Discarded(old(mem.blocks))
    {
      hide HeapOK, Gone, CacheOK, Discarded, DiscardedLists, CacheTotal;
      ghost var b0, lists0 := mem.blocks, lists;
      CacheHasLists(b0, lists0, {});
      tot := 0;
      var i := 0;
      DiscardNothing(b0, lists0);
      NothingTotal(b0);
      assert lists0[..0] == [];
      while i < FAST_LISTS
        invariant 0 <= i <= FAST_LISTS == |lists0| && lists == lists0 && tot == CacheTotal(b0, lists0[..i])
        invariant HeapOK(mem.blocks, mem.next, mem.prev, ext) && mem.blocks == DiscardedLists(b0, lists0, i, 0)
      {
        var size := DiscardList(i, b0);
        CacheTotalStep(b0, lists0, i);
        tot := tot + size;
        i := i + 1;
      }
      assert lists0[..FAST_LISTS] == lists0;
      DiscardedAll(b0, lists0);
      lists := seq(FAST_LISTS, _ => []);
      EmptyTotal(mem.blocks, lists);
      NothingCached(b0, lists);
    }

    method DiscardList(i: nat, ghost b0: Blocks) returns (tot: int)
      requires CacheOK(b0, lists, {}) && i < FAST_LISTS == |lists|
      requires HeapOK(mem.blocks, mem.next, mem.prev, ext) && mem.blocks == DiscardedLists(b0, lists, i, 0)
      modifies mem`blocks
      ensures HeapOK(mem.blocks, mem.next, mem.prev, ext) && mem.blocks == DiscardedLists(b0, lists, i + 1, 0)
      ensures tot == SumSizes(b0, lists[i])
    {
      hide HeapOK, Gone, CacheOK, DiscardedLists, SumSizes;
      tot := 0;
      var k := 0;
      NothingSum(b0, lists[i]);
      while k < |lists[i]|
        invariant 0 <= k <= |lists[i]| && tot == SumSizes(b0, lists[i][..k])
        invariant HeapOK(mem.blocks, mem.next, mem.prev, ext) && mem.blocks == DiscardedLists(b0, lists, i, k)
      {
        var ptr := lists[i][k];
        DiscardStep(b0, lists, i, k);
        SumSizesStep(b0, lists[i], k);
        RelabelKeepsHeap(mem.blocks, mem.next, mem.prev, ext, ptr, HoleHeader(mem.blocks[ptr].size));
        tot := tot + mem.blocks[ptr].size;
        mem.blocks := mem.blocks[ptr := HoleHeader(mem.blocks[ptr].size)];
        k := k + 1;
      }
      assert lists[i][..|lists[i]|] == lists[i];
      DiscardNext(b0, lists, i);
    }

    /** Append_Node: the block joins the list of its size. */
    method AppendNode(node: int)
      requires HeapOK(mem.blocks, mem.next, mem.prev, ext) && CacheOK(mem.blocks, lists, {node}) && InUse(mem.blocks, node)
      modifies this`lists, mem`blocks
      ensures Valid() && 0 < old(mem.blocks)[node].size && Total() == old(Total()) + old(mem.blocks)[node].size
      ensures mem.blocks == old(mem.blocks)[node := CachedHeader(old(mem.blocks)[node])]
      ensures var i := ListOf(old(mem.blocks)[node].size); lists == old(lists)[i := old(lists)[i] + [node]]
    {
      hide HeapOK, CacheOK, CacheTotal, SumSizes;
      SizeIsPositive(mem.blocks, mem.next, mem.prev, ext, node);
      CacheHasLists(mem.blocks, lists, {node});
      var blocks := mem.blocks[node].size;
      var i := ListOf(blocks);
      RelabelKeepsHeap(mem.blocks, mem.next, mem.prev, ext, node, CachedHeader(mem.blocks[node]));
      AppendKeepsCache(mem.blocks, lists, node, i);
      AppendTotal(mem.blocks, lists, node, i);
      mem.blocks := mem.blocks[node := CachedHeader(mem.blocks[node])];
      lists := lists[i := lists[i] + [node]];
    }

    /** Extract_Node_Fast: the oldest block of exactly the requested size. */
    method ExtractFast(kind: Kind, zero: bool, blocks: int) returns (res: Option<int>)
      requires Valid() && 0 < blocks < FAST_LISTS && Usable(kind)
      modifies this`lists, mem`blocks
      ensures Valid() && (res.None? <==> old(lists)[blocks] == [])
      ensures res.None? ==> mem.blocks == old(mem.blocks) && lists == old(lists)
      ensures res.Some? ==>
        && res.value == old(lists)[blocks][0] && Cached(old(mem.blocks), res.value) && old(mem.blocks)[res.value].size == blocks
        && lists == old(lists)[blocks := old(lists)[blocks][1..]]
        && Issued(old(mem.blocks), mem.blocks, res.value, kind, zero, blocks) && Total() == old(Total()) - blocks
    {
      hide HeapOK, CacheTotal, SumSizes;
      if lists[blocks] == [] {
        return None;
      }
      var ptr := lists[blocks][0];
      assert ptr in lists[blocks] && lists[blocks][..0] + lists[blocks][1..] == lists[blocks][1..];
      Issue(blocks, 0, kind, zero);
      return Some(ptr);
    }

    /** Takes a block off its list and hands it out as an event block. */
    method Issue(i: nat, k: nat, kind: Kind, zero: bool)
      requires Valid() && Usable(kind) && i < FAST_LISTS && k < |lists[i]|
      modifies this`lists, mem`blocks
      ensures Valid() && Cached(old(mem.blocks), old(lists)[i][k])
      ensures lists == old(lists)[i := old(lists)[i][..k] + old(lists)[i][k + 1..]]
      ensures var ptr := old(lists)[i][k];
        && Issued(old(mem.blocks), mem.blocks, ptr, kind, zero, old(mem.blocks)[ptr].size)
        && Total() == old(Total()) - old(mem.blocks)[ptr].size
    {
      hide HeapOK, CacheOK, CacheTotal, SumSizes;
      CacheHasLists(mem.blocks, lists, {});
      var ptr := lists[i][k];
      ListedIsCached(mem.blocks, lists, i, k);
      var stale: seq<Cell> := *;
      var cells := if zero then seq(mem.blocks[ptr].size - 1, _ => Data(0)) else stale;
      var header := Block(mem.blocks[ptr].size, kind, true, true, false, cells);
      RelabelKeepsHeap(mem.blocks, mem.next, mem.prev, ext, ptr, header);
      RemoveKeepsCache(mem.blocks, lists, i, k, header);
      RemoveTotal(mem.blocks, lists, i, k, header);
      lists := lists[i := lists[i][..k] + lists[i][k + 1..]];
      mem.blocks := mem.blocks[ptr := header];
    }

    /** The choice of Extract_Node_Slow on the list of large blocks; -1 if nothing is acceptable. */
    method FindBest(blocks: int) returns (best: int)
      requires Valid() && 0 <= blocks
      ensures best == -1 ==> NoneAcceptable(mem.blocks, lists[0], blocks)
      ensures best != -1 ==>
        && SmallestFit(mem.blocks, lists[0], blocks, best)
        && Acceptable(mem.blocks[lists[0][best]].size, blocks)
    {
      hide HeapOK, CacheOK, SmallestFit, NoneAcceptable;
      LargeBlocks(mem.blocks, lists);
      ghost var list := lists[0];
      best := -1;
      var bestSize := 0;
      var k := 0;
      BestSoFarStart(mem.blocks, list, blocks);
      while k < |lists[0]|
        invariant 0 <= k <= |list| && -1 <= best < k && forall j :: 0 <= j < |list| ==> list[j] in mem.blocks
        invariant BestSoFar(mem.blocks, list, blocks, k, best)
        invariant best != -1 ==> bestSize == mem.blocks[list[best]].size
      {
        BestStep(mem.blocks, list, blocks, k, best);
        var size := mem.blocks[lists[0][k]].size;
        if size == blocks {
          best := k;
          return;
        }
        if size >= blocks {
          if (best != -1 && size < bestSize) || (best == -1 && size <= (blocks * 20) / 16) {
            best, bestSize := k, size;
          }
        }
        k := k + 1;
      }
      BestEnd(mem.blocks, list, blocks, best);
    }

    /** Extract_Node_Slow: a block that is too large is split and its tail is cached again. */
    method ExtractSlow(kind: Kind, zero: bool, blocks: int) returns (res: Option<int>)
      requires Valid() && (blocks == 0 || FAST_LISTS <= blocks) && Usable(kind)
      modifies this`lists, mem`blocks
      ensures Valid()
      ensures res.None? ==>
        && mem.blocks == old(mem.blocks) && lists == old(lists)
        && NoneAcceptable(mem.blocks, lists[0], blocks)
      ensures res.Some? ==>
        && Cached(old(mem.blocks), res.value) && Acceptable(old(mem.blocks)[res.value].size, blocks)
        && (exists k :: SmallestFit(old(mem.blocks), old(lists)[0], blocks, k) && res.value == old(lists)[0][k])
        && SplitOff(old(mem.blocks), mem.blocks, res.value, kind, zero, blocks) && Total() == old(Total()) - blocks
    {
      hide HeapOK, CacheTotal, SumSizes, CacheOK, SmallestFit;
      CacheHasLists(mem.blocks, lists, {});
      var best := FindBest(blocks);
      if best == -1 {
        return None;
      }
      SmallestIsListed(mem.blocks, lists, blocks, best);
      var ptr := lists[0][best];
      ListedIsCached(mem.blocks, lists, 0, best);
      var bestSize := mem.blocks[ptr].size;
      if bestSize > blocks {
        SplitKeepsHeap(mem.blocks, mem.next, mem.prev, ext, ptr, blocks);
        SplitKeepsCache(mem.blocks, lists, best, blocks);
        SplitTotal(mem.blocks, lists, best, blocks);
        var next := ptr + blocks;
        mem.blocks := mem.blocks[ptr := Block(blocks, CachedBlock, true, true, false, mem.blocks[ptr].cells)];
        mem.blocks := mem.blocks[next := Block(bestSize - blocks, CachedBlock, true, true, false, [])];
        AppendNode(next);
      }
      assert lists[0][best] == ptr;
      Issue(0, best, kind, zero);
      return Some(ptr);
    }

    /** Extract_Node, on a hit. */
    method Extract(kind: Kind, zero: bool, blocks: int) returns (res: Option<int>)
      requires Valid() && 0 <= blocks && Usable(kind)
      modifies this`lists, mem`blocks
      ensures Valid()
      ensures res.Some? ==> SplitOff(old(mem.blocks), mem.blocks, res.value, kind, zero, blocks)
      ensures res.Some? ==> Cached(old(mem.blocks), res.value) && Total() == old(Total()) - blocks
      ensures res.None? ==> mem.blocks == old(mem.blocks) && lists == old(lists)
      ensures 0 < blocks < FAST_LISTS ==>
        && (res.None? <==> old(lists)[blocks] == []) && (res.Some? ==> res.value == old(lists)[blocks][0])
      ensures !(0 < blocks < FAST_LISTS) ==>
        && (res.None? ==> NoneAcceptable(old(mem.blocks), old(lists)[0], blocks))
        && (res.Some? ==> Acceptable(old(mem.blocks)[res.value].size, blocks)
                          && exists k :: SmallestFit(old(mem.blocks), old(lists)[0], blocks, k) && res.value == old(lists)[0][k])
    {
      hide HeapOK, CacheTotal, CacheOK, SmallestFit, NoneAcceptable, Acceptable;
      CacheHasLists(mem.blocks, lists, {});
      if blocks > 0 && blocks < FAST_LISTS {
        res := ExtractFast(kind, zero, blocks);
      } else {
        res := ExtractSlow(kind, zero, blocks);
      }
    }
  }

  function CachedHeader(h: Block): Block {
    h.(kind := CachedBlock, alive := true, event := true, pinned := false)
  }

  predicate Usable(kind: Kind) {
    !kind.FreeBlock? && !kind.Hole? && !kind.CachedBlock?
  }

  predicate IssuedHeader(h: Block, kind: Kind, zero: bool, blocks: int) {
    h == Block(blocks, kind, true, true, false, h.cells) && (zero ==> 0 < blocks && h.cells == seq(blocks - 1, _ => Data(0)))
  }

  ghost predicate Issued(b: Blocks, b': Blocks, a: int, kind: Kind, zero: bool, blocks: int) {
    a in b' && IssuedHeader(b'[a], kind, zero, blocks) && b' == b[a := b'[a]]
  }

  /** A cached block was handed out at the requested size, its tail, if any, is cached again, and
    * nothing else changed. */
  ghost predicate SplitOff(b: Blocks, b': Blocks, a: int, kind: Kind, zero: bool, blocks: int) {
    && a in b && a in b' && blocks <= b[a].size && IssuedHeader(b'[a], kind, zero, blocks)
    && (blocks < b[a].size ==> Cached(b', a + blocks) && b'[a + blocks].size == b[a].size - blocks)
    && (forall x :: x != a && !(x == a + blocks && blocks < b[a].size) ==> (x in b <==> x in b') && (x in b && x in b' ==> b'[x] == b[x]))
  }

  /** The heap without its cached blocks. */
  ghost function Discarded(b: Blocks): Blocks {
    map a | a in b :: if b[a].kind.CachedBlock? then HoleHeader(b[a].size) else b[a]
  }

  /** The first `i` lists and the first `k` nodes of the next one are discarded. */
  ghost predicate Gone(lists: seq<seq<int>>, i: nat, k: nat, a: int)
    requires i <= |lists|
  {
    (exists j :: 0 <= j < i && a in lists[j]) || (i < |lists| && k <= |lists[i]| && a in lists[i][..k])
  }

  ghost function DiscardedLists(b: Blocks, lists: seq<seq<int>>, i: nat, k: nat): Blocks
    requires i <= |lists|
  {
    map a | a in b :: if Gone(lists, i, k, a) then HoleHeader(b[a].size) else b[a]
  }

  lemma DiscardNothing(b: Blocks, lists: seq<seq<int>>)
    ensures DiscardedLists(b, lists, 0, 0) == b
  {
  }

  lemma CacheHasLists(b: Blocks, lists: seq<seq<int>>, loose: set<int>)
    requires CacheOK(b, lists, loose)
    ensures |lists| == FAST_LISTS
  {
  }

  lemma NothingTotal(b: Blocks)
    ensures CacheTotal(b, []) == 0
  {
  }

  lemma NothingSum(b: Blocks, s: seq<int>)
    ensures SumSizes(b, s[..0]) == 0
  {
  }

  lemma NothingCached(b: Blocks, lists: seq<seq<int>>)
    requires |lists| == FAST_LISTS && forall i :: 0 <= i < |lists| ==> lists[i] == []
    ensures CacheOK(Discarded(b), lists, {})
  {
  }

  lemma DiscardStep(b: Blocks, lists: seq<seq<int>>, i: nat, k: nat)
    requires CacheOK(b, lists, {}) && i < FAST_LISTS && k < |lists[i]|
    ensures var ptr, now := lists[i][k], DiscardedLists(b, lists, i, k);
      && ptr in b && InUse(now, ptr) && now[ptr].size == b[ptr].size
      && DiscardedLists(b, lists, i, k + 1) == now[ptr := HoleHeader(b[ptr].size)]
  {
    var ptr := lists[i][k];
    assert ptr in lists[i];
    assert !Gone(lists, i, k, ptr) by {
      forall j | 0 <= j < i ensures ptr !in lists[j] {
        assert ptr in lists[i] && Cached(b, ptr) && ListOf(b[ptr].size) == i;
      }
      assert ptr !in lists[i][..k];
    }
    var now := DiscardedLists(b, lists, i, k);
    assert Cached(b, ptr);
    assert ptr in b;
    assert ptr in now;
    assert now[ptr] == b[ptr];
    assert lists[i][..k + 1] == lists[i][..k] + [ptr];
    assert forall a :: Gone(lists, i, k + 1, a) <==> Gone(lists, i, k, a) || a == ptr;
  }

  lemma DiscardNext(b: Blocks, lists: seq<seq<int>>, i: nat)
    requires i < |lists|
    ensures DiscardedLists(b, lists, i, |lists[i]|) == DiscardedLists(b, lists, i + 1, 0)
  {
    assert lists[i][..|lists[i]|] == lists[i];
    forall a ensures Gone(lists, i, |lists[i]|, a) <==> Gone(lists, i + 1, 0, a) {
      if i + 1 < |lists| {
        assert a !in lists[i + 1][..0];
      }
    }
  }

  lemma DiscardedAll(b: Blocks, lists: seq<seq<int>>)
    requires CacheOK(b, lists, {})
    ensures DiscardedLists(b, lists, FAST_LISTS, 0) == Discarded(b)
  {
    forall a | a in b ensures Gone(lists, FAST_LISTS, 0, a) <==> Cached(b, a) {
      if Cached(b, a) {
        assert a in lists[ListOf(b[a].size)];
      }
    }
  }

  /** A block in use is replaced by another one of the same size, or given up. */
  lemma RelabelKeepsHeap(b: Blocks, n: Links, p: Links, ext: seq<Extent>, a: int, h: Block)
    requires HeapOK(b, n, p, ext) && InUse(b, a) && h.size == b[a].size && (h.Occupied() || h == HoleHeader(h.size))
    ensures HeapOK(b[a := h], n, p, ext)
  {
    hide ClusterOK, SameOutside;
    assert Inside(ext, a);
    var i :| 0 <= i < |ext| && ext[i].start <= a < ext[i].end;
    RelabelInCluster(b, n, p, ext[i].start, ext[i].end, a, h);
    HeapStep(b, n, p, b[a := h], n, p, ext, i);
  }

  lemma RelabelInCluster(b: Blocks, n: Links, p: Links, s: int, e: int, a: int, h: Block)
    requires ClusterOK(b, n, p, s, e) && s <= a < e && InUse(b, a)
    requires h.size == b[a].size && (h.Occupied() || h == HoleHeader(h.size))
    ensures ClusterOK(b[a := h], n, p, s, e) && SameOutside(b, n, p, b[a := h], n, p, s, e)
  {
    TiledRelabel(b, s, e, a, h);
    hide Tiled, ListOK;
    ClusterKept(b, n, p, b[a := h], s, e);
  }

  // ----- Adding up

  ghost function SizeAt(b: Blocks, a: int): int {
    if a in b then b[a].size else 0
  }

  ghost function SumSizes(b: Blocks, s: seq<int>): int {
    if s == [] then 0
    else SumSizes(b, s[..|s| - 1]) + SizeAt(b, s[|s| - 1])
  }

  ghost function CacheTotal(b: Blocks, lists: seq<seq<int>>): int {
    if lists == [] then 0 else CacheTotal(b, lists[..|lists| - 1]) + SumSizes(b, lists[|lists| - 1])
  }

  lemma SumSizesStep(b: Blocks, s: seq<int>, k: nat)
    requires k < |s| && s[k] in b
    ensures SumSizes(b, s[..k + 1]) == SumSizes(b, s[..k]) + b[s[k]].size
  {
    assert s[..k + 1][..k] == s[..k];
  }

  lemma CacheTotalStep(b: Blocks, lists: seq<seq<int>>, i: nat)
    requires i < |lists|
    ensures CacheTotal(b, lists[..i + 1]) == CacheTotal(b, lists[..i]) + SumSizes(b, lists[i])
  {
    assert lists[..i + 1][..i] == lists[..i];
  }

  lemma {:induction false} EmptyTotal(b: Blocks, lists: seq<seq<int>>)
    requires forall i :: 0 <= i < |lists| ==> lists[i] == []
    ensures CacheTotal(b, lists) == 0
  {
    if lists != [] {
      EmptyTotal(b, lists[..|lists| - 1]);
    }
  }

  lemma {:induction false} SumFrame(b: Blocks, b': Blocks, s: seq<int>)
    requires forall a :: a in s ==> SizeAt(b, a) == SizeAt(b', a)
    ensures SumSizes(b, s) == SumSizes(b', s)
  {
    if s != [] {
      assert s[|s| - 1] in s;
      SumFrame(b, b', s[..|s| - 1]);
    }
  }

  lemma {:induction false} TotalFrame(b: Blocks, b': Blocks, lists: seq<seq<int>>)
    requires forall i, a :: 0 <= i < |lists| && a in lists[i] ==> SizeAt(b, a) == SizeAt(b', a)
    ensures CacheTotal(b, lists) == CacheTotal(b', lists)
  {
    if lists != [] {
      SumFrame(b, b', lists[|lists| - 1]);
      TotalFrame(b, b', lists[..|lists| - 1]);
    }
  }

  lemma {:induction false} SumRemove(b: Blocks, s: seq<int>, k: nat)
    requires k < |s|
    ensures SumSizes(b, s[..k] + s[k + 1..]) == SumSizes(b, s) - SizeAt(b, s[k])
  {
    var n := |s| - 1;
    var t := s[..k] + s[k + 1..];
    if k == n {
      assert t == s[..n];
    } else {
      SumRemove(b, s[..n], k);
      assert s[..n][..k] + s[..n][k + 1..] == t[..n - 1];
      assert t[n - 1] == s[n];
    }
  }

  lemma {:induction false} TotalUpdate(b: Blocks, lists: seq<seq<int>>, i: nat, s: seq<int>)
    requires i < |lists|
    ensures CacheTotal(b, lists[i := s]) == CacheTotal(b, lists) - SumSizes(b, lists[i]) + SumSizes(b, s)
  {
    var n := |lists| - 1;
    if i == n {
      assert lists[i := s][..n] == lists[..n];
    } else {
      TotalUpdate(b, lists[..n], i, s);
      assert lists[i := s][..n] == lists[..n][i := s];
    }
  }

  // ----- The steps of the cache

  lemma SizeIsPositive(b: Blocks, n: Links, p: Links, ext: seq<Extent>, a: int)
    requires HeapOK(b, n, p, ext) && a in b
    ensures 0 < b[a].size
  {
    assert Inside(ext, a);
  }

  lemma ListedIsCached(b: Blocks, lists: seq<seq<int>>, i: nat, k: nat)
    requires CacheOK(b, lists, {}) && i < FAST_LISTS && k < |lists[i]|
    ensures Cached(b, lists[i][k]) && 0 < b[lists[i][k]].size && ListOf(b[lists[i][k]].size) == i
  {
    assert lists[i][k] in lists[i];
  }

  lemma SmallestIsListed(b: Blocks, lists: seq<seq<int>>, blocks: int, k: int)
    requires |lists| == FAST_LISTS && SmallestFit(b, lists[0], blocks, k)
    ensures 0 <= k < |lists[0]| && lists[0][k] in b && blocks <= b[lists[0][k]].size
  {
  }

  lemma AppendKeepsCache(b: Blocks, lists: seq<seq<int>>, node: int, i: nat)
    requires CacheOK(b, lists, {node}) && InUse(b, node) && 0 < b[node].size && i == ListOf(b[node].size)
    ensures CacheOK(b[node := CachedHeader(b[node])], lists[i := lists[i] + [node]], {})
  {
  }

  lemma AppendTotal(b: Blocks, lists: seq<seq<int>>, node: int, i: nat)
    requires i < |lists| && node in b
    ensures CacheTotal(b[node := CachedHeader(b[node])], lists[i := lists[i] + [node]])
      == CacheTotal(b, lists) + b[node].size
  {
    var b', lists' := b[node := CachedHeader(b[node])], lists[i := lists[i] + [node]];
    TotalFrame(b, b', lists');
    TotalUpdate(b, lists, i, lists[i] + [node]);
    assert (lists[i] + [node])[..|lists[i]|] == lists[i];
  }

  lemma RemoveKeepsCache(b: Blocks, lists: seq<seq<int>>, i: nat, k: nat, h: Block)
    requires CacheOK(b, lists, {}) && i < FAST_LISTS && k < |lists[i]| && Cached(b, lists[i][k])
    requires !h.kind.CachedBlock?
    ensures CacheOK(b[lists[i][k] := h], lists[i := lists[i][..k] + lists[i][k + 1..]], {})
  {
    var s, ptr := lists[i], lists[i][k];
    var t := s[..k] + s[k + 1..];
    assert ptr in s;
    forall a ensures a in t <==> a in s && a != ptr {
      if a in s && a != ptr {
        var j :| 0 <= j < |s| && s[j] == a;
        assert t[if j < k then j else j - 1] == a;
      }
    }
  }

  lemma RemoveTotal(b: Blocks, lists: seq<seq<int>>, i: nat, k: nat, h: Block)
    requires CacheOK(b, lists, {}) && i < FAST_LISTS && k < |lists[i]| && Cached(b, lists[i][k])
    requires h.size == b[lists[i][k]].size
    ensures CacheTotal(b[lists[i][k] := h], lists[i := lists[i][..k] + lists[i][k + 1..]])
      == CacheTotal(b, lists) - h.size
  {
    var lists' := lists[i := lists[i][..k] + lists[i][k + 1..]];
    TotalFrame(b, b[lists[i][k] := h], lists');
    SumRemove(b, lists[i], k);
    TotalUpdate(b, lists, i, lists[i][..k] + lists[i][k + 1..]);
  }

  function Split(b: Blocks, ptr: int, blocks: int): Blocks
    requires ptr in b
  {
    b[ptr := Block(blocks, CachedBlock, true, true, false, b[ptr].cells)]
     [ptr + blocks := Block(b[ptr].size - blocks, CachedBlock, true, true, false, [])]
  }

  lemma SplitKeepsHeap(b: Blocks, n: Links, p: Links, ext: seq<Extent>, ptr: int, blocks: int)
    requires HeapOK(b, n, p, ext) && InUse(b, ptr) && 0 < blocks < b[ptr].size
    ensures HeapOK(Split(b, ptr, blocks), n, p, ext) && ptr + blocks !in b
  {
    hide ClusterOK, SameOutside, Split;
    assert Inside(ext, ptr);
    var i :| 0 <= i < |ext| && ext[i].start <= ptr < ext[i].end;
    SplitInCluster(b, n, p, ext[i].start, ext[i].end, ptr, blocks);
    HeapStep(b, n, p, Split(b, ptr, blocks), n, p, ext, i);
  }

  lemma SplitInCluster(b: Blocks, n: Links, p: Links, s: int, e: int, ptr: int, blocks: int)
    requires ClusterOK(b, n, p, s, e) && s <= ptr < e && InUse(b, ptr) && 0 < blocks < b[ptr].size
    ensures ClusterOK(Split(b, ptr, blocks), n, p, s, e) && SameOutside(b, n, p, Split(b, ptr, blocks), n, p, s, e)
    ensures ptr + blocks !in b
  {
    assert ptr + blocks < End(b, ptr) <= e;
    TiledCut(b, s, e, ptr, Block(blocks, CachedBlock, true, true, false, b[ptr].cells),
             Block(b[ptr].size - blocks, CachedBlock, true, true, false, []));
    hide Tiled, ListOK, Coalesced, Split, SameFree;
    SplitHeaders(b, s, e, ptr, blocks);
    ClusterKept(b, n, p, Split(b, ptr, blocks), s, e);
  }

  lemma SplitHeaders(b: Blocks, s: int, e: int, ptr: int, blocks: int)
    requires FreeHeaders(b, s, e) && s <= ptr && InUse(b, ptr) && ptr + blocks !in b && ptr + blocks < e && 0 < blocks
    ensures var b' := Split(b, ptr, blocks);
      FreeHeaders(b', s, e) && SameFree(b, b', s, e) && SameBlocksOutside(b, b', s, e)
  {
  }

  lemma SplitKeepsCache(b: Blocks, lists: seq<seq<int>>, k: nat, blocks: int)
    requires CacheOK(b, lists, {}) && k < |lists[0]| && Cached(b, lists[0][k])
    requires FAST_LISTS <= blocks < b[lists[0][k]].size && lists[0][k] + blocks !in b
    ensures CacheOK(Split(b, lists[0][k], blocks), lists, {lists[0][k] + blocks})
  {
    var ptr := lists[0][k];
    assert ptr in lists[0];
    forall i, a | 0 <= i < FAST_LISTS && a in lists[i] ensures Cached(b, a) {
    }
  }

  lemma SplitTotal(b: Blocks, lists: seq<seq<int>>, k: nat, blocks: int)
    requires CacheOK(b, lists, {}) && k < |lists[0]| && Cached(b, lists[0][k])
    requires 0 < blocks < b[lists[0][k]].size && lists[0][k] + blocks !in b
    ensures CacheTotal(Split(b, lists[0][k], blocks), lists) == CacheTotal(b, lists) - (b[lists[0][k]].size - blocks)
  {
    var s, ptr := lists[0], lists[0][k];
    var t := s[..k] + s[k + 1..];
    var b' := Split(b, ptr, blocks);
    var lists' := lists[0 := t];
    forall i, a | 0 <= i < |lists'| && a in lists'[i] ensures SizeAt(b, a) == SizeAt(b', a) {
      assert a in lists[i] && Cached(b, a);
      assert ptr in lists[0] && a != ptr;
    }
    TotalFrame(b, b', lists');
    SumRemove(b, s, k);
    SumRemove(b', s, k);
    TotalUpdate(b, lists, 0, t);
    TotalUpdate(b', lists, 0, t);
  }
}
