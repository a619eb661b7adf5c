/** All clusters of the heap together, and what moving a run of blocks does to them. */
module Heap {
  import opened HeapModel
  import opened Clusters

  datatype Extent = Extent(start: int, end: int)

  /** Clusters come in address order, with room for a cluster header in between. */
  ghost predicate Ordered(ext: seq<Extent>) {
    forall i, j :: 0 <= i < j < |ext| ==> ext[i].end + 1 < ext[j].start
  }

  ghost predicate Inside(ext: seq<Extent>, a: int) {
    exists i :: 0 <= i < |ext| && ext[i].start <= a < ext[i].end
  }

  ghost predicate AllInside(b: Blocks, ext: seq<Extent>) {
    forall a :: a in b ==> Inside(ext, a)
  }

  ghost predicate HeapOK(b: Blocks, n: Links, p: Links, ext: seq<Extent>) {
    && Ordered(ext) && AllInside(b, ext)
    && (forall i :: 0 <= i < |ext| ==> ClusterOK(b, n, p, ext[i].start, ext[i].end))
  }

  ghost predicate HoleFree(b: Blocks) {
    forall a :: a in b ==> !b[a].kind.Hole?
  }

  /** An operation on one cluster keeps the invariant of all. */
  lemma HeapStep(b: Blocks, n: Links, p: Links, b': Blocks, n': Links, p': Links, ext: seq<Extent>, i: nat)
    requires HeapOK(b, n, p, ext) && i < |ext|
    requires ClusterOK(b', n', p', ext[i].start, ext[i].end)
    requires SameOutside(b, n, p, b', n', p', ext[i].start, ext[i].end)
    ensures HeapOK(b', n', p', ext)
  {
    hide ClusterOK, SameOutside;
    forall j | 0 <= j < |ext| ensures ClusterOK(b', n', p', ext[j].start, ext[j].end) {
      if j != i {
        assert if j < i then ext[j].end + 1 < ext[i].start else ext[i].end + 1 < ext[j].start;
        ClusterFrame(b, n, p, b', n', p', ext[j].start, ext[j].end, ext[i].start, ext[i].end);
      }
    }
    StillInside(b, n, p, b', n', p', ext, i);
  }

  lemma StillInside(b: Blocks, n: Links, p: Links, b': Blocks, n': Links, p': Links, ext: seq<Extent>, i: nat)
    requires AllInside(b, ext) && i < |ext|
    requires SameOutside(b, n, p, b', n', p', ext[i].start, ext[i].end)
    ensures AllInside(b', ext)
  {
    forall a | a in b' ensures Inside(ext, a) {
      if !(ext[i].start <= a < ext[i].end) {
        assert a in b;
      }
    }
  }

  // ----- Replacing blocks that are not free

  /** The free blocks are untouched. */
  ghost predicate SameFree(b: Blocks, b': Blocks, s: int, e: int) {
    && (forall a :: s <= a < e ==> (IsFree(b, a) <==> IsFree(b', a)))
    && (forall a :: s <= a < e && IsFree(b, a) && IsFree(b', a) ==> b'[a] == b[a])
  }

  lemma ClusterKept(b: Blocks, n: Links, p: Links, b': Blocks, s: int, e: int)
    requires ClusterOK(b, n, p, s, e) && SameFree(b, b', s, e)
    requires Tiled(b', s, e) && FreeHeaders(b', s, e)
    ensures ClusterOK(b', n, p, s, e)
  {
    hide Tiled, FreeHeaders, ListOK;
    FreeSetKept(b, b', s, e);
    CoalescedKept(b, b', s, e);
  }

  lemma FreeSetKept(b: Blocks, b': Blocks, s: int, e: int)
    requires SameFree(b, b', s, e)
    ensures FreeSet(b', s, e) == FreeSet(b, s, e)
  {
    assert forall a :: a in FreeSet(b, s, e) <==> s <= a < e && IsFree(b, a);
    assert forall a :: a in FreeSet(b', s, e) <==> s <= a < e && IsFree(b', a);
  }

  lemma CoalescedKept(b: Blocks, b': Blocks, s: int, e: int)
    requires SameFree(b, b', s, e) && Coalesced(b, s, e)
    ensures Coalesced(b', s, e)
  {
  }

  /** A range without free blocks turns into one hole. */
  function Vacated(b: Blocks, lo: int, hi: int): Blocks {
    RemoveRange(b, lo, hi)[lo := HoleHeader(hi - lo)]
  }

  lemma VacateRange(b: Blocks, n: Links, p: Links, s: int, e: int, lo: int, hi: int)
    requires ClusterOK(b, n, p, s, e) && lo in b && s <= lo < hi <= e && (hi == e || hi in b)
    requires forall a :: a in b && lo <= a < hi ==> !b[a].kind.FreeBlock?
    ensures ClusterOK(Vacated(b, lo, hi), n, p, s, e)
    ensures SameOutside(b, n, p, Vacated(b, lo, hi), n, p, s, e)
  {
    var b' := Vacated(b, lo, hi);
    TiledMelt(b, s, e, lo, hi, HoleHeader(hi - lo));
    VacateHeaders(b, s, e, lo, hi);
    hide Tiled, FreeHeaders, Coalesced, ListOK;
    ClusterKept(b, n, p, b', s, e);
  }

  lemma VacateHeaders(b: Blocks, s: int, e: int, lo: int, hi: int)
    requires FreeHeaders(b, s, e) && lo in b
    requires forall a :: a in b && lo <= a < hi ==> !b[a].kind.FreeBlock?
    requires lo < hi
    ensures FreeHeaders(Vacated(b, lo, hi), s, e) && SameFree(b, Vacated(b, lo, hi), s, e)
  {
    var b' := Vacated(b, lo, hi);
    assert forall a :: IsFree(b', a) ==> a != lo;
    forall a | IsFree(b, a) ensures a < lo || hi <= a {
      assert a in b;
    }
  }

  /** A run of blocks is written into the hole at `f`; what is left stays a hole. */
  function Placed(b: Blocks, f: int, cap: int, run: Blocks, len: int): Blocks {
    RemoveRange(b, f, f + cap) + run + (if len < cap then map[f + len := HoleHeader(cap - len)] else map[])
  }

  lemma PlaceRun(b: Blocks, n: Links, p: Links, s: int, e: int, f: int, cap: int, run: Blocks, len: int)
    requires ClusterOK(b, n, p, s, e) && s <= f < e && f in b && b[f] == HoleHeader(cap)
    requires 0 < len <= cap && Tiled(run, f, f + len)
    requires forall a :: a in run ==> f <= a < f + len && run[a].Occupied()
    ensures ClusterOK(Placed(b, f, cap, run, len), n, p, s, e)
    ensures SameOutside(b, n, p, Placed(b, f, cap, run, len), n, p, s, e)
  {
    hide Tiled, FreeHeaders, Coalesced, ListOK, Placed, SameFree;
    TiledDropAt(b, s, e, f);
    PlaceTiled(b, s, e, f, cap, run, len);
    PlaceHeaders(b, s, e, f, cap, run, len);
    PlaceOutside(b, s, e, f, cap, run, len);
    ClusterKept(b, n, p, Placed(b, f, cap, run, len), s, e);
  }

  lemma PlaceOutside(b: Blocks, s: int, e: int, f: int, cap: int, run: Blocks, len: int)
    requires s <= f < f + cap <= e && 0 < len <= cap
    requires forall a :: a in run ==> f <= a < f + len
    ensures SameBlocksOutside(b, Placed(b, f, cap, run, len), s, e)
  {
  }

  lemma TiledDropAt(b: Blocks, s: int, e: int, f: int)
    requires Tiled(b, s, e) && s <= f < e && f in b
    ensures f + b[f].size <= e && 0 < b[f].size && (f + b[f].size == e || f + b[f].size in b)
    ensures forall a :: a in b && f < a < f + b[f].size ==> false
  {
    assert End(b, f) <= e;
    assert End(b, f) == e || End(b, f) in b;
  }

  lemma PlaceTiled(b: Blocks, s: int, e: int, f: int, cap: int, run: Blocks, len: int)
    requires Tiled(b, s, e) && s <= f < f + cap <= e && f in b && (f + cap == e || f + cap in b)
    requires 0 < len <= cap && Tiled(run, f, f + len)
    requires forall a :: a in run ==> f <= a < f + len
    ensures Tiled(Placed(b, f, cap, run, len), s, e)
  {
    hide Tiled, Placed, SameWithin;
    var b' := Placed(b, f, cap, run, len);
    PlaceWithin(b, s, e, f, cap, run, len);
    TiledSplit(b, s, f, e);
    TiledSuffix(b, s, f + cap, e);
    TiledFrame(b, b', s, f);
    if len < cap {
      TiledPush(run, f, f + len, HoleHeader(cap - len));
      TiledFrame(run[f + len := HoleHeader(cap - len)], b', f, f + cap);
    } else {
      TiledFrame(run, b', f, f + cap);
    }
    TiledFrame(b, b', f + cap, e);
    TiledJoin(b', s, f, f + cap);
    TiledJoin(b', s, f + cap, e);
  }

  lemma PlaceWithin(b: Blocks, s: int, e: int, f: int, cap: int, run: Blocks, len: int)
    requires s <= f < f + cap <= e && 0 < len <= cap
    requires forall a :: a in run ==> f <= a < f + len
    ensures var b' := Placed(b, f, cap, run, len);
      && SameWithin(b, b', s, f) && SameWithin(b, b', f + cap, e)
      && (if len < cap then SameWithin(run[f + len := HoleHeader(cap - len)], b', f, f + cap)
          else SameWithin(run, b', f, f + cap))
  {
  }

  lemma PlaceHeaders(b: Blocks, s: int, e: int, f: int, cap: int, run: Blocks, len: int)
    requires FreeHeaders(b, s, e) && f in b && b[f] == HoleHeader(cap) && 0 < len <= cap
    requires forall a :: a in b && f < a < f + cap ==> false
    requires forall a :: a in run ==> f <= a < f + len && run[a].Occupied()
    ensures FreeHeaders(Placed(b, f, cap, run, len), s, e) && SameFree(b, Placed(b, f, cap, run, len), s, e)
  {
    forall a | a in run ensures !run[a].kind.FreeBlock? && !run[a].kind.Hole? {
      assert run[a].Occupied();
    }
  }

  // ----- Moving a run

  /** The headers of `src .. src + len`, seen at `dst`. */
  function Shifted(b: Blocks, dst: int, src: int, len: int): Blocks {
    var d := src - dst;
    map x | dst <= x < dst + len && Plus(x, d) in b :: b[Plus(x, d)]
  }

  function Plus(x: int, d: int): int {
    x + d
  }

  lemma ShiftedTiled(b: Blocks, dst: int, src: int, len: int)
    requires Tiled(b, src, src + len)
    ensures Tiled(Shifted(b, dst, src, len), dst, dst + len)
  {
    var r, d := Shifted(b, dst, src, len), src - dst;
    assert forall x :: x in r <==> dst <= x < dst + len && Plus(x, d) in b;
    assert forall x :: x in r ==> r[x] == b[Plus(x, d)] && End(b, Plus(x, d)) == Plus(End(r, x), d);
    if 0 < len {
      assert Plus(dst, d) == src;
    }
    forall x | x in r ensures r[x].size > 0 && End(r, x) <= dst + len && (End(r, x) == dst + len || End(r, x) in r) {
      var a := Plus(x, d);
      assert End(b, a) <= src + len && (End(b, a) == src + len || End(b, a) in b);
    }
    forall y, x | y in r && x in r && dst <= y < x < dst + len ensures End(r, y) <= x {
      assert End(b, Plus(y, d)) <= Plus(x, d);
    }
  }

  /** A run of `len` was copied from `src` down to the hole of size `cap` at `dst`.  What the copy
    * leaves behind is a hole; if source and destination touch, it is one hole behind the run. */
  function Memmoved(b: Blocks, dst: int, cap: int, src: int, len: int): Blocks {
    var run := Shifted(b, dst, src, len);
    var vacated := Vacated(b, src, src + len);
    if dst + cap == src then Placed(Vacated(vacated, dst, src + len), dst, cap + len, run, len)
    else Placed(vacated, dst, cap, run, len)
  }

  /** A run of movable blocks starts at `src`. */
  ghost predicate MovableRun(b: Blocks, src: int, len: int) {
    && 0 < len && Tiled(b, src, src + len)
    && (forall a :: a in b && src <= a < src + len ==> b[a].Occupied() && !b[a].Unmovable())
  }

  lemma MemmoveKeepsHeap(b: Blocks, n: Links, p: Links, ext: seq<Extent>, fi: nat, dst: int, cap: int,
                         ci: nat, src: int, len: int)
    requires HeapOK(b, n, p, ext) && fi < |ext| && ci < |ext|
    requires ext[fi].start <= dst < ext[fi].end && dst in b && b[dst] == HoleHeader(cap)
    requires ext[ci].start <= src && src + len <= ext[ci].end && MovableRun(b, src, len)
    requires src + len == ext[ci].end || src + len in b
    requires dst + cap <= src && (dst + cap == src || len <= cap)
    ensures HeapOK(Memmoved(b, dst, cap, src, len), n, p, ext)
  {
    hide ClusterOK, SameOutside, Tiled, Placed, Vacated, HeapOK, Shifted;
    var run := Shifted(b, dst, src, len);
    RunFits(b, dst, src, len);
    HoleEndsInside(b, n, p, ext, fi, dst, cap);
    VacateInHeap(b, n, p, ext, ci, src, src + len);
    var b1 := Vacated(b, src, src + len);
    AfterVacating(b, src, src + len, dst);
    if dst + cap == src {
      SameCluster(b, n, p, ext, fi, dst, cap, ci, src);
      VacateInHeap(b1, n, p, ext, fi, dst, src + len);
      AfterMelting(b1, dst, src + len);
      PlaceInHeap(Vacated(b1, dst, src + len), n, p, ext, fi, dst, cap + len, run, len);
    } else {
      PlaceInHeap(b1, n, p, ext, fi, dst, cap, run, len);
    }
  }

  lemma RunFits(b: Blocks, dst: int, src: int, len: int)
    requires MovableRun(b, src, len)
    ensures var run := Shifted(b, dst, src, len);
      Tiled(run, dst, dst + len) && forall a :: a in run ==> dst <= a < dst + len && run[a].Occupied()
    ensures src in b && 0 < len
    ensures forall a :: a in b && src <= a < src + len ==> !b[a].kind.FreeBlock?
  {
    ShiftedTiled(b, dst, src, len);
    forall a | a in b && src <= a < src + len ensures !b[a].kind.FreeBlock? {
      assert b[a].Occupied();
    }
  }

  lemma HoleEndsInside(b: Blocks, n: Links, p: Links, ext: seq<Extent>, fi: nat, dst: int, cap: int)
    requires HeapOK(b, n, p, ext) && fi < |ext|
    requires ext[fi].start <= dst < ext[fi].end && dst in b && b[dst].size == cap
    ensures 0 < cap && dst + cap <= ext[fi].end
    ensures forall a :: a in b && dst < a ==> dst + cap <= a
  {
    assert End(b, dst) <= ext[fi].end;
  }

  lemma SameCluster(b: Blocks, n: Links, p: Links, ext: seq<Extent>, fi: nat, dst: int, cap: int, ci: nat, src: int)
    requires HeapOK(b, n, p, ext) && fi < |ext| && ci < |ext|
    requires ext[fi].start <= dst < ext[fi].end && dst in b && b[dst].size == cap
    requires ext[ci].start <= src < ext[ci].end && dst + cap == src
    ensures fi == ci
  {
    HoleEndsInside(b, n, p, ext, fi, dst, cap);
    var destination, source := ext[fi], ext[ci];
    if fi < ci || ci < fi { assert false; }
  }

  lemma VacateInHeap(b: Blocks, n: Links, p: Links, ext: seq<Extent>, i: nat, lo: int, hi: int)
    requires HeapOK(b, n, p, ext) && i < |ext| && lo in b
    requires ext[i].start <= lo < hi <= ext[i].end && (hi == ext[i].end || hi in b)
    requires forall a :: a in b && lo <= a < hi ==> !b[a].kind.FreeBlock?
    ensures HeapOK(Vacated(b, lo, hi), n, p, ext)
  {
    hide ClusterOK, SameOutside, Vacated;
    VacateRange(b, n, p, ext[i].start, ext[i].end, lo, hi);
    HeapStep(b, n, p, Vacated(b, lo, hi), n, p, ext, i);
  }

  lemma PlaceInHeap(b: Blocks, n: Links, p: Links, ext: seq<Extent>, i: nat, f: int, cap: int, run: Blocks, len: int)
    requires HeapOK(b, n, p, ext) && i < |ext|
    requires ext[i].start <= f < ext[i].end && f in b && b[f] == HoleHeader(cap)
    requires 0 < len <= cap && Tiled(run, f, f + len)
    requires forall a :: a in run ==> f <= a < f + len && run[a].Occupied()
    ensures HeapOK(Placed(b, f, cap, run, len), n, p, ext)
  {
    hide ClusterOK, SameOutside, Placed, Tiled;
    PlaceRun(b, n, p, ext[i].start, ext[i].end, f, cap, run, len);
    HeapStep(b, n, p, Placed(b, f, cap, run, len), n, p, ext, i);
  }

  lemma AfterMelting(b: Blocks, lo: int, hi: int)
    ensures lo in Vacated(b, lo, hi) && Vacated(b, lo, hi)[lo] == HoleHeader(hi - lo)
  {
  }

  lemma AfterVacating(b: Blocks, lo: int, hi: int, dst: int)
    requires dst in b && b[dst].kind.Hole? && dst < lo < hi
    ensures var b1 := Vacated(b, lo, hi);
      && dst in b1 && b1[dst] == b[dst] && lo in b1 && b1[lo] == HoleHeader(hi - lo)
      && (hi in b ==> hi in b1)
      && (forall a :: a in b1 && lo <= a < hi ==> a == lo)
      && (forall a :: a in b1 && dst <= a < lo ==> a in b && b1[a] == b[a])
  {
  }

  // ----- Walking and rewriting the heap

  /** Marks and slots may differ, nothing else. */
  ghost predicate SameShape(b: Blocks, b': Blocks) {
    && (forall a :: a in b <==> a in b')
    && (forall a :: a in b && a in b' ==> b'[a] == b[a].(alive := b'[a].alive, cells := b'[a].cells))
    && (forall a :: a in b && a in b' && !b[a].Occupied() ==> b'[a] == b[a])
  }

  /** The clusters live in one memory at the given extents. */
  ghost predicate Wired(mem: Memory, clusters: seq<HeapCluster>, ext: seq<Extent>) {
    && |clusters| == |ext|
    && (forall i :: 0 <= i < |ext| ==>
          clusters[i].mem == mem && clusters[i].payloadStart == ext[i].start && clusters[i].payloadEnd == ext[i].end)
  }

  /** A block boundary of a cluster. */
  ghost predicate Boundary(b: Blocks, x: Extent, ptr: int) {
    ptr == x.end || (x.start <= ptr < x.end && ptr in b)
  }

  lemma ClusterShape(b: Blocks, n: Links, p: Links, ext: seq<Extent>, i: nat)
    requires HeapOK(b, n, p, ext) && i < |ext|
    ensures 0 < ext[i].start <= ext[i].end < ADDRESS_SPACE
    ensures Tiled(b, ext[i].start, ext[i].end)
  {
  }

  lemma NextBoundary(b: Blocks, n: Links, p: Links, ext: seq<Extent>, i: nat, ptr: int)
    requires HeapOK(b, n, p, ext) && i < |ext| && ext[i].start <= ptr < ext[i].end && ptr in b
    ensures 0 < b[ptr].size && Boundary(b, ext[i], ptr + b[ptr].size)
    ensures forall a :: a in b && ptr < a ==> ptr + b[ptr].size <= a
  {
    hide HeapOK;
    ClusterShape(b, n, p, ext, i);
    assert End(b, ptr) == ext[i].end || End(b, ptr) in b;
  }

  lemma ShapeKeepsCluster(b: Blocks, n: Links, p: Links, b': Blocks, s: int, e: int)
    requires ClusterOK(b, n, p, s, e) && SameShape(b, b')
    ensures ClusterOK(b', n, p, s, e)
  {
    hide ListOK;
    ShapeKeepsTiling(b, b', s, e);
    assert FreeSet(b', s, e) == FreeSet(b, s, e);
    assert forall a :: IsFree(b', a) <==> IsFree(b, a);
  }

  lemma ShapeKeepsTiling(b: Blocks, b': Blocks, s: int, e: int)
    requires Tiled(b, s, e) && SameShape(b, b')
    ensures Tiled(b', s, e)
  {
    assert forall a :: a in b && a in b' ==> End(b, a) == End(b', a);
  }

  lemma ShapeKeepsHeap(b: Blocks, n: Links, p: Links, b': Blocks, ext: seq<Extent>)
    requires HeapOK(b, n, p, ext) && SameShape(b, b')
    ensures HeapOK(b', n, p, ext)
  {
    hide ClusterOK, Inside;
    forall i | 0 <= i < |ext| ensures ClusterOK(b', n, p, ext[i].start, ext[i].end) {
      ShapeKeepsCluster(b, n, p, b', ext[i].start, ext[i].end);
    }
  }

  /** Where a walk over all clusters stands when it comes to cluster `i`. */
  ghost function PassStart(ext: seq<Extent>, i: nat): int
    requires i <= |ext|
  {
    if i == 0 then 0 else ext[i - 1].end
  }

  /** No block lies between two clusters. */
  lemma GapEmpty(b: Blocks, n: Links, p: Links, ext: seq<Extent>, i: nat)
    requires HeapOK(b, n, p, ext) && i < |ext|
    ensures forall a :: a in b ==> (a < ext[i].start <==> a < PassStart(ext, i))
  {
    hide ClusterOK;
    forall a | a in b ensures a < ext[i].start <==> a < PassStart(ext, i) {
      assert Inside(ext, a);
      var j :| 0 <= j < |ext| && ext[j].start <= a < ext[j].end;
      ExtentsUpTo(b, n, p, ext, i);
      assert i < j ==> ext[i].end + 1 < ext[j].start;
    }
  }

  lemma ExtentsUpTo(b: Blocks, n: Links, p: Links, ext: seq<Extent>, i: nat)
    requires HeapOK(b, n, p, ext) && i < |ext|
    ensures 0 < ext[i].start <= ext[i].end < ADDRESS_SPACE
    ensures forall j :: 0 <= j < i ==> ext[j].end < ext[i].start && ext[j].end <= ext[i - 1].end
    ensures 0 < i ==> ext[i - 1].end < ext[i].start
  {
    hide ClusterOK, Tiled;
    if 0 < i {
      assert ext[i - 1].end + 1 < ext[i].start;
      ClusterShape(b, n, p, ext, i - 1);
    }
    ClusterShape(b, n, p, ext, i);
    assert forall j :: 0 <= j < i - 1 ==> ext[j].end + 1 < ext[i - 1].start;
  }

  /** Blocks do not overlap. */
  ghost predicate Apart(b: Blocks) {
    && (forall a :: a in b ==> 0 < a && 0 < b[a].size && a + b[a].size < ADDRESS_SPACE)
    && (forall a, x :: a in b && x in b && a < x ==> a + b[a].size <= x)
  }

  lemma HeapApart(b: Blocks, n: Links, p: Links, ext: seq<Extent>)
    requires HeapOK(b, n, p, ext)
    ensures Apart(b)
  {
    forall a | a in b ensures 0 < a && 0 < b[a].size && a + b[a].size < ADDRESS_SPACE {
      assert Inside(ext, a);
    }
    forall a, x | a in b && x in b && a < x ensures a + b[a].size <= x {
      assert Inside(ext, a) && Inside(ext, x);
      var i :| 0 <= i < |ext| && ext[i].start <= a < ext[i].end;
      var j :| 0 <= j < |ext| && ext[j].start <= x < ext[j].end;
      assert End(b, a) <= ext[i].end;
      if j < i { assert false; }
      if i == j {
        assert End(b, a) <= x;
      }
    }
  }
}
