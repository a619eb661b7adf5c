/** The heap compactor: runs of movable blocks slide or jump down into free blocks; the moves are
  * recorded in the relocation table, and every pointer is rewritten whenever the table is full. */
module Compaction {
  import opened HeapModel
  import opened Clusters
  import opened Heap
  import opened Relocation

  // ----- What compaction preserves

  /** `log` describes all moves.  The blocks in use are those of `h0`, each at its relocated
    * address and with the pointers rewritten by the moves that were already flushed, `log[..k]`.
    * `org` maps a block to where it was, and nothing at or above `cursor` has moved. */
  ghost predicate Tracks(h0: Blocks, b: Blocks, org: map<int, Addr>, log: seq<Region>, k: nat, cursor: int) {
    && Sorted(log) && Downwards(log) && k <= |log|
    && (forall i :: 0 <= i < |log| ==> log[i].end <= cursor)
    && Images(h0, b, org, log, k)
    && (forall x :: InUse(b, x) ==> x in org && InUse(h0, org[x]) && Lookup(log, org[x]) == x)
    && (forall x :: InUse(b, x) && x >= cursor ==> org[x] == x)
    && WholeBlocks(h0, log)
  }

  ghost predicate Images(h0: Blocks, b: Blocks, org: map<int, Addr>, log: seq<Region>, k: nat)
    requires k <= |log|
  {
    forall a: Addr :: InUse(h0, a) ==>
      && InUse(b, Lookup(log, a)) && Lookup(log, a) in org && org[Lookup(log, a)] == a
      && b[Lookup(log, a)] == RelocatedBlock(h0[a], log[..k])
  }

  /** Regions consist of whole movable blocks. */
  ghost predicate WholeBlocks(h0: Blocks, log: seq<Region>) {
    forall i, a: Addr :: 0 <= i < |log| && InUse(h0, a) ==>
      && (log[i].Contains(a) ==> a + h0[a].size <= log[i].end && !h0[a].Unmovable())
      && (a < log[i].start ==> a + h0[a].size <= log[i].start)
  }

  /** The object graph survives: under the address map of `log`, which is injective on blocks,
    * never moves anything up and never moves an unmovable block, the blocks in use are the old
    * ones with the same headers and every pointer replaced by its image. */
  ghost predicate GraphPreserved(h0: Blocks, roots0: seq<Addr>, b: Blocks, roots: seq<Addr>, log: seq<Region>) {
    && Sorted(log) && Downwards(log)
    && (forall a: Addr :: InUse(h0, a) ==>
          && InUse(b, Lookup(log, a)) && b[Lookup(log, a)] == RelocatedBlock(h0[a], log)
          && Lookup(log, a) <= a && (h0[a].Unmovable() ==> Lookup(log, a) == a))
    && (forall x :: InUse(b, x) ==> exists a: Addr :: InUse(h0, a) && Lookup(log, a) == x)
    && (forall a: Addr, a': Addr :: InUse(h0, a) && InUse(h0, a') && Lookup(log, a) == Lookup(log, a') ==> a == a')
    && (forall a: Addr, p: Addr :: InUse(h0, a) && a <= p < a + h0[a].size ==>
          Lookup(log, p) - Lookup(log, a) == p - a)
    && roots == RelocatedRoots(roots0, log)
  }

  function RelocatedRoots(roots: seq<Addr>, regions: seq<Region>): seq<Addr> {
    seq(|roots|, i requires 0 <= i < |roots| => Lookup(regions, roots[i]))
  }

  lemma TracksStart(h0: Blocks)
    requires Apart(h0)
    ensures Tracks(h0, h0, map x | x in h0 :: x as Addr, [], 0, 0)
  {
    forall a: Addr | InUse(h0, a) ensures h0[a] == RelocatedBlock(h0[a], []) {
      RelocatedNothing(h0[a]);
    }
  }

  // ----- One move

  /** In terms of blocks in use, a run moved from `src` to `dst` and nothing else happened. */
  ghost predicate RunMoved(b: Blocks, b': Blocks, dst: int, src: int, len: int) {
    var d := src - dst;
    && (forall x :: InUse(b', x) && dst <= x < dst + len ==> InUse(b, Plus(x, d)) && b'[x] == b[Plus(x, d)])
    && (forall x :: InUse(b', x) && !(dst <= x < dst + len) ==>
          InUse(b, x) && b'[x] == b[x] && !(src <= x < src + len))
    && (forall a :: InUse(b, a) ==> InUse(b', if src <= a < src + len then Plus(a, -d) else a))
    && (forall a :: InUse(b, a) && dst <= a < dst + len ==> src <= a < src + len)
  }

  lemma MemmoveMovesRun(b: Blocks, dst: int, cap: int, src: int, len: int)
    requires 0 < cap && dst in b && b[dst] == HoleHeader(cap) && MovableRun(b, src, len)
    requires dst + cap <= src && (dst + cap == src || len <= cap)
    requires forall a :: a in b && dst < a ==> dst + cap <= a
    ensures RunMoved(b, Memmoved(b, dst, cap, src, len), dst, src, len)
  {
    hide Memmoved, MovableRun;
    RunLands(b, dst, cap, src, len);
    RunLeaves(b, dst, cap, src, len);
  }

  lemma RunLands(b: Blocks, dst: int, cap: int, src: int, len: int)
    requires 0 < cap && MovableRun(b, src, len) && dst + cap <= src && (dst + cap == src || len <= cap)
    requires forall a :: a in b && dst < a ==> dst + cap <= a
    requires dst in b && b[dst] == HoleHeader(cap)
    ensures var d, b' := src - dst, Memmoved(b, dst, cap, src, len);
      && (forall x :: InUse(b', x) && dst <= x < dst + len ==> InUse(b, Plus(x, d)) && b'[x] == b[Plus(x, d)])
      && (forall x :: InUse(b', x) && !(dst <= x < dst + len) ==>
            InUse(b, x) && b'[x] == b[x] && !(src <= x < src + len))
  {
    hide Memmoved, Shifted, MovableRun, Tiled;
    MemmovedInUse(b, dst, cap, src, len);
    RunFits(b, dst, src, len);
    ShiftedAt(b, dst, src, len);
  }

  lemma RunLeaves(b: Blocks, dst: int, cap: int, src: int, len: int)
    requires 0 < cap && MovableRun(b, src, len) && dst + cap <= src && (dst + cap == src || len <= cap)
    requires forall a :: a in b && dst < a ==> dst + cap <= a
    requires dst in b && b[dst] == HoleHeader(cap)
    ensures forall a :: InUse(b, a) ==>
      InUse(Memmoved(b, dst, cap, src, len), if src <= a < src + len then Plus(a, dst - src) else a)
    ensures forall a :: InUse(b, a) && dst <= a < dst + len ==> src <= a < src + len
  {
    hide Memmoved, Shifted, MovableRun, Tiled;
    MemmovedInUse(b, dst, cap, src, len);
    RunFits(b, dst, src, len);
    ShiftedAt(b, dst, src, len);
    forall a | InUse(b, a) && src <= a < src + len ensures Plus(a, dst - src) in Shifted(b, dst, src, len) {
      assert Plus(Plus(a, dst - src), src - dst) == a;
    }
  }

  lemma MemmovedInUse(b: Blocks, dst: int, cap: int, src: int, len: int)
    requires 0 < cap && MovableRun(b, src, len) && dst + cap <= src && (dst + cap == src || len <= cap)
    ensures var run, b' := Shifted(b, dst, src, len), Memmoved(b, dst, cap, src, len);
      && (forall x :: InUse(b', x) <==> x in run || (InUse(b, x) && !(src <= x < src + len) && !(dst <= x < dst + cap)))
      && (forall x :: InUse(b', x) ==> b'[x] == if x in run then run[x] else b[x])
  {
    hide Placed, Vacated, Tiled, Shifted;
    var run, b1 := Shifted(b, dst, src, len), Vacated(b, src, src + len);
    RunFits(b, dst, src, len);
    VacatedInUse(b, src, src + len);
    if dst + cap == src {
      VacatedInUse(b1, dst, src + len);
      PlacedInUse(Vacated(b1, dst, src + len), dst, cap + len, run, len);
    } else {
      PlacedInUse(b1, dst, cap, run, len);
    }
  }

  lemma ShiftedAt(b: Blocks, dst: int, src: int, len: int)
    ensures var run, d := Shifted(b, dst, src, len), src - dst;
      && (forall x :: x in run <==> dst <= x < dst + len && Plus(x, d) in b)
      && (forall x :: x in run ==> run[x] == b[Plus(x, d)])
  {
  }

  lemma VacatedInUse(b: Blocks, lo: int, hi: int)
    requires lo < hi
    ensures forall x :: InUse(Vacated(b, lo, hi), x) <==> InUse(b, x) && !(lo <= x < hi)
    ensures forall x :: InUse(Vacated(b, lo, hi), x) ==> Vacated(b, lo, hi)[x] == b[x]
  {
  }

  lemma PlacedInUse(b: Blocks, f: int, cap: int, run: Blocks, len: int)
    requires 0 < len <= cap
    requires forall a :: a in run ==> f <= a < f + len && run[a].Occupied()
    ensures var b' := Placed(b, f, cap, run, len);
      && (forall x :: InUse(b', x) <==> x in run || (InUse(b, x) && !(f <= x < f + cap)))
      && (forall x :: InUse(b', x) ==> b'[x] == if x in run then run[x] else b[x])
  {
  }

  function OriginsAfter(b': Blocks, org: map<int, Addr>, dst: int, src: Addr, len: int): map<int, Addr>
    requires forall x :: InUse(b', x) && dst <= x < dst + len ==> 0 <= x + (src - dst) < ADDRESS_SPACE
    requires forall x :: InUse(b', x) && !(dst <= x < dst + len) ==> x in org
  {
    map x | x in b' && InUse(b', x) :: if dst <= x < dst + len then x + (src - dst) else org[x]
  }

  /** Recording a move at or above the cursor keeps the correspondence. */
  lemma TracksMove(h0: Blocks, b: Blocks, b': Blocks, org: map<int, Addr>, log: seq<Region>, k: nat, cursor: int,
                   dst: Addr, src: Addr, len: int) returns (org': map<int, Addr>)
    requires Tracks(h0, b, org, log, k, cursor) && Apart(h0)
    requires cursor <= src && dst < src && 0 < len && src + len <= ADDRESS_SPACE
    requires src in b && MovableRun(b, src, len) && RunMoved(b, b', dst, src, len)
    ensures Tracks(h0, b', org', log + [RegionOf(dst, src, len)], k, src + len)
  {
    hide Images, WholeBlocks, MovableRun, RunMoved, Apart;
    var r := RegionOf(dst, src, len);
    LogGrows(log, r, cursor);
    Untouched(h0, b, org, log, k, cursor);
    WholeBlocksMove(h0, b, org, log, k, cursor, dst, src, len);
    OriginsDefined(b, b', org, dst, src, len);
    org' := OriginsAfter(b', org, dst, src, len);
    OriginsMove(h0, b, b', org, log, k, cursor, dst, src, len);
    ImagesMove(h0, b, b', org, log, k, cursor, dst, src, len);
  }

  lemma LogGrows(log: seq<Region>, r: Region, cursor: int)
    requires Sorted(log) && Downwards(log) && forall i :: 0 <= i < |log| ==> log[i].end <= cursor
    requires r.Valid() && r.destination < r.start && cursor <= r.start
    ensures Sorted(log + [r]) && Downwards(log + [r])
    ensures forall i :: 0 <= i < |log + [r]| ==> (log + [r])[i].end <= r.end
  {
  }

  /** Above the cursor, the old and the new blocks coincide. */
  ghost predicate Above(h0: Blocks, b: Blocks, log: seq<Region>, cursor: int) {
    forall a: Addr :: InUse(h0, a) && cursor <= a ==>
      && Lookup(log, a) == a && InUse(b, a)
      && b[a].size == h0[a].size && b[a].Unmovable() == h0[a].Unmovable()
  }

  lemma Untouched(h0: Blocks, b: Blocks, org: map<int, Addr>, log: seq<Region>, k: nat, cursor: int)
    requires k <= |log| && Images(h0, b, org, log, k)
    requires forall i :: 0 <= i < |log| ==> log[i].end <= cursor
    ensures Above(h0, b, log, cursor)
  {
    forall a: Addr | InUse(h0, a) && cursor <= a ensures Lookup(log, a) == a {
      LookupMiss(log, a);
    }
  }

  lemma WholeBlocksMove(h0: Blocks, b: Blocks, org: map<int, Addr>, log: seq<Region>, k: nat, cursor: int,
                        dst: Addr, src: Addr, len: int)
    requires WholeBlocks(h0, log) && Above(h0, b, log, cursor) && Apart(h0)
    requires cursor <= src && 0 < len && src + len <= ADDRESS_SPACE && MovableRun(b, src, len)
    requires src in b && (forall x :: InUse(b, x) && x >= cursor ==> x in org && InUse(h0, org[x]) && org[x] == x)
    ensures WholeBlocks(h0, log + [RegionOf(dst, src, len)])
  {
    var r := RegionOf(dst, src, len);
    assert InUse(b, src);
    forall a: Addr | InUse(h0, a)
      ensures r.Contains(a) ==> a + h0[a].size <= r.end && !h0[a].Unmovable()
      ensures a < r.start ==> a + h0[a].size <= r.start
    {
      if r.Contains(a) {
        assert End(b, a) <= src + len;
      }
    }
  }

  lemma OriginsDefined(b: Blocks, b': Blocks, org: map<int, Addr>, dst: Addr, src: Addr, len: int)
    requires RunMoved(b, b', dst, src, len) && dst < src && src + len <= ADDRESS_SPACE
    requires forall x :: InUse(b, x) ==> x in org
    ensures forall x :: InUse(b', x) && dst <= x < dst + len ==> 0 <= x + (src - dst) < ADDRESS_SPACE
    ensures forall x :: InUse(b', x) && !(dst <= x < dst + len) ==> x in org
  {
  }

  lemma OriginsMove(h0: Blocks, b: Blocks, b': Blocks, org: map<int, Addr>, log: seq<Region>, k: nat, cursor: int,
                    dst: Addr, src: Addr, len: int)
    requires Sorted(log + [RegionOf(dst, src, len)]) && Above(h0, b, log, cursor)
    requires cursor <= src && dst < src && 0 < len && src + len <= ADDRESS_SPACE
    requires RunMoved(b, b', dst, src, len)
    requires forall x :: InUse(b, x) ==> x in org && InUse(h0, org[x]) && Lookup(log, org[x]) == x
    requires forall x :: InUse(b, x) && x >= cursor ==> org[x] == x
    requires forall x :: InUse(b', x) && dst <= x < dst + len ==> 0 <= x + (src - dst) < ADDRESS_SPACE
    requires forall x :: InUse(b', x) && !(dst <= x < dst + len) ==> x in org
    ensures var org' := OriginsAfter(b', org, dst, src, len);
      && (forall x :: InUse(b', x) ==> x in org' && InUse(h0, org'[x]))
      && (forall x :: InUse(b', x) ==> Lookup(log + [RegionOf(dst, src, len)], org'[x]) == x)
      && (forall x :: InUse(b', x) && x >= src + len ==> org'[x] == x)
  {
    hide Lookup, Sorted;
    var org', r := OriginsAfter(b', org, dst, src, len), RegionOf(dst, src, len);
    forall x | InUse(b', x) ensures x in org' && InUse(h0, org'[x]) && Lookup(log + [r], org'[x]) == x {
      if dst <= x < dst + len {
        var y := Plus(x, src - dst);
        assert InUse(b, y) && org'[x] == y;
        LookupAppend(log, r, y);
      } else {
        assert InUse(b, x) && org'[x] == org[x];
        assert InUse(h0, org[x]) && !r.Contains(org[x]);
        LookupAppend(log, r, org[x]);
      }
    }
  }

  lemma ImagesMove(h0: Blocks, b: Blocks, b': Blocks, org: map<int, Addr>, log: seq<Region>, k: nat, cursor: int,
                   dst: Addr, src: Addr, len: int)
    requires Sorted(log + [RegionOf(dst, src, len)]) && Above(h0, b, log, cursor)
    requires k <= |log| && Images(h0, b, org, log, k)
    requires cursor <= src && dst < src && 0 < len && src + len <= ADDRESS_SPACE
    requires RunMoved(b, b', dst, src, len)
    requires forall x :: InUse(b, x) && x >= cursor ==> x in org && org[x] == x
    requires forall x :: InUse(b', x) && dst <= x < dst + len ==> 0 <= x + (src - dst) < ADDRESS_SPACE
    requires forall x :: InUse(b', x) && !(dst <= x < dst + len) ==> x in org
    ensures Images(h0, b', OriginsAfter(b', org, dst, src, len), log + [RegionOf(dst, src, len)], k)
  {
    hide Lookup, Sorted, RelocatedBlock;
    var org', r := OriginsAfter(b', org, dst, src, len), RegionOf(dst, src, len);
    assert (log + [r])[..k] == log[..k];
    forall a: Addr | InUse(h0, a)
      ensures var x := Lookup(log + [r], a);
        InUse(b', x) && x in org' && org'[x] == a && b'[x] == RelocatedBlock(h0[a], log[..k])
    {
      LookupAppend(log, r, a);
      var y := Lookup(log, a);
      assert InUse(b, y);
      assert src <= y < src + len ==> y == a;
      assert r.Contains(a) ==> y == a;
      var x := if src <= y < src + len then Plus(y, dst - src) else y;
      assert InUse(b', x);
      assert Plus(Plus(y, dst - src), src - dst) == y;
    }
  }

  // ----- Rewriting the pointers

  function RelocatedHeap(b: Blocks, regions: seq<Region>): Blocks {
    map a | a in b :: RelocatedBlock(b[a], regions)
  }

  lemma TracksFlush(h0: Blocks, b: Blocks, org: map<int, Addr>, log: seq<Region>, k: nat, cursor: int)
    requires Tracks(h0, b, org, log, k, cursor)
    ensures Tracks(h0, RelocatedHeap(b, log[k..]), org, log, |log|, cursor)
  {
    var b' := RelocatedHeap(b, log[k..]);
    assert log[..|log|] == log[..k] + log[k..] == log;
    assert forall x :: InUse(b', x) <==> InUse(b, x);
    assert Downwards(log[..k]);
    forall a: Addr | InUse(h0, a) ensures b'[Lookup(log, a)] == RelocatedBlock(h0[a], log) {
      RelocatedCompose(h0[a], log[..k], log[k..]);
    }
  }

  lemma RootsFlush(roots: seq<Addr>, log: seq<Region>, k: nat)
    requires k <= |log| && Sorted(log) && Downwards(log)
    ensures RelocatedRoots(RelocatedRoots(roots, log[..k]), log[k..]) == RelocatedRoots(roots, log)
  {
    assert log[..k] + log[k..] == log;
    assert Downwards(log[..k]);
    forall i | 0 <= i < |roots| ensures Lookup(log[k..], Lookup(log[..k], roots[i])) == Lookup(log, roots[i]) {
      LookupCompose(log[..k], log[k..], roots[i]);
    }
  }

  /** Once everything is flushed the correspondence says that the object graph is preserved. */
  lemma TracksEnd(h0: Blocks, roots0: seq<Addr>, b: Blocks, org: map<int, Addr>, log: seq<Region>, cursor: int)
    requires Tracks(h0, b, org, log, |log|, cursor) && Apart(h0)
    ensures GraphPreserved(h0, roots0, b, RelocatedRoots(roots0, log), log)
  {
    assert log[..|log|] == log;
    forall a: Addr | InUse(h0, a)
      ensures Lookup(log, a) <= a && (h0[a].Unmovable() ==> Lookup(log, a) == a)
    {
      var i := LookupCases(log, a);
    }
    forall a: Addr, p: Addr | InUse(h0, a) && a <= p < a + h0[a].size
      ensures Lookup(log, p) - Lookup(log, a) == p - a
    {
      InteriorPointer(h0, log, a, p);
    }
    forall x | InUse(b, x) ensures exists a: Addr :: InUse(h0, a) && Lookup(log, a) == x {
      var a := org[x];
    }
  }

  lemma InteriorPointer(h0: Blocks, log: seq<Region>, a: Addr, p: Addr)
    requires Sorted(log) && WholeBlocks(h0, log) && InUse(h0, a) && a <= p < a + h0[a].size
    ensures Lookup(log, p) - Lookup(log, a) == p - a
  {
    var i := LookupCases(log, a);
    var j := LookupCases(log, p);
    if i >= 0 {
      LookupHit(log, i, p);
    } else if j >= 0 {
      assert false;
    }
  }

  // ----- Free blocks and holes across a move

  /** The blocks in use are the same. */
  ghost predicate SameInUse(b: Blocks, b': Blocks) {
    && (forall x :: InUse(b, x) <==> InUse(b', x))
    && (forall x :: InUse(b, x) && InUse(b', x) ==> b'[x] == b[x])
  }

  /** The only holes are the given ones. */
  ghost predicate HolesAmong(b: Blocks, holes: set<int>) {
    forall a :: a in b && b[a].kind.Hole? ==> a in holes
  }

  /** An address is the tail of a cluster's free list or one of its free blocks. */
  ghost predicate OnList(b: Blocks, x: Extent, ptr: int) {
    ptr == x.end || (x.start <= ptr < x.end && IsFree(b, ptr))
  }

  lemma UnlinkEffects(b: Blocks, f: int, x: Extent, next: int)
    requires IsFree(b, f) && HoleFree(b) && OnList(b, x, next) && next != f
    ensures var b' := b[f := HoleHeader(b[f].size)];
      SameInUse(b, b') && HolesAmong(b', {f}) && OnList(b', x, next)
  {
  }

  lemma MemmovedFree(b: Blocks, dst: int, cap: int, src: int, len: int)
    requires 0 < cap && dst in b && b[dst] == HoleHeader(cap) && MovableRun(b, src, len)
    requires dst + cap <= src && (dst + cap == src || len <= cap)
    requires forall a :: a in b && dst < a ==> dst + cap <= a
    requires HolesAmong(b, {dst})
    ensures var b' := Memmoved(b, dst, cap, src, len);
      && (forall x :: IsFree(b, x) <==> IsFree(b', x))
      && HolesAmong(b', if dst + cap == src || len < cap then {dst + len, src} else {src})
      && (dst + cap != src ==> src in b' && b'[src] == HoleHeader(len))
      && (dst + cap == src ==> dst + len in b' && b'[dst + len] == HoleHeader(cap) && HolesAmong(b', {dst + len}))
      && (dst + cap != src && len < cap ==> dst + len in b' && b'[dst + len] == HoleHeader(cap - len))
  {
    hide Tiled, Placed, Vacated, Shifted, MovableRun;
    RunFits(b, dst, src, len);
    var run, b1 := Shifted(b, dst, src, len), Vacated(b, src, src + len);
    VacatedFree(b, src, src + len);
    if dst + cap == src {
      VacatedFree(b1, dst, src + len);
      PlacedFree(Vacated(b1, dst, src + len), dst, cap + len, run, len);
    } else {
      PlacedFree(b1, dst, cap, run, len);
    }
  }

  lemma VacatedFree(b: Blocks, lo: int, hi: int)
    requires lo < hi && forall a :: a in b && lo <= a < hi ==> !b[a].kind.FreeBlock?
    ensures var b' := Vacated(b, lo, hi);
      && lo in b' && b'[lo] == HoleHeader(hi - lo)
      && (forall x :: IsFree(b', x) <==> IsFree(b, x))
      && (forall x :: x in b' && b'[x].kind.Hole? ==> x == lo || (x in b && b[x].kind.Hole? && (x < lo || hi <= x)))
      && (forall x :: x < lo && x in b ==> x in b' && b'[x] == b[x])
      && (forall x :: x in b' && lo <= x < hi ==> x == lo)
      && (forall x :: x in b' && x < lo ==> x in b && b'[x] == b[x])
  {
  }

  lemma PlacedFree(b: Blocks, f: int, cap: int, run: Blocks, len: int)
    requires 0 < len <= cap && forall a :: a in b && f <= a < f + cap ==> !b[a].kind.FreeBlock?
    requires forall a :: a in run ==> f <= a < f + len && run[a].Occupied()
    ensures var b' := Placed(b, f, cap, run, len);
      && (len < cap ==> f + len in b' && b'[f + len] == HoleHeader(cap - len))
      && (forall x :: IsFree(b', x) <==> IsFree(b, x))
      && (forall x :: x in b' && b'[x].kind.Hole? ==>
            (x == f + len && len < cap) || (x in b && b[x].kind.Hole? && (x < f || f + cap <= x)))
      && (forall x :: x in b && f + cap <= x ==> x in b' && b'[x] == b[x])
  {
    forall a | a in run ensures !run[a].kind.FreeBlock? && !run[a].kind.Hole? {
      assert run[a].Occupied();
    }
  }

  lemma FilledEffects(b: Blocks, b': Blocks, s: int, e: int, node: int, size: int, res: int, holes: set<int>)
    requires 0 < size && Filled(b, b', s, e, node, size, res) && HolesAmong(b, holes) && node in b && b[node].kind.Hole?
    ensures SameInUse(b, b') && HolesAmong(b', holes - {node})
  {
  }
}
