/** What a compaction leaves to be desired: movable blocks with free space right in front of them. */
module CompactionGaps {
  import opened HeapModel
  import opened Clusters
  import opened Heap
  import opened Relocation
  import opened Compaction

  ghost predicate Movable(b: Blocks, g: int) {
    InUse(b, g) && !b[g].Unmovable()
  }

  /** Some block in use ends at `g`. */
  ghost predicate EndsAt(b: Blocks, g: int) {
    exists a :: InUse(b, a) && a + b[a].size == g
  }

  ghost predicate Inner(ext: seq<Extent>, g: int) {
    exists i :: 0 <= i < |ext| && ext[i].start < g < ext[i].end
  }

  /** A movable block that neither follows a block in use nor starts its cluster: it could move down. */
  ghost predicate Gap(b: Blocks, ext: seq<Extent>, g: int) {
    Movable(b, g) && Inner(ext, g) && !EndsAt(b, g)
  }

  function Length(r: Region): int {
    r.end - r.start
  }

  /** The run filled a free block of its own cluster exactly, up to an unmovable block. */
  ghost predicate FilledUp(b: Blocks, ext: seq<Extent>, r: Region) {
    var u := r.destination + Length(r);
    && InUse(b, u) && b[u].Unmovable() && u < r.start
    && (exists i :: 0 <= i < |ext| && ext[i].start <= r.destination && r.end <= ext[i].end)
  }

  /** The `k`-th run ended in front of `g` and left its place behind, and no later run fills it. */
  ghost predicate LeftAt(b: Blocks, ext: seq<Extent>, log: seq<Region>, g: int, k: int) {
    && 0 <= k < |log| && log[k].end == g && FilledUp(b, ext, log[k])
    && (forall j :: k < j < |log| ==> log[j].destination + Length(log[j]) != g)
  }

  predicate Stayed(log: seq<Region>, g: int) {
    forall j :: 0 <= j < |log| ==> !(log[j].start <= g < log[j].end)
  }

  /** A movable block that was never moved, behind the place of a run that filled a free block exactly. */
  ghost predicate LeftBehind(h0: Blocks, b: Blocks, ext: seq<Extent>, log: seq<Region>, g: int) {
    Movable(h0, g) && Stayed(log, g) && exists k :: LeftAt(b, ext, log, g, k)
  }

  /** Exactly the blocks left behind have free space in front of them. */
  ghost predicate Compacted(h0: Blocks, b: Blocks, ext: seq<Extent>, log: seq<Region>) {
    forall g :: Gap(b, ext, g) <==> LeftBehind(h0, b, ext, log, g)
  }

  // ----- Gaps and free blocks

  /** In front of a gap there is a free block, and in front of any other inner block there is not. */
  lemma GapIsFree(b: Blocks, n: Links, p: Links, ext: seq<Extent>, i: nat, g: int) returns (f: int)
    requires HeapOK(b, n, p, ext) && HoleFree(b) && i < |ext| && ext[i].start < g < ext[i].end && g in b
    ensures f in b && ext[i].start <= f < g && f + b[f].size == g
    ensures IsFree(b, f) <==> !EndsAt(b, g)
  {
    ClusterShape(b, n, p, ext, i);
    HeapApart(b, n, p, ext);
    hide HeapOK;
    f := TileAt(b, ext[i].start, ext[i].end, g - 1);
    assert End(b, f) <= g;
    hide Tiled;
    if EndsAt(b, g) {
      var a :| InUse(b, a) && a + b[a].size == g;
      assert a == f;
    }
  }

  lemma GapFree(b: Blocks, n: Links, p: Links, ext: seq<Extent>, g: int) returns (i: nat, f: int)
    requires HeapOK(b, n, p, ext) && HoleFree(b) && Gap(b, ext, g)
    ensures i < |ext| && ext[i].start <= f < g < ext[i].end && IsFree(b, f) && f + b[f].size == g
  {
    i :| 0 <= i < |ext| && ext[i].start < g < ext[i].end;
    f := GapIsFree(b, n, p, ext, i, g);
  }

  // ----- One move

  /** The facts about a move that gaps depend on. */
  ghost predicate Moves(b: Blocks, n: Links, p: Links, b': Blocks, ext: seq<Extent>, fi: nat, dst: int, ci: nat, src: int, len: int) {
    && HeapOK(b, n, p, ext) && HoleFree(b) && fi < |ext| && ci < |ext|
    && ext[fi].start <= dst < ext[fi].end && IsFree(b, dst) && dst + b[dst].size <= src
    && ext[ci].start <= src && MovableRun(b, src, len) && Boundary(b, ext[ci], src + len)
    && (dst + b[dst].size == src || len <= b[dst].size)
    && RunMoved(b, b', dst, src, len)
  }

  /** A block right behind another one keeps its neighbour, unless the neighbour is the last of the run. */
  lemma EndsAfter(b: Blocks, b': Blocks, dst: int, src: int, len: int, g: int)
    requires Apart(b) && MovableRun(b, src, len) && RunMoved(b, b', dst, src, len)
    requires InUse(b, g) && !(src <= g < src + len) && EndsAt(b, g) && g != src + len
    ensures EndsAt(b', g)
  {
    var a :| InUse(b, a) && a + b[a].size == g;
    assert forall x :: x in b && src <= x < src + len ==> End(b, x) <= src + len;
    assert InUse(b', a);
    assert !(dst <= a < dst + len);
  }

  /** The blocks of the run land one behind the other. */
  lemma RunStaysTogether(b: Blocks, b': Blocks, dst: int, src: int, len: int, g: int)
    requires MovableRun(b, src, len) && RunMoved(b, b', dst, src, len) && dst < src
    requires InUse(b', g) && dst < g < dst + len
    ensures EndsAt(b', g)
  {
    var d := src - dst;
    assert InUse(b, Plus(g, d));
    var a := TileAt(b, src, src + len, Plus(g, d) - 1);
    assert End(b, a) <= Plus(g, d);
    assert InUse(b, a);
    assert InUse(b', Plus(a, -d));
    assert InUse(b, Plus(Plus(a, -d), d)) && Plus(Plus(a, -d), d) == a;
    assert b'[Plus(a, -d)] == b[a];
  }

  lemma RunEndsAt(b: Blocks, b': Blocks, dst: int, src: int, len: int)
    requires MovableRun(b, src, len) && RunMoved(b, b', dst, src, len) && dst < src
    ensures EndsAt(b', dst + len)
  {
    var d := src - dst;
    var a := TileAt(b, src, src + len, src + len - 1);
    assert End(b, a) <= src + len;
    assert InUse(b, a);
    assert InUse(b', Plus(a, -d));
    assert InUse(b, Plus(Plus(a, -d), d)) && Plus(Plus(a, -d), d) == a;
    assert b'[Plus(a, -d)] == b[a];
  }

  /** The destination follows a block in use or starts its cluster. */
  lemma LandsBehind(b: Blocks, n: Links, p: Links, b': Blocks, ext: seq<Extent>, fi: nat, dst: int, ci: nat, src: int, len: int)
    requires Moves(b, n, p, b', ext, fi, dst, ci, src, len)
    ensures Inner(ext, dst) ==> EndsAt(b', dst)
  {
    hide HeapOK, HoleFree, MovableRun;
    HeapApart(b, n, p, ext);
    NextBoundary(b, n, p, ext, fi, dst);
    if Inner(ext, dst) {
      var i :| 0 <= i < |ext| && ext[i].start < dst < ext[i].end;
      var f := GapIsFree(b, n, p, ext, i, dst);
      NoTwoFree(b, n, p, ext, i, f, dst);
      var a :| InUse(b, a) && a + b[a].size == dst;
      assert InUse(b', a);
      assert b'[a] == b[a];
    }
  }

  lemma NoTwoFree(b: Blocks, n: Links, p: Links, ext: seq<Extent>, i: nat, f: int, x: int)
    requires HeapOK(b, n, p, ext) && i < |ext| && ext[i].start <= f < x < ext[i].end && IsFree(b, x)
    requires f in b && f + b[f].size == x
    ensures !IsFree(b, f)
  {
  }

  /** After a move the only new gap is in front of the block that followed the run. */
  lemma GapsAfter(b: Blocks, n: Links, p: Links, b': Blocks, ext: seq<Extent>, fi: nat, dst: int, ci: nat, src: int, len: int,
                  g: int)
    requires Moves(b, n, p, b', ext, fi, dst, ci, src, len) && Gap(b', ext, g) && g != src + len
    ensures Gap(b, ext, g) && !(src <= g < src + len) && g != dst + len
  {
    RunMoves(b, n, p, b', ext, fi, dst, ci, src, len);
    if dst <= g < dst + len {
      if g == dst {
        LandsBehind(b, n, p, b', ext, fi, dst, ci, src, len);
      } else {
        RunStaysTogether(b, b', dst, src, len, g);
      }
      assert false;
    }
    hide MovableRun, Moves;
    assert InUse(b, g) && b'[g] == b[g] && !(src <= g < src + len);
    if EndsAt(b, g) {
      EndsAfter(b, b', dst, src, len, g);
    }
    if g == dst + len {
      RunEndsAt(b, b', dst, src, len);
    }
  }

  lemma RunMoves(b: Blocks, n: Links, p: Links, b': Blocks, ext: seq<Extent>, fi: nat, dst: int, ci: nat, src: int, len: int)
    requires Moves(b, n, p, b', ext, fi, dst, ci, src, len)
    ensures Apart(b) && MovableRun(b, src, len) && RunMoved(b, b', dst, src, len) && 0 < len && dst < src
    ensures dst + len < src + len && dst + b[dst].size <= src && fi < |ext| && ci < |ext|
  {
    HeapApart(b, n, p, ext);
    NextBoundary(b, n, p, ext, fi, dst);
  }

  /** A move, seen from the blocks in use. */
  ghost predicate Jump(b: Blocks, b': Blocks, dst: int, src: int, len: int) {
    && Apart(b) && MovableRun(b, src, len) && RunMoved(b, b', dst, src, len)
    && IsFree(b, dst) && dst < src && (dst + b[dst].size == src || len <= b[dst].size)
  }

  lemma MovesJump(b: Blocks, n: Links, p: Links, b': Blocks, ext: seq<Extent>, fi: nat, dst: int, ci: nat, src: int, len: int)
    requires Moves(b, n, p, b', ext, fi, dst, ci, src, len)
    ensures Jump(b, b', dst, src, len) && 0 < len
  {
    RunMoves(b, n, p, b', ext, fi, dst, ci, src, len);
    hide HeapOK, HoleFree;
  }

  lemma RunInside(b: Blocks, b': Blocks, dst: int, src: int, len: int)
    requires MovableRun(b, src, len) && RunMoved(b, b', dst, src, len)
    ensures forall x :: x in b && src <= x < src + len ==> x + b[x].size <= src + len
    ensures forall x :: InUse(b', x) && dst <= x < dst + len ==> x + b'[x].size <= dst + len
  {
    var d := src - dst;
    forall x | InUse(b', x) && dst <= x < dst + len ensures x + b'[x].size <= dst + len {
      assert InUse(b, Plus(x, d));
    }
  }

  /** What ends at a block that stays ended there before, unless the run now ends there. */
  lemma EndsBefore(b: Blocks, b': Blocks, dst: int, src: int, len: int, g: int)
    requires Jump(b, b', dst, src, len) && InUse(b, g) && EndsAt(b', g)
    requires !(src <= g < src + len) && g != dst + len
    ensures EndsAt(b, g)
  {
    RunInside(b, b', dst, src, len);
    hide MovableRun;
    var a :| InUse(b', a) && a + b'[a].size == g;
    assert InUse(b', g);
    assert !(dst <= a < dst + len);
    assert InUse(b, a) && b'[a] == b[a];
  }

  /** A gap stays one unless its block moves or its free block is filled up. */
  lemma GapStays(b: Blocks, b': Blocks, ext: seq<Extent>, dst: int, src: int, len: int, g: int)
    requires Jump(b, b', dst, src, len) && Gap(b, ext, g)
    requires !(src <= g < src + len) && g != dst + len
    ensures Gap(b', ext, g)
  {
    if EndsAt(b', g) {
      EndsBefore(b, b', dst, src, len, g);
    }
    hide MovableRun;
    assert InUse(b', g);
  }

  // ----- Blocks left behind across a move

  /** Unmovable blocks stay where they are. */
  lemma UnmovableStays(b: Blocks, b': Blocks, dst: int, src: int, len: int, u: int)
    requires MovableRun(b, src, len) && RunMoved(b, b', dst, src, len) && dst < src
    ensures InUse(b, u) && b[u].Unmovable() <==> InUse(b', u) && b'[u].Unmovable()
  {
    var d := src - dst;
    if InUse(b', u) && dst <= u < dst + len {
      assert InUse(b, Plus(u, d));
    }
  }

  lemma FilledStays(b: Blocks, b': Blocks, dst: int, src: int, len: int, ext: seq<Extent>, r: Region)
    requires MovableRun(b, src, len) && RunMoved(b, b', dst, src, len) && dst < src
    ensures FilledUp(b, ext, r) <==> FilledUp(b', ext, r)
  {
    hide RunMoved, MovableRun;
    UnmovableStays(b, b', dst, src, len, r.destination + Length(r));
  }

  lemma LeftStays(h0: Blocks, b: Blocks, b': Blocks, ext: seq<Extent>, log: seq<Region>, dst: Addr, src: Addr, len: int, g: int)
    requires MovableRun(b, src, len) && RunMoved(b, b', dst, src, len) && dst < src
    requires LeftBehind(h0, b, ext, log, g) && !(src <= g < src + len) && g != dst + len
    ensures LeftBehind(h0, b', ext, log + [RegionOf(dst, src, len)], g)
  {
    hide RunMoved, MovableRun, FilledUp, Movable;
    var log' := log + [RegionOf(dst, src, len)];
    var k :| LeftAt(b, ext, log, g, k);
    FilledStays(b, b', dst, src, len, ext, log[k]);
    assert LeftAt(b', ext, log', g, k);
  }

  lemma LeftBefore(h0: Blocks, b: Blocks, b': Blocks, ext: seq<Extent>, log: seq<Region>, dst: Addr, src: Addr, len: int, g: int)
    requires MovableRun(b, src, len) && RunMoved(b, b', dst, src, len) && dst < src
    requires LeftBehind(h0, b', ext, log + [RegionOf(dst, src, len)], g)
    ensures Movable(h0, g) && !(src <= g < src + len)
    ensures (g == src + len && FilledUp(b', ext, RegionOf(dst, src, len))) || (g != dst + len && LeftBehind(h0, b, ext, log, g))
  {
    hide RunMoved, MovableRun, FilledUp, Movable;
    var log' := log + [RegionOf(dst, src, len)];
    assert log'[|log|] == RegionOf(dst, src, len);
    assert Stayed(log, g) by {
      assert forall j :: 0 <= j < |log| ==> log'[j] == log[j];
    }
    var k :| LeftAt(b', ext, log', g, k);
    if k < |log| {
      FilledStays(b, b', dst, src, len, ext, log[k]);
      assert forall j :: k < j < |log| ==> log'[j] == log[j];
      assert LeftAt(b, ext, log, g, k);
    }
  }

  /** From the cursor on nothing has moved. */
  ghost predicate Ahead(h0: Blocks, b: Blocks, log: seq<Region>, cursor: int) {
    && (forall g :: cursor <= g ==> (Movable(b, g) <==> Movable(h0, g)))
    && (forall i :: 0 <= i < |log| ==> log[i].end <= cursor)
  }

  lemma TracksAhead(h0: Blocks, b: Blocks, org: map<int, Addr>, log: seq<Region>, k: nat, cursor: int)
    requires Tracks(h0, b, org, log, k, cursor) && Apart(h0)
    ensures Ahead(h0, b, log, cursor)
  {
    Untouched(h0, b, org, log, k, cursor);
    hide Lookup, RelocatedBlock, Images, WholeBlocks, Sorted, Downwards;
    forall g | cursor <= g ensures Movable(b, g) <==> Movable(h0, g) {
      if InUse(h0, g) {
        var a: Addr := g;
        assert InUse(b, a);
      }
    }
  }

  /** The hole that a run leaves behind an exact fit is not filled by anything else. */
  lemma LeavesGap(b: Blocks, b': Blocks, n': Links, p': Links, ext: seq<Extent>, dst: Addr, src: Addr, len: int)
    requires Jump(b, b', dst, src, len) && HeapOK(b', n', p', ext) && 0 < len
    requires Movable(b', src + len) && FilledUp(b', ext, RegionOf(dst, src, len))
    ensures Gap(b', ext, src + len)
  {
    hide HeapOK, MovableRun, RunMoved, Jump;
    var r := RegionOf(dst, src, len);
    var i :| 0 <= i < |ext| && ext[i].start <= r.destination && r.end <= ext[i].end;
    InnerAt(b', n', p', ext, i, src + len);
    NothingEndsBehind(b, b', dst, src, len);
  }

  lemma NothingEndsBehind(b: Blocks, b': Blocks, dst: int, src: int, len: int)
    requires Jump(b, b', dst, src, len) && 0 < len && dst + len < src + len
    ensures !EndsAt(b', src + len)
  {
    RunInside(b, b', dst, src, len);
    var last := TileAt(b, src, src + len, src + len - 1);
    hide MovableRun;
    forall a | InUse(b', a) ensures a + b'[a].size != src + len {
      if !(dst <= a < dst + len) {
        assert InUse(b, a) && b'[a] == b[a] && !(src <= a < src + len);
        assert a < last || last < a;
      }
    }
  }

  lemma InnerAt(b: Blocks, n: Links, p: Links, ext: seq<Extent>, i: nat, g: int)
    requires HeapOK(b, n, p, ext) && g in b && i < |ext| && ext[i].start < g <= ext[i].end
    ensures Inner(ext, g)
  {
    hide ClusterOK;
    assert Inside(ext, g);
    var j :| 0 <= j < |ext| && ext[j].start <= g < ext[j].end;
    assert forall x, y :: 0 <= x < y < |ext| ==> ext[x].end + 1 < ext[y].start;
  }

  // ----- How the walk of the compactor stands

  /** `next` is above `f` and no free block of the cluster lies in between. */
  ghost predicate Nearest(b: Blocks, x: Extent, f: int, next: int) {
    f < next <= x.end && forall y :: IsFree(b, y) && f < y < x.end ==> next <= y
  }

  /** Every gap below the source or the free block `f` is one that was left behind; of those above `f`
    * none is in the cluster of the source. */
  ghost predicate Tidy(h0: Blocks, b: Blocks, ext: seq<Extent>, log: seq<Region>, ci: nat, src: int, f: int) {
    && ci < |ext|
    && (forall g :: Gap(b, ext, g) && f < g < src ==> g < ext[ci].start)
    && (forall g :: Gap(b, ext, g) && (g < src || g <= f) ==> LeftBehind(h0, b, ext, log, g))
    && (forall g :: LeftBehind(h0, b, ext, log, g) ==> Gap(b, ext, g))
  }

  /** What a step of the walk tells about its run, its next source and its next free block. */
  ghost predicate Stride(b: Blocks, x: Extent, dst: int, src: int, len: int, src': int, next: int) {
    && src + len <= src' && (forall a :: a in b && src + len <= a < src' ==> b[a].Unmovable())
    && Nearest(b, x, dst, next)
    && (src + len <= next ==> IsFree(b, dst) && len == b[dst].size && dst + len < src)
  }

  /** The block behind the hole that a run leaves is left behind if the run filled its free block. */
  lemma NewlyLeft(h0: Blocks, b: Blocks, b': Blocks, ext: seq<Extent>, log: seq<Region>, fi: nat, dst: Addr, src: Addr, len: int)
    requires MovableRun(b, src, len) && RunMoved(b, b', dst, src, len) && dst < src
    requires Ahead(h0, b', log + [RegionOf(dst, src, len)], src + len) && Movable(b', src + len)
    requires InUse(b, dst + len) && b[dst + len].Unmovable() && dst + len < src
    requires fi < |ext| && ext[fi].start <= dst && src + len <= ext[fi].end
    ensures LeftBehind(h0, b', ext, log + [RegionOf(dst, src, len)], src + len)
  {
    var r, log' := RegionOf(dst, src, len), log + [RegionOf(dst, src, len)];
    UnmovableStays(b, b', dst, src, len, dst + len);
    hide MovableRun, RunMoved, Movable;
    assert FilledUp(b', ext, r);
    assert log'[|log|] == r;
    assert LeftAt(b', ext, log', src + len, |log|);
  }

  /** A gap right behind the run lies above the next source. */
  lemma NotSkipped(b: Blocks, b': Blocks, x: Extent, dst: int, src: int, len: int, src': int, next: int)
    requires MovableRun(b, src, len) && RunMoved(b, b', dst, src, len) && dst < src
    requires Stride(b, x, dst, src, len, src', next) && Movable(b', src + len)
    ensures src' == src + len
  {
    hide MovableRun;
    assert InUse(b, src + len) && b'[src + len] == b[src + len];
  }

  /** What stops a run that fills the free block exactly is unmovable. */
  lemma FillsExactly(h0: Blocks, b: Blocks, n: Links, p: Links, ext: seq<Extent>, log: seq<Region>,
                     fi: nat, dst: int, ci: nat, src: int, len: int, next: int)
    requires HeapOK(b, n, p, ext) && HoleFree(b) && fi < |ext| && ci < |ext|
    requires ext[fi].start <= dst < ext[fi].end && IsFree(b, dst) && ext[ci].start <= src < ext[ci].end && 0 < len
    requires Tidy(h0, b, ext, log, ci, src, dst) && Nearest(b, ext[fi], dst, next)
    requires src + len <= next && len == b[dst].size && dst + len < src
    ensures InUse(b, dst + len) && b[dst + len].Unmovable() && src + len <= ext[fi].end && fi == ci
  {
    hide LeftBehind, HeapOK, Gap, Apart, HoleFree;
    var u := dst + len;
    NextBoundary(b, n, p, ext, fi, dst);
    NotNext(b, n, p, ext, fi, dst);
    SameExtent(b, n, p, ext, fi, dst, ci, src);
    HeapApart(b, n, p, ext);
    BehindFree(b, ext, fi, dst);
  }

  lemma SameExtent(b: Blocks, n: Links, p: Links, ext: seq<Extent>, fi: nat, dst: int, ci: nat, src: int)
    requires HeapOK(b, n, p, ext) && fi < |ext| && ci < |ext|
    requires ext[fi].start <= dst < src < ext[fi].end && ext[ci].start <= src < ext[ci].end
    ensures fi == ci
  {
    hide ClusterOK;
    assert forall x, y :: 0 <= x < y < |ext| ==> ext[x].end + 1 < ext[y].start;
  }

  lemma BehindFree(b: Blocks, ext: seq<Extent>, i: nat, f: int)
    requires Apart(b) && i < |ext| && ext[i].start <= f && IsFree(b, f)
    requires f + b[f].size < ext[i].end && InUse(b, f + b[f].size)
    ensures Gap(b, ext, f + b[f].size) <==> !b[f + b[f].size].Unmovable()
  {
    var u := f + b[f].size;
    assert Inner(ext, u);
    forall a | InUse(b, a) ensures a + b[a].size != u {
      assert a < f || f < a;
    }
  }

  lemma NotNext(b: Blocks, n: Links, p: Links, ext: seq<Extent>, i: nat, f: int)
    requires HeapOK(b, n, p, ext) && HoleFree(b) && i < |ext| && ext[i].start <= f < ext[i].end && IsFree(b, f)
    ensures var u := f + b[f].size; u < ext[i].end ==> InUse(b, u)
  {
    hide HeapOK;
    NextBoundary(b, n, p, ext, i, f);
    var u := f + b[f].size;
    if u < ext[i].end && IsFree(b, u) {
      NoTwoFree(b, n, p, ext, i, f, u);
    }
  }

  lemma StepTidy(h0: Blocks, b: Blocks, n: Links, p: Links, b': Blocks, n': Links, p': Links, ext: seq<Extent>, log: seq<Region>,
                 fi: nat, dst: Addr, ci: nat, src: Addr, len: int, src': int, next: int)
    requires Moves(b, n, p, b', ext, fi, dst, ci, src, len) && HeapOK(b', n', p', ext)
    requires Ahead(h0, b', log + [RegionOf(dst, src, len)], src + len)
    requires Tidy(h0, b, ext, log, ci, src, dst) && Stride(b, ext[fi], dst, src, len, src', next)
    ensures Tidy(h0, b', ext, log + [RegionOf(dst, src, len)], ci, src', next)
  {
    hide HeapOK, Moves, MovableRun, RunMoved, Jump, Gap, LeftBehind, FilledUp, Stride, Apart;
    var log' := log + [RegionOf(dst, src, len)];
    RunMoves(b, n, p, b', ext, fi, dst, ci, src, len);
    MovesJump(b, n, p, b', ext, fi, dst, ci, src, len);
    forall g | LeftBehind(h0, b', ext, log', g) ensures Gap(b', ext, g) {
      LeftBefore(h0, b, b', ext, log, dst, src, len, g);
      if g == src + len && FilledUp(b', ext, RegionOf(dst, src, len)) {
        assert Movable(b', g);
        LeavesGap(b, b', n', p', ext, dst, src, len);
      } else {
        GapStays(b, b', ext, dst, src, len, g);
      }
    }
    GapsTidy(h0, b, n, p, b', ext, log, fi, dst, ci, src, len, src', next);
  }

  lemma GapsTidy(h0: Blocks, b: Blocks, n: Links, p: Links, b': Blocks, ext: seq<Extent>, log: seq<Region>,
                 fi: nat, dst: Addr, ci: nat, src: Addr, len: int, src': int, next: int)
    requires Moves(b, n, p, b', ext, fi, dst, ci, src, len)
    requires Ahead(h0, b', log + [RegionOf(dst, src, len)], src + len)
    requires Tidy(h0, b, ext, log, ci, src, dst) && Stride(b, ext[fi], dst, src, len, src', next)
    ensures forall g :: Gap(b', ext, g) && next < g < src' ==> g < ext[ci].start
    ensures forall g :: Gap(b', ext, g) && (g < src' || g <= next) ==>
      LeftBehind(h0, b', ext, log + [RegionOf(dst, src, len)], g)
  {
    hide HeapOK, Moves, MovableRun, RunMoved, Gap, LeftBehind, Stride, Apart, Ahead;
    var log' := log + [RegionOf(dst, src, len)];
    RunMoves(b, n, p, b', ext, fi, dst, ci, src, len);
    StrideUp(b, ext[fi], dst, src, len, src', next);
    forall g | Gap(b', ext, g) && next < g < src' ensures g < ext[ci].start {
      GapElsewhere(b, b', ext, fi, dst, src, len, src', next, g);
      GapBelow(b, n, p, b', ext, fi, dst, ci, src, len, src', next, g);
    }
    forall g | Gap(b', ext, g) && (g < src' || g <= next) ensures LeftBehind(h0, b', ext, log', g) {
      if g == src + len {
        GapBehindRun(h0, b, n, p, b', ext, log, fi, dst, ci, src, len, src', next);
      } else {
        GapBelow(b, n, p, b', ext, fi, dst, ci, src, len, src', next, g);
        LeftStays(h0, b, b', ext, log, dst, src, len, g);
      }
    }
  }

  lemma StrideUp(b: Blocks, x: Extent, dst: int, src: int, len: int, src': int, next: int)
    requires Stride(b, x, dst, src, len, src', next)
    ensures dst < next
  {
  }

  lemma GapElsewhere(b: Blocks, b': Blocks, ext: seq<Extent>, fi: nat, dst: int, src: int, len: int, src': int, next: int, g: int)
    requires MovableRun(b, src, len) && RunMoved(b, b', dst, src, len) && dst < src && fi < |ext|
    requires Stride(b, ext[fi], dst, src, len, src', next) && Gap(b', ext, g) && g < src'
    ensures g != src + len
  {
    hide MovableRun, RunMoved;
    if g == src + len {
      NotSkipped(b, b', ext[fi], dst, src, len, src', next);
    }
  }

  lemma GapBehindRun(h0: Blocks, b: Blocks, n: Links, p: Links, b': Blocks, ext: seq<Extent>, log: seq<Region>,
                     fi: nat, dst: Addr, ci: nat, src: Addr, len: int, src': int, next: int)
    requires Moves(b, n, p, b', ext, fi, dst, ci, src, len)
    requires Ahead(h0, b', log + [RegionOf(dst, src, len)], src + len)
    requires Tidy(h0, b, ext, log, ci, src, dst) && Stride(b, ext[fi], dst, src, len, src', next)
    requires Gap(b', ext, src + len) && (src + len < src' || src + len <= next)
    ensures LeftBehind(h0, b', ext, log + [RegionOf(dst, src, len)], src + len)
  {
    hide Tidy, LeftBehind, MovableRun, RunMoved, HeapOK, Ahead, Apart, HoleFree;
    RunMoves(b, n, p, b', ext, fi, dst, ci, src, len);
    SourceInside(b, n, p, b', ext, fi, dst, ci, src, len);
    NotSkipped(b, b', ext[fi], dst, src, len, src', next);
    FillsExactly(h0, b, n, p, ext, log, fi, dst, ci, src, len, next);
    NewlyLeft(h0, b, b', ext, log, fi, dst, src, len);
  }

  lemma SourceInside(b: Blocks, n: Links, p: Links, b': Blocks, ext: seq<Extent>, fi: nat, dst: int, ci: nat, src: int, len: int)
    requires Moves(b, n, p, b', ext, fi, dst, ci, src, len)
    ensures ext[ci].start <= src < ext[ci].end && 0 < len
  {
    hide HeapOK, RunMoved;
  }

  /** A gap above the run is above the next source and the next free block, too. */
  lemma FarGap(b: Blocks, n: Links, p: Links, ext: seq<Extent>, fi: nat, dst: int, src: int, len: int, src': int, next: int, g: int)
    requires HeapOK(b, n, p, ext) && HoleFree(b) && fi < |ext| && IsFree(b, dst) && dst + b[dst].size <= src && 0 < len
    requires Stride(b, ext[fi], dst, src, len, src', next) && Gap(b, ext, g) && src + len < g
    ensures src' <= g && next < g
  {
    var i, f := GapFree(b, n, p, ext, g);
    HeapApart(b, n, p, ext);
    hide HeapOK;
    assert dst < f;
  }

  /** An old gap below the new source or the new free block was below the old one. */
  lemma GapBelow(b: Blocks, n: Links, p: Links, b': Blocks, ext: seq<Extent>, fi: nat, dst: int, ci: nat, src: int, len: int,
                 src': int, next: int, g: int)
    requires Moves(b, n, p, b', ext, fi, dst, ci, src, len) && Stride(b, ext[fi], dst, src, len, src', next)
    requires Gap(b', ext, g) && (g < src' || g <= next) && g != src + len
    ensures Gap(b, ext, g) && !(src <= g < src + len) && g != dst + len && g < src
  {
    GapsAfter(b, n, p, b', ext, fi, dst, ci, src, len, g);
    RunMoves(b, n, p, b', ext, fi, dst, ci, src, len);
    hide HeapOK, Gap, MovableRun, RunMoved;
    if src + len < g {
      FarGap(b, n, p, ext, fi, dst, src, len, src', next, g);
    }
  }

  // ----- The other steps of the walk

  /** Going on over unmovable blocks. */
  lemma SkipTidy(h0: Blocks, b: Blocks, ext: seq<Extent>, log: seq<Region>, ci: nat, src: int, src': int, f: int)
    requires Tidy(h0, b, ext, log, ci, src, f) && src <= src'
    requires forall a :: a in b && src <= a < src' ==> b[a].Unmovable()
    ensures Tidy(h0, b, ext, log, ci, src', f)
  {
    hide LeftBehind;
  }

  /** Going on at the free block, which lies above the source. */
  lemma JumpTidy(h0: Blocks, b: Blocks, ext: seq<Extent>, log: seq<Region>, ci: nat, src: int, fi: nat, f: int)
    requires Tidy(h0, b, ext, log, ci, src, f) && src < f && fi < |ext|
    ensures Tidy(h0, b, ext, log, fi, f, f)
  {
    hide LeftBehind, Gap;
  }

  /** Giving up a free block that is too small for the block at the source. */
  lemma PassTidy(h0: Blocks, b: Blocks, n: Links, p: Links, ext: seq<Extent>, log: seq<Region>, ci: nat, src: int, fi: nat, f: int,
                 next: int)
    requires HeapOK(b, n, p, ext) && HoleFree(b) && fi < |ext| && ext[fi].start <= f < ext[fi].end && IsFree(b, f)
    requires Tidy(h0, b, ext, log, ci, src, f) && Nearest(b, ext[fi], f, next) && f + b[f].size < src
    ensures Tidy(h0, b, ext, log, ci, src, next)
  {
    hide HeapOK, HoleFree, LeftBehind, Gap;
    HeapApart(b, n, p, ext);
    forall g | Gap(b, ext, g) && g <= next ensures g < src || g <= f {
      var i, y := GapFree(b, n, p, ext, g);
      assert y < f || y == f || f < y;
    }
  }

  /** From cluster `start` on, `f` in cluster `fi` is the first free block. */
  ghost predicate FirstFree(b: Blocks, ext: seq<Extent>, start: nat, fi: nat, f: int) {
    forall i, a :: start <= i <= fi && i < |ext| && ext[i].start <= a < ext[i].end && IsFree(b, a) ==> i == fi && f <= a
  }

  /** The rest of the list is empty: on to the first free block of a later cluster. */
  lemma NextListTidy(h0: Blocks, b: Blocks, n: Links, p: Links, ext: seq<Extent>, log: seq<Region>, ci: nat, src: int, i: nat,
                     fi: nat, f: int)
    requires HeapOK(b, n, p, ext) && HoleFree(b) && i < fi <= |ext| && FirstFree(b, ext, i + 1, fi, f)
    requires Tidy(h0, b, ext, log, ci, src, ext[i].end) && (fi < |ext| ==> ext[fi].start <= f < ext[fi].end)
    ensures fi < |ext| ==> Tidy(h0, b, ext, log, ci, src, f)
    ensures fi == |ext| ==> Compacted(h0, b, ext, log)
  {
    hide HeapOK, HoleFree, LeftBehind, Gap;
    ClustersApart(b, n, p, ext);
    forall g | Gap(b, ext, g) && ext[i].end < g ensures fi < |ext| && f < g {
      var c, y := GapFree(b, n, p, ext, g);
      assert i < c;
      assert c <= fi ==> c == fi && f <= y;
    }
  }

  lemma ClustersApart(b: Blocks, n: Links, p: Links, ext: seq<Extent>)
    requires HeapOK(b, n, p, ext)
    ensures forall i, j :: 0 <= i < j < |ext| ==> ext[i].end < ext[j].start
    ensures forall i :: 0 <= i < |ext| ==> ext[i].start <= ext[i].end
  {
  }

  // ----- From cluster to cluster

  /** Every gap below the limit is one that was left behind. */
  ghost predicate TidyBelow(h0: Blocks, b: Blocks, ext: seq<Extent>, log: seq<Region>, limit: int) {
    && (forall g :: Gap(b, ext, g) && g < limit ==> LeftBehind(h0, b, ext, log, g))
    && (forall g :: LeftBehind(h0, b, ext, log, g) ==> Gap(b, ext, g))
  }

  lemma TidyStart(h0: Blocks, n: Links, p: Links, ext: seq<Extent>)
    requires HeapOK(h0, n, p, ext)
    ensures if ext == [] then Compacted(h0, h0, ext, []) else TidyBelow(h0, h0, ext, [], ext[0].start)
  {
    ClustersApart(h0, n, p, ext);
  }

  /** The first free block of all has nothing but blocks in use below it. */
  lemma FirstTidy(h0: Blocks, b: Blocks, n: Links, p: Links, ext: seq<Extent>, log: seq<Region>, limit: int, fi: nat, f: int)
    requires HeapOK(b, n, p, ext) && HoleFree(b) && fi <= |ext| && FirstFree(b, ext, 0, fi, f)
    requires TidyBelow(h0, b, ext, log, limit) && (fi < |ext| ==> ext[fi].start <= f < ext[fi].end)
    ensures fi < |ext| ==> TidyBelow(h0, b, ext, log, f + 1)
    ensures fi == |ext| ==> Compacted(h0, b, ext, log)
  {
    hide HeapOK, HoleFree, LeftBehind, Gap;
    ClustersApart(b, n, p, ext);
    forall g | Gap(b, ext, g) ensures fi < |ext| && f < g {
      var c, y := GapFree(b, n, p, ext, g);
      assert c <= fi ==> c == fi && f <= y;
    }
  }

  lemma EnterTidy(h0: Blocks, b: Blocks, ext: seq<Extent>, log: seq<Region>, ci: nat, f: int)
    requires ci < |ext| && TidyBelow(h0, b, ext, log, f + 1) && TidyBelow(h0, b, ext, log, ext[ci].start)
    ensures Tidy(h0, b, ext, log, ci, ext[ci].start, f)
  {
    hide LeftBehind, Gap;
  }

  lemma DoneTidy(h0: Blocks, b: Blocks, ext: seq<Extent>, log: seq<Region>, limit: int)
    requires Compacted(h0, b, ext, log)
    ensures TidyBelow(h0, b, ext, log, limit)
  {
    hide LeftBehind, Gap;
  }

  /** At the end of a cluster everything below the next one is done. */
  lemma ClusterTidy(h0: Blocks, b: Blocks, n: Links, p: Links, ext: seq<Extent>, log: seq<Region>, ci: nat, f: int)
    requires HeapOK(b, n, p, ext) && ci < |ext| && Tidy(h0, b, ext, log, ci, ext[ci].end, f)
    ensures TidyBelow(h0, b, ext, log, f + 1)
    ensures if ci + 1 < |ext| then TidyBelow(h0, b, ext, log, ext[ci + 1].start) else Compacted(h0, b, ext, log)
  {
    hide HeapOK, LeftBehind;
    ClustersApart(b, n, p, ext);
    forall g | Gap(b, ext, g) && (ci + 1 < |ext| ==> g < ext[ci + 1].start) ensures g < ext[ci].end {
      var i :| 0 <= i < |ext| && ext[i].start < g < ext[i].end;
      assert i <= ci;
    }
  }

  // ----- Rewriting pointers

  lemma ShapeGaps(b: Blocks, b': Blocks, ext: seq<Extent>)
    requires SameShape(b, b')
    ensures forall g :: Movable(b', g) <==> Movable(b, g)
    ensures forall g :: Gap(b', ext, g) <==> Gap(b, ext, g)
    ensures forall r :: FilledUp(b', ext, r) <==> FilledUp(b, ext, r)
  {
    assert forall a :: InUse(b, a) <==> InUse(b', a);
    forall g ensures EndsAt(b', g) <==> EndsAt(b, g) {
      if EndsAt(b', g) {
        var a :| InUse(b', a) && a + b'[a].size == g;
        assert InUse(b, a);
      }
      if EndsAt(b, g) {
        var a :| InUse(b, a) && a + b[a].size == g;
        assert InUse(b', a);
      }
    }
  }

  lemma ShapeLeft(h0: Blocks, b: Blocks, b': Blocks, ext: seq<Extent>, log: seq<Region>, g: int)
    requires SameShape(b, b')
    ensures LeftBehind(h0, b', ext, log, g) <==> LeftBehind(h0, b, ext, log, g)
  {
    ShapeGaps(b, b', ext);
    hide FilledUp, SameShape, Movable;
    if LeftBehind(h0, b', ext, log, g) {
      var k :| LeftAt(b', ext, log, g, k);
      assert LeftAt(b, ext, log, g, k);
    }
    if LeftBehind(h0, b, ext, log, g) {
      var k :| LeftAt(b, ext, log, g, k);
      assert LeftAt(b', ext, log, g, k);
    }
  }

  lemma ShapeTidy(h0: Blocks, b: Blocks, b': Blocks, ext: seq<Extent>, log: seq<Region>, ci: nat, src: int, f: int)
    requires SameShape(b, b')
    ensures Tidy(h0, b, ext, log, ci, src, f) ==> Tidy(h0, b', ext, log, ci, src, f)
    ensures Compacted(h0, b, ext, log) ==> Compacted(h0, b', ext, log)
  {
    ShapeGaps(b, b', ext);
    hide LeftBehind, Gap, SameShape;
    forall g ensures LeftBehind(h0, b', ext, log, g) <==> LeftBehind(h0, b, ext, log, g) {
      ShapeLeft(h0, b, b', ext, log, g);
    }
  }

  // ----- An exact fit

  ghost predicate OnlyFree(b: Blocks, f: int) {
    forall y :: IsFree(b, y) ==> y == f
  }

  /** A heap of one cluster with one free block, and the first movable block above it fits exactly but
    * does not touch it. */
  ghost predicate OneFit(b: Blocks, ext: seq<Extent>, f: int, m: int) {
    && |ext| == 1 && IsFree(b, f) && OnlyFree(b, f)
    && f < m && Movable(b, m) && (forall a :: a in b && f < a < m ==> b[a].Unmovable())
    && b[m].size == b[f].size && f + b[f].size != m
  }

  /** In such a heap, that block is all that moves. */
  ghost predicate MovesFit(h0: Blocks, ext: seq<Extent>, log: seq<Region>) {
    forall f: Addr, m: Addr :: OneFit(h0, ext, f, m) ==> log == [RegionOf(f, m, h0[m].size)]
  }

  ghost predicate AwaitsFit(h0: Blocks, b: Blocks, ext: seq<Extent>, log: seq<Region>, src: int) {
    forall f, m :: OneFit(h0, ext, f, m) ==> log == [] && b == h0 && src <= m
  }

  ghost predicate AtFit(h0: Blocks, b: Blocks, ext: seq<Extent>, log: seq<Region>, free: int, src: int) {
    forall f, m :: OneFit(h0, ext, f, m) ==> log == [] && b == h0 && free == f && src == m
  }

  /** A block that fits exactly is moved alone; with no other free block that ends the list. */
  ghost predicate FitStep(b: Blocks, ext: seq<Extent>, log: seq<Region>, log': seq<Region>, fi: nat, free: int, ci: nat, src: int,
                          next: int)
  {
    free in b && src in b && b[src].size == b[free].size && free + b[free].size != src ==>
      && 0 <= free < ADDRESS_SPACE && 0 <= src < ADDRESS_SPACE && log' == log + [RegionOf(free, src, b[free].size)]
      && (fi == ci < |ext| && OnlyFree(b, free) ==> next == ext[fi].end)
  }

  lemma NothingFits(h0: Blocks, n: Links, p: Links, ext: seq<Extent>, log: seq<Region>, fi: nat, f: int)
    requires FirstFree(h0, ext, 0, fi, f) && HeapOK(h0, n, p, ext)
    ensures fi == |ext| ==> MovesFit(h0, ext, log)
  {
    hide ClusterOK;
    forall y, m | OneFit(h0, ext, y, m) ensures fi != |ext| {
      assert Inside(ext, y);
    }
  }

  lemma ManyClusters(h0: Blocks, ext: seq<Extent>, log: seq<Region>)
    requires |ext| != 1
    ensures MovesFit(h0, ext, log)
  {
  }

  lemma FitAhead(h0: Blocks, b: Blocks, n: Links, p: Links, ext: seq<Extent>, log: seq<Region>, ci: nat)
    requires HeapOK(b, n, p, ext) && ci < |ext|
    ensures log == [] && b == h0 ==> AwaitsFit(h0, b, ext, log, ext[ci].start)
  {
    hide ClusterOK;
    forall f, m | OneFit(h0, ext, f, m) && b == h0 ensures ext[ci].start <= m {
      assert Inside(ext, m);
    }
  }

  lemma FitReached(h0: Blocks, b: Blocks, b': Blocks, n: Links, p: Links, ext: seq<Extent>, log: seq<Region>, free: int,
                   from: int, ci: nat, src: int, found: bool)
    requires HeapOK(b', n, p, ext) && ci < |ext| && AwaitsFit(h0, b, ext, log, from) && (log == [] ==> b' == b)
    requires IsFree(b, free) && forall a :: a in b && from <= a < src && free <= a ==> b[a].Unmovable()
    requires if found then src in b' && !b'[src].Unmovable() && free < src else src == ext[ci].end
    ensures AtFit(h0, b', ext, log, free, src)
    ensures !found ==> MovesFit(h0, ext, log)
  {
    hide ClusterOK;
    forall f, m | OneFit(h0, ext, f, m) ensures found && log == [] && b' == h0 && free == f && src == m {
      assert src <= m;
      assert Inside(ext, m);
    }
  }

  lemma FitMoved(h0: Blocks, b: Blocks, b': Blocks, ext: seq<Extent>, log: seq<Region>, log': seq<Region>, fi: nat, free: int,
                 ci: nat, src: int, src': int, next: int)
    requires AtFit(h0, b, ext, log, free, src) && fi < |ext| && ci < |ext|
    requires FitStep(b, ext, log, log', fi, free, ci, src, next)
    ensures MovesFit(h0, ext, log')
    ensures next != ext[fi].end || fi + 1 < |ext| ==> AwaitsFit(h0, b', ext, log', src')
  {
  }

  // ----- What a compaction achieves

  /** A free block is followed by a movable block exactly if that block was left behind. */
  ghost predicate FreeInFront(h0: Blocks, b: Blocks, ext: seq<Extent>, log: seq<Region>) {
    forall f :: IsFree(b, f) ==>
      (Movable(b, f + b[f].size) <==> LeftBehind(h0, b, ext, log, f + b[f].size))
  }

  lemma CompactedFree(h0: Blocks, b: Blocks, n: Links, p: Links, ext: seq<Extent>, log: seq<Region>)
    requires HeapOK(b, n, p, ext) && HoleFree(b) && Compacted(h0, b, ext, log)
    ensures FreeInFront(h0, b, ext, log)
  {
    hide HeapOK, HoleFree, LeftBehind, Gap;
    HeapApart(b, n, p, ext);
    forall f | IsFree(b, f) ensures Movable(b, f + b[f].size) <==> LeftBehind(h0, b, ext, log, f + b[f].size) {
      var i := ClusterOf(b, n, p, ext, f);
      NextBoundary(b, n, p, ext, i, f);
      FollowsFree(b, n, p, ext, i, f);
    }
  }

  lemma ClusterOf(b: Blocks, n: Links, p: Links, ext: seq<Extent>, a: int) returns (i: nat)
    requires HeapOK(b, n, p, ext) && a in b
    ensures i < |ext| && ext[i].start <= a < ext[i].end
  {
    hide ClusterOK;
    assert Inside(ext, a);
    i :| 0 <= i < |ext| && ext[i].start <= a < ext[i].end;
  }

  lemma GapMovable(b: Blocks, ext: seq<Extent>, g: int)
    ensures Gap(b, ext, g) ==> Movable(b, g)
  {
  }

  lemma FollowsFree(b: Blocks, n: Links, p: Links, ext: seq<Extent>, i: nat, f: int)
    requires HeapOK(b, n, p, ext) && Apart(b) && i < |ext| && ext[i].start <= f < ext[i].end && IsFree(b, f)
    ensures Movable(b, f + b[f].size) <==> Gap(b, ext, f + b[f].size)
  {
    hide HeapOK, Gap, Apart;
    var u := f + b[f].size;
    GapMovable(b, ext, u);
    if Movable(b, u) {
      NextInside(b, n, p, ext, i, f);
      BehindFree(b, ext, i, f);
    }
  }

  lemma NextInside(b: Blocks, n: Links, p: Links, ext: seq<Extent>, i: nat, f: int)
    requires HeapOK(b, n, p, ext) && i < |ext| && ext[i].start <= f < ext[i].end && f in b && f + b[f].size in b
    ensures f + b[f].size < ext[i].end
  {
    hide HeapOK;
    var u := f + b[f].size;
    NextBoundary(b, n, p, ext, i, f);
    var c := ClusterOf(b, n, p, ext, u);
    ClustersApart(b, n, p, ext);
    assert i <= c;
  }

  /** No block in use of the cluster is pinned or an event block. */
  ghost predicate AllMovable(b: Blocks, x: Extent) {
    forall a :: InUse(b, a) && x.start <= a < x.end ==> !b[a].Unmovable()
  }

  /** All free space of such a cluster ends up in one block at its end. */
  ghost predicate FreeAtEnd(b: Blocks, x: Extent) {
    forall f :: IsFree(b, f) && x.start <= f < x.end ==> f + b[f].size == x.end
  }

  lemma MovableClusters(h0: Blocks, roots0: seq<Addr>, b: Blocks, n: Links, p: Links, roots: seq<Addr>, ext: seq<Extent>,
                        log: seq<Region>, i: nat)
    requires GraphPreserved(h0, roots0, b, roots, log) && HeapOK(b, n, p, ext) && HoleFree(b) && Compacted(h0, b, ext, log)
    requires i < |ext| && AllMovable(h0, ext[i])
    ensures FreeAtEnd(b, ext[i])
  {
    hide HeapOK, HoleFree, LeftBehind, Gap, GraphPreserved, AllMovable;
    HeapApart(b, n, p, ext);
    forall f | IsFree(b, f) && ext[i].start <= f < ext[i].end ensures f + b[f].size == ext[i].end {
      var u := f + b[f].size;
      NextBoundary(b, n, p, ext, i, f);
      if u != ext[i].end {
        NotNext(b, n, p, ext, i, f);
        StaysMovable(h0, roots0, b, roots, log, ext[i], u);
        FollowsFree(b, n, p, ext, i, f);
        if Gap(b, ext, u) {
          LeftHasBlocker(h0, roots0, b, n, p, roots, ext, log, i, u);
        }
      }
    }
  }

  lemma LogSorted(h0: Blocks, roots0: seq<Addr>, b: Blocks, roots: seq<Addr>, log: seq<Region>)
    requires GraphPreserved(h0, roots0, b, roots, log)
    ensures forall k :: 0 <= k < |log| ==> log[k].start < log[k].end
  {
  }

  /** Unmovable blocks were there before. */
  lemma UnmovableWas(h0: Blocks, roots0: seq<Addr>, b: Blocks, roots: seq<Addr>, log: seq<Region>, u: int)
    requires GraphPreserved(h0, roots0, b, roots, log) && InUse(b, u) && b[u].Unmovable()
    ensures InUse(h0, u) && h0[u].Unmovable()
  {
    var a: Addr :| InUse(h0, a) && Lookup(log, a) == u;
    assert b[Lookup(log, a)] == RelocatedBlock(h0[a], log);
  }

  lemma StaysMovable(h0: Blocks, roots0: seq<Addr>, b: Blocks, roots: seq<Addr>, log: seq<Region>, x: Extent, u: int)
    requires GraphPreserved(h0, roots0, b, roots, log) && AllMovable(h0, x) && InUse(b, u) && x.start <= u < x.end
    ensures Movable(b, u)
  {
    hide GraphPreserved;
    if b[u].Unmovable() {
      UnmovableWas(h0, roots0, b, roots, log, u);
    }
  }

  /** A block left behind has an unmovable block in its cluster. */
  lemma LeftHasBlocker(h0: Blocks, roots0: seq<Addr>, b: Blocks, n: Links, p: Links, roots: seq<Addr>, ext: seq<Extent>,
                       log: seq<Region>, i: nat, g: int)
    requires GraphPreserved(h0, roots0, b, roots, log) && HeapOK(b, n, p, ext) && i < |ext|
    requires ext[i].start <= g < ext[i].end && LeftBehind(h0, b, ext, log, g)
    ensures !AllMovable(h0, ext[i])
  {
    hide GraphPreserved, HeapOK, Movable;
    ClustersApart(b, n, p, ext);
    LogSorted(h0, roots0, b, roots, log);
    var k :| LeftAt(b, ext, log, g, k);
    var u := log[k].destination + Length(log[k]);
    UnmovableWas(h0, roots0, b, roots, log, u);
    var j :| 0 <= j < |ext| && ext[j].start <= log[k].destination && log[k].end <= ext[j].end;
    assert i == j;
  }

  /** The family of heaps where free space stays in front of a movable block: the block that fits
    * exactly leaves its place to nobody, and the block behind it, if it can move at all, stays. */
  lemma ExactFitLeaves(h0: Blocks, roots0: seq<Addr>, b: Blocks, roots: seq<Addr>, ext: seq<Extent>, log: seq<Region>,
                       f: Addr, m: Addr)
    requires OneFit(h0, ext, f, m) && Apart(h0) && Tiled(h0, ext[0].start, ext[0].end) && ext[0].start <= f && m < ext[0].end
    requires GraphPreserved(h0, roots0, b, roots, log) && Compacted(h0, b, ext, log) && MovesFit(h0, ext, log)
    requires HoleFree(h0)
    ensures forall g :: Gap(b, ext, g) <==> g == m + h0[m].size && Movable(h0, g)
  {
    hide GraphPreserved, Movable, OneFit, Gap, Tiled;
    var u := FitBlocker(h0, ext, f, m);
    var r := RegionOf(f, m, h0[m].size);
    assert log == [r];
    UnmovableIs(h0, roots0, b, roots, log, u);
    assert FilledUp(b, ext, r);
    hide FilledUp;
    forall g ensures LeftBehind(h0, b, ext, log, g) <==> g == m + h0[m].size && Movable(h0, g) {
      if g == m + h0[m].size {
        assert LeftAt(b, ext, log, g, 0);
      }
    }
  }

  lemma FitBlocker(h0: Blocks, ext: seq<Extent>, f: Addr, m: Addr) returns (u: Addr)
    requires OneFit(h0, ext, f, m) && Apart(h0) && Tiled(h0, ext[0].start, ext[0].end) && ext[0].start <= f && m < ext[0].end
    requires HoleFree(h0)
    ensures |ext| == 1 && IsFree(h0, f) && InUse(h0, m) && u == f + h0[f].size && h0[m].size == h0[f].size
    ensures InUse(h0, u) && h0[u].Unmovable() && f < u < m && m + h0[m].size <= ext[0].end
  {
    assert End(h0, f) in h0 && End(h0, m) <= ext[0].end;
    hide Tiled;
    u := f + h0[f].size;
    assert !IsFree(h0, u);
  }

  lemma UnmovableIs(h0: Blocks, roots0: seq<Addr>, b: Blocks, roots: seq<Addr>, log: seq<Region>, u: Addr)
    requires GraphPreserved(h0, roots0, b, roots, log) && InUse(h0, u) && h0[u].Unmovable()
    ensures InUse(b, u) && b[u].Unmovable()
  {
    assert Lookup(log, u) == u;
  }
}
