/** The managed heap as data: block headers, their slots, and the invariants that the cluster,
  * collector and compactor modules share.
  *
  * A cluster owns the addresses `s .. e`.  The two list heads of its free list live in the
  * cluster header; they are given the addresses just outside the payload, `s - 1` for the head
  * and `e` for the tail.  Addresses and sizes are counted in the same unit.
  */
module HeapModel {

  /** A 32-bit address. */
  type Addr = a: int | 0 <= a < 0x1_0000_0000 witness 0

  const NULL: Addr := 0
  const ADDRESS_SPACE := 0x1_0000_0000

  /** One slot of a block: a pointer, or plain data the collector never looks at. */
  datatype Cell = Ref(addr: Addr) | Data(value: int)

  /** The data types the memory manager tells apart.
    * `Hole` marks a stretch that was unlinked from the free list and not inserted again yet. */
  datatype Kind =
    | FreeBlock
    | Hole
    | CachedBlock
    | Instance                      // DATATYPE_CLASS, DATATYPE_VALUETYPE: all slots are traced
    | RefArray                      // DATATYPE_SZARRAY of references: all slots are traced
    | Delegate                      // one traced slot, the target object
    | DelegateList(weak: bool)      // traced only when not weak
    | WeakReference(extended: bool, restored: bool)   // slot 0: target, slot 1: serialized copy; never traced
    | Plain                         // strings, numeric arrays, reflection data, event records

  /** A block header together with the slots that follow it. */
  datatype Block = Block(size: int, kind: Kind, alive: bool, event: bool, pinned: bool, cells: seq<Cell>)
  {
    predicate Unmovable() {
      pinned || event
    }

    predicate Occupied() {
      !kind.FreeBlock? && !kind.Hole?
    }
  }

  type Blocks = map<int, Block>
  type Links = map<int, int>

  function FreeHeader(size: int): Block {
    Block(size, FreeBlock, false, false, true, [])
  }

  function HoleHeader(size: int): Block {
    Block(size, Hole, false, false, true, [])
  }

  predicate IsFree(b: Blocks, a: int) {
    a in b && b[a].kind.FreeBlock?
  }

  /** A block that holds something: neither on the free list nor a hole. */
  predicate InUse(b: Blocks, a: int) {
    a in b && b[a].Occupied()
  }

  /** The address just past block `a`. */
  function End(b: Blocks, a: int): int
    requires a in b
  {
    a + b[a].size
  }

  /** Blocks lie end to end from `s` to `e`. */
  ghost predicate Tiled(b: Blocks, s: int, e: int) {
    && s <= e
    && (s < e ==> s in b)
    && (forall a :: a in b && s <= a < e ==> b[a].size > 0 && a + b[a].size <= e)
    && (forall a {:trigger End(b, a)} :: a in b && s <= a < e ==> End(b, a) == e || End(b, a) in b)
    && (forall a, x {:trigger End(b, a), x in b} :: a in b && x in b && s <= a < x < e ==> End(b, a) <= x)
  }

  /** No free block is followed by another one. */
  ghost predicate Coalesced(b: Blocks, s: int, e: int) {
    forall a, x :: s <= a < x < e && IsFree(b, a) && IsFree(b, x) ==> a + b[a].size < x
  }

  /** Free headers carry the pinned flag only, so that the compactor skips them. */
  ghost predicate FreeHeaders(b: Blocks, s: int, e: int) {
    forall a :: a in b && s <= a < e ==>
      && (b[a].kind.FreeBlock? ==> b[a] == FreeHeader(b[a].size))
      && (b[a].kind.Hole? ==> b[a] == HoleHeader(b[a].size))
  }

  /** The headers of a cluster are in order. */
  ghost predicate BlocksOK(b: Blocks, s: int, e: int) {
    Tiled(b, s, e) && Coalesced(b, s, e) && FreeHeaders(b, s, e)
  }

  /** The addresses of the free blocks of one cluster. */
  ghost function FreeSet(b: Blocks, s: int, e: int): set<int> {
    set a | a in b && s <= a < e && b[a].kind.FreeBlock?
  }

  /** `x` has a successor: it is the list head or a member. */
  predicate HasNext(f: set<int>, s: int, x: int) {
    x == s - 1 || x in f
  }

  /** `x` has a predecessor: it is the list tail or a member. */
  predicate HasPrev(f: set<int>, e: int, x: int) {
    x == e || x in f
  }

  /** The list links exactly the members of `f`, in ascending address order, and the backward
    * links mirror the forward ones: the successor of a node is the nearest member above it. */
  ghost predicate ListOK(f: set<int>, next: Links, prev: Links, s: int, e: int) {
    && (forall x :: x in f ==> s <= x < e)
    && (forall x :: HasNext(f, s, x) ==> x in next && x < next[x] && HasPrev(f, e, next[x]))
    && (forall x :: HasNext(f, s, x) ==> next[x] in prev && prev[next[x]] == x)
    && (forall y :: HasPrev(f, e, y) ==> y in prev && prev[y] < y && HasNext(f, s, prev[y]))
    && (forall y :: HasPrev(f, e, y) ==> prev[y] in next && next[prev[y]] == y)
    && (forall x, y :: HasNext(f, s, x) && HasPrev(f, e, y) && x < y ==> next[x] <= y)
  }

  /** What every cluster operation relies on and restores; holes are allowed. */
  ghost predicate ClusterOK(b: Blocks, next: Links, prev: Links, s: int, e: int) {
    && 0 < s <= e < 0x1_0000_0000
    && e - s <= 0xFFFF                    // a block size fits its 16-bit header field
    && BlocksOK(b, s, e)
    && ListOK(FreeSet(b, s, e), next, prev, s, e)
  }

  ghost predicate NoHoles(b: Blocks, s: int, e: int) {
    forall a :: a in b && s <= a < e ==> !b[a].kind.Hole?
  }

  /** Two memories agree on every header outside a payload. */
  ghost predicate SameBlocksOutside(b: Blocks, b': Blocks, s: int, e: int) {
    && (forall a :: a < s || a >= e ==> (a in b <==> a in b'))
    && (forall a :: (a < s || a >= e) && a in b && a in b' ==> b[a] == b'[a])
  }

  /** Two memories agree on every link outside a payload and its list heads. */
  ghost predicate SameLinksOutside(n: Links, n': Links, s: int, e: int) {
    && (forall a :: a < s - 1 || a > e ==> (a in n <==> a in n'))
    && (forall a :: (a < s - 1 || a > e) && a in n && a in n' ==> n[a] == n'[a])
  }

  /** Two memories agree on everything outside the payload and list heads of one cluster. */
  ghost predicate SameOutside(b: Blocks, n: Links, p: Links, b': Blocks, n': Links, p': Links, s: int, e: int) {
    SameBlocksOutside(b, b', s, e) && SameLinksOutside(n, n', s, e) && SameLinksOutside(p, p', s, e)
  }

  /** The contents of one cluster: every block in use, by address. */
  ghost function Contents(b: Blocks, s: int, e: int): Blocks {
    map a | a in b && s <= a < e && InUse(b, a) :: b[a]
  }

  // ----- Tilings

  lemma TiledSplit(b: Blocks, s: int, m: int, e: int)
    requires Tiled(b, s, e) && m in b && s <= m < e
    ensures Tiled(b, s, m) && Tiled(b, m, e)
  {
    assert forall a :: a in b && s <= a < m ==> End(b, a) <= m;
  }

  lemma TiledJoin(b: Blocks, s: int, m: int, e: int)
    requires Tiled(b, s, m) && Tiled(b, m, e)
    ensures Tiled(b, s, e)
  {
  }

  /** Every address of a tiled range lies in exactly one block. */
  lemma {:induction false} TileAt(b: Blocks, s: int, e: int, x: int) returns (a: int)
    requires Tiled(b, s, e) && s <= x < e
    ensures a in b && s <= a <= x < a + b[a].size
    ensures forall a' :: a' in b && s <= a' < e && a' <= x < a' + b[a'].size ==> a' == a
    decreases e - s
  {
    if x < End(b, s) {
      a := s;
    } else {
      var m := End(b, s);
      TiledSplit(b, s, m, e);
      a := TileAt(b, m, e, x);
    }
  }

  /** The blocks in use determine the whole layout of a cluster: with no two free blocks
    * touching and no holes there is exactly one way to fill the gaps. */
  lemma CanonicalLayout(b: Blocks, b': Blocks, s: int, e: int)
    requires Tiled(b, s, e) && Coalesced(b, s, e) && FreeHeaders(b, s, e) && NoHoles(b, s, e)
    requires Tiled(b', s, e) && Coalesced(b', s, e) && FreeHeaders(b', s, e) && NoHoles(b', s, e)
    requires Contents(b, s, e) == Contents(b', s, e)
    ensures forall a :: s <= a < e ==> (a in b <==> a in b')
    ensures forall a :: s <= a < e && a in b ==> b[a] == b'[a]
  {
    if s < e {
      CanonicalFrom(b, b', s, e, s);
    }
  }

  lemma {:induction false} CanonicalFrom(b: Blocks, b': Blocks, s: int, e: int, m: int)
    requires Tiled(b, s, e) && Coalesced(b, s, e) && FreeHeaders(b, s, e) && NoHoles(b, s, e)
    requires Tiled(b', s, e) && Coalesced(b', s, e) && FreeHeaders(b', s, e) && NoHoles(b', s, e)
    requires Contents(b, s, e) == Contents(b', s, e)
    requires s <= m < e && m in b && m in b'
    ensures forall a :: m <= a < e ==> (a in b <==> a in b')
    ensures forall a :: m <= a < e && a in b ==> b[a] == b'[a]
    decreases e - m
  {
    SameBlockAt(b, b', s, e, m);
    var m' := End(b, m);
    assert End(b', m) == m';
    if m' < e {
      CanonicalFrom(b, b', s, e, m');
    }
  }

  lemma SameBlockAt(b: Blocks, b': Blocks, s: int, e: int, m: int)
    requires Tiled(b, s, e) && Coalesced(b, s, e) && FreeHeaders(b, s, e) && NoHoles(b, s, e)
    requires Tiled(b', s, e) && Coalesced(b', s, e) && FreeHeaders(b', s, e) && NoHoles(b', s, e)
    requires Contents(b, s, e) == Contents(b', s, e)
    requires s <= m < e && m in b && m in b'
    ensures b[m] == b'[m]
  {
    if InUse(b, m) || InUse(b', m) {
      assert m in Contents(b, s, e) <==> InUse(b, m);
      assert m in Contents(b', s, e) <==> InUse(b', m);
      assert Contents(b, s, e)[m] == Contents(b', s, e)[m];
    } else {
      NotShorter(b, b', s, e, m);
      NotShorter(b', b, s, e, m);
    }
  }

  lemma NotShorter(b: Blocks, b': Blocks, s: int, e: int, m: int)
    requires Tiled(b, s, e) && Coalesced(b, s, e) && NoHoles(b, s, e)
    requires Tiled(b', s, e)
    requires Contents(b, s, e) == Contents(b', s, e)
    requires s <= m < e && IsFree(b, m) && m in b'
    ensures b[m].size >= b'[m].size
  {
    var q := End(b, m);
    assert m < e && End(b', m) <= e;
    if q < e {
      assert q in b && !IsFree(b, q);
      assert q in Contents(b, s, e);
      assert q in Contents(b', s, e);
    }
  }

  // ----- Sizes

  /** Total size of the blocks from `m` on that satisfy "in use" (or the opposite). */
  ghost function SizeFrom(b: Blocks, m: int, e: int, used: bool): int
    requires Tiled(b, m, e)
    decreases e - m
  {
    if m >= e then 0
    else
      var q := End(b, m);
      assert Tiled(b, q, e);
      (if InUse(b, m) == used then b[m].size else 0) + SizeFrom(b, q, e, used)
  }

  /** Nothing is lost: used and unused blocks together fill the payload. */
  lemma {:induction false} SizesAddUp(b: Blocks, m: int, e: int)
    requires Tiled(b, m, e)
    ensures SizeFrom(b, m, e, true) + SizeFrom(b, m, e, false) == e - m
    ensures SizeFrom(b, m, e, true) >= 0 && SizeFrom(b, m, e, false) >= 0
    decreases e - m
  {
    if m < e {
      SizesAddUp(b, End(b, m), e);
    }
  }

  // ----- Frames

  /** A cluster's invariant only depends on its own payload and list heads. */
  lemma ClusterFrame(b: Blocks, n: Links, p: Links, b': Blocks, n': Links, p': Links,
                     s: int, e: int, s': int, e': int)
    requires ClusterOK(b, n, p, s, e)
    requires SameOutside(b, n, p, b', n', p', s', e')
    requires e < s' - 1 || e' < s - 1
    ensures ClusterOK(b', n', p', s, e)
    ensures forall a :: s <= a < e ==> (a in b <==> a in b')
    ensures forall a :: s <= a < e && a in b ==> b[a] == b'[a]
  {
    assert forall a :: s <= a < e ==> (a in b <==> a in b');
    assert forall a :: s <= a < e && a in b ==> b[a] == b'[a];
    WithinFrame(b, b', s, e);
    ListFrame(FreeSet(b, s, e), n, p, n', p', s, e);
  }

  /** Only the links of the list's own nodes matter. */
  lemma ListFrame(f: set<int>, n: Links, p: Links, n': Links, p': Links, s: int, e: int)
    requires ListOK(f, n, p, s, e)
    requires forall x :: s - 1 <= x < e && x in n ==> x in n' && n'[x] == n[x]
    requires forall x :: s <= x <= e && x in p ==> x in p' && p'[x] == p[x]
    ensures ListOK(f, n', p', s, e)
  {
    assert forall x :: HasNext(f, s, x) ==> x in n' && n'[x] == n[x];
    assert forall x :: HasPrev(f, e, x) ==> x in p' && p'[x] == p[x];
  }

  /** Two memories agree on every header of a range. */
  ghost predicate SameWithin(b: Blocks, b': Blocks, s: int, e: int) {
    && (forall a :: s <= a < e ==> (a in b <==> a in b'))
    && (forall a :: s <= a < e && a in b && a in b' ==> b[a] == b'[a])
  }

  lemma TiledFrame(b: Blocks, b': Blocks, s: int, e: int)
    requires SameWithin(b, b', s, e) && Tiled(b, s, e)
    ensures Tiled(b', s, e)
  {
    assert forall a :: a in b && a in b' && s <= a < e ==> End(b, a) == End(b', a);
  }

  lemma WithinFrame(b: Blocks, b': Blocks, s: int, e: int)
    requires SameWithin(b, b', s, e) && BlocksOK(b, s, e)
    ensures BlocksOK(b', s, e)
    ensures NoHoles(b, s, e) ==> NoHoles(b', s, e)
    ensures FreeSet(b', s, e) == FreeSet(b, s, e)
    ensures Contents(b', s, e) == Contents(b, s, e)
  {
    TiledFrame(b, b', s, e);
    assert forall a :: s <= a < e ==> (IsFree(b, a) <==> IsFree(b', a));
  }

  /** Appending a header to a range. */
  lemma TiledPush(b: Blocks, s: int, m: int, h: Block)
    requires Tiled(b, s, m) && 0 < h.size
    requires forall a :: m <= a < m + h.size ==> a !in b
    ensures Tiled(b[m := h], s, m + h.size)
  {
    var b' := b[m := h];
    assert End(b', m) == m + h.size;
    assert forall x :: x in b && s <= x < m ==> End(b', x) == End(b, x);
  }

  /** What appending the header `h` at `m` does to a range that ended there. */
  lemma PushOccupied(b: Blocks, s: int, m: int, h: Block)
    requires BlocksOK(b, s, m) && NoHoles(b, s, m) && 0 < h.size && h.Occupied()
    requires forall a :: m <= a < m + h.size ==> a !in b
    ensures BlocksOK(b[m := h], s, m + h.size) && NoHoles(b[m := h], s, m + h.size)
    ensures FreeSet(b[m := h], s, m + h.size) == FreeSet(b, s, m)
    ensures Contents(b[m := h], s, m + h.size) == Contents(b, s, m)[m := h]
  {
    TiledPush(b, s, m, h);
    PushCoalesced(b, s, m, h);
    PushHeaders(b, s, m, h);
    assert !h.kind.FreeBlock?;
  }

  lemma PushFree(b: Blocks, s: int, m: int, size: int)
    requires BlocksOK(b, s, m) && NoHoles(b, s, m) && 0 < size
    requires forall a :: m <= a < m + size ==> a !in b
    requires forall a :: a in FreeSet(b, s, m) ==> a + b[a].size < m
    ensures var b' := b[m := FreeHeader(size)];
      && BlocksOK(b', s, m + size) && NoHoles(b', s, m + size)
      && FreeSet(b', s, m + size) == FreeSet(b, s, m) + {m}
      && Contents(b', s, m + size) == Contents(b, s, m)
  {
    TiledPush(b, s, m, FreeHeader(size));
    PushCoalesced(b, s, m, FreeHeader(size));
    PushHeaders(b, s, m, FreeHeader(size));
  }

  lemma PushCoalesced(b: Blocks, s: int, m: int, h: Block)
    requires Coalesced(b, s, m) && 0 < h.size
    requires forall a :: m <= a < m + h.size ==> a !in b
    requires h.kind.FreeBlock? ==> forall a :: a in FreeSet(b, s, m) ==> a + b[a].size < m
    ensures Coalesced(b[m := h], s, m + h.size)
  {
    var b' := b[m := h];
    forall a, x | s <= a < x < m + h.size && IsFree(b', a) && IsFree(b', x)
      ensures a + b'[a].size < x
    {
      assert a < m && IsFree(b, a);
      if x < m {
        assert IsFree(b, x);
      } else {
        assert a in FreeSet(b, s, m);
      }
    }
  }

  lemma PushHeaders(b: Blocks, s: int, m: int, h: Block)
    requires FreeHeaders(b, s, m) && NoHoles(b, s, m) && 0 < h.size
    requires forall a :: m <= a < m + h.size ==> a !in b
    requires h.Occupied() || h == FreeHeader(h.size)
    ensures FreeHeaders(b[m := h], s, m + h.size) && NoHoles(b[m := h], s, m + h.size)
  {
  }

  // ----- Walking the list

  lemma NextIsNearest(f: set<int>, n: Links, p: Links, s: int, e: int, x: int)
    requires ListOK(f, n, p, s, e) && HasNext(f, s, x)
    ensures x in n && x < n[x] && HasPrev(f, e, n[x]) && (s <= e ==> n[x] <= e)
    ensures forall a :: a in f && x < a ==> n[x] <= a
  {
    assert forall a :: a in f && x < a ==> HasPrev(f, e, a);
  }

  lemma PrevIsNearest(f: set<int>, n: Links, p: Links, s: int, e: int, y: int)
    requires ListOK(f, n, p, s, e) && HasPrev(f, e, y)
    ensures y in p && s - 1 <= p[y] < y && HasNext(f, s, p[y])
    ensures forall a :: a in f && a < y ==> a <= p[y]
  {
    forall a | a in f && a < y ensures a <= p[y] {
      if p[y] < a {
        assert HasNext(f, s, p[y]) && HasPrev(f, e, a);
      }
    }
  }

  // ----- Free-list updates

  /** Unlinking a member. */
  lemma ListRemove(f: set<int>, n: Links, p: Links, s: int, e: int, x: int)
    requires ListOK(f, n, p, s, e) && x in f
    ensures ListOK(f - {x}, n[p[x] := n[x]], p[n[x] := p[x]], s, e)
  {
    var f', n', p' := f - {x}, n[p[x] := n[x]], p[n[x] := p[x]];
    assert HasNext(f, s, x) && HasPrev(f, e, x);
    assert forall y :: HasNext(f', s, y) ==> HasNext(f, s, y) && y != x;
    assert forall y :: HasPrev(f', e, y) ==> HasPrev(f, e, y) && y != x;
    assert HasNext(f', s, p[x]) && HasPrev(f', e, n[x]);
  }

  /** Linking a new member between `p[q]` and `q`. */
  lemma ListInsert(f: set<int>, n: Links, p: Links, s: int, e: int, x: int, q: int)
    requires ListOK(f, n, p, s, e) && x !in f && s <= x < e
    requires HasPrev(f, e, q) && p[q] < x < q
    ensures ListOK(f + {x}, n[x := q][p[q] := x], p[x := p[q]][q := x], s, e)
  {
    ListInsertNext(f, n, p, s, e, x, q);
    ListInsertPrev(f, n, p, s, e, x, q);
    ListInsertNearest(f, n, p, s, e, x, q);
  }

  lemma ListInsertNext(f: set<int>, n: Links, p: Links, s: int, e: int, x: int, q: int)
    requires ListOK(f, n, p, s, e) && x !in f && s <= x < e
    requires HasPrev(f, e, q) && p[q] < x < q
    ensures var f', n', p' := f + {x}, n[x := q][p[q] := x], p[x := p[q]][q := x];
      forall y :: HasNext(f', s, y) ==>
        y in n' && y < n'[y] && HasPrev(f', e, n'[y]) && n'[y] in p' && p'[n'[y]] == y
  {
    forall y | HasNext(f + {x}, s, y) && y != x ensures HasNext(f, s, y) {}
  }

  lemma ListInsertPrev(f: set<int>, n: Links, p: Links, s: int, e: int, x: int, q: int)
    requires ListOK(f, n, p, s, e) && x !in f && s <= x < e
    requires HasPrev(f, e, q) && p[q] < x < q
    ensures var f', n', p' := f + {x}, n[x := q][p[q] := x], p[x := p[q]][q := x];
      forall y :: HasPrev(f', e, y) ==>
        y in p' && p'[y] < y && HasNext(f', s, p'[y]) && p'[y] in n' && n'[p'[y]] == y
  {
    forall y | HasPrev(f + {x}, e, y) && y != x ensures HasPrev(f, e, y) {}
  }

  lemma ListInsertNearest(f: set<int>, n: Links, p: Links, s: int, e: int, x: int, q: int)
    requires ListOK(f, n, p, s, e) && x !in f && s <= x < e
    requires HasPrev(f, e, q) && p[q] < x < q
    ensures var f', n' := f + {x}, n[x := q][p[q] := x];
      forall y, z :: HasNext(f', s, y) && HasPrev(f', e, z) && y < z ==> y in n' && n'[y] <= z
  {
    forall y | HasNext(f + {x}, s, y) && y != x ensures HasNext(f, s, y) {}
    forall z | HasPrev(f + {x}, e, z) && z != x ensures HasPrev(f, e, z) {}
  }

  // ----- A list under construction, open at its end

  /** Linking `last`, the highest node, to the tail `e` would complete the list. */
  ghost predicate OpenList(f: set<int>, next: Links, prev: Links, s: int, e: int, last: int) {
    && HasNext(f, s, last) && (forall x :: x in f ==> x <= last)
    && ListOK(f, next[last := e], prev[e := last], s, e)
  }

  lemma OpenAppend(f: set<int>, n: Links, p: Links, s: int, e: int, last: int, x: int)
    requires OpenList(f, n, p, s, e, last) && s <= x < e && last < x
    ensures OpenList(f + {x}, n[last := x], p[x := last], s, e, x)
  {
    hide ListOK;
    ListInsert(f, n[last := e], p[e := last], s, e, x, e);
    assert n[last := e][x := e][last := x] == n[last := x][x := e];
    assert p[e := last][x := last][e := x] == p[x := last][e := x];
  }
}
