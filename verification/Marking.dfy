/** What marking has to compute: the strong closure of the roots, and the invariant that lets a
  * collector drop work it has no space for. */
module Marking {
  import opened HeapModel
  import opened Heap

  /** The slots of a block that keep their targets alive. */
  function StrongCells(h: Block): seq<Cell> {
    match h.kind
    case Instance => h.cells
    case RefArray => h.cells
    case Delegate => if h.cells == [] then [] else h.cells[..1]
    case DelegateList(weak) => if weak then [] else h.cells
    case _ => []
  }

  predicate PointsAt(cells: seq<Cell>, t: Addr) {
    t != NULL && Ref(t) in cells
  }

  /** `a` keeps `t` alive.  Event blocks are never traversed; their objects are roots. */
  ghost predicate Edge(b: Blocks, a: int, t: Addr) {
    InUse(b, a) && !b[a].event && PointsAt(StrongCells(b[a]), t)
  }

  ghost predicate IsPath(b: Blocks, path: seq<int>) {
    && (forall i :: 0 <= i < |path| ==> 0 <= path[i] < ADDRESS_SPACE)
    && (forall i :: 0 < i < |path| ==> Edge(b, path[i - 1], path[i]))
  }

  ghost predicate Leads(b: Blocks, roots: set<int>, path: seq<int>, x: int) {
    path != [] && IsPath(b, path) && path[0] in roots && path[|path| - 1] == x
  }

  /** The strong closure of the roots. */
  ghost predicate Reachable(b: Blocks, roots: set<int>, x: int) {
    exists path :: Leads(b, roots, path, x)
  }

  lemma RootReachable(b: Blocks, roots: set<int>, x: Addr)
    requires x in roots
    ensures Reachable(b, roots, x)
  {
    assert Leads(b, roots, [x], x);
  }

  lemma EdgeReachable(b: Blocks, roots: set<int>, a: int, t: Addr)
    requires Reachable(b, roots, a) && Edge(b, a, t)
    ensures Reachable(b, roots, t)
  {
    var path :| Leads(b, roots, path, a);
    assert Leads(b, roots, path + [t], t);
  }

  lemma MoreRoots(b: Blocks, roots: set<int>, roots': set<int>, x: int)
    requires Reachable(b, roots, x) && roots <= roots'
    ensures Reachable(b, roots', x)
  {
    var path :| Leads(b, roots, path, x);
    assert Leads(b, roots', path, x);
  }

  /** Every traced pointer leads to a block. */
  ghost predicate PointersValid(b: Blocks) {
    forall a, t: Addr :: Edge(b, a, t) ==> InUse(b, t)
  }

  /** Event blocks carry the mark all the time. */
  ghost predicate EventsMarked(b: Blocks) {
    forall a :: InUse(b, a) && b[a].event ==> b[a].alive
  }

  /** `b'` is `b` with more marks. */
  ghost predicate Remarked(b: Blocks, b': Blocks) {
    && (forall a :: a in b <==> a in b')
    && (forall a :: a in b && a in b' ==> b'[a] == b[a].(alive := b'[a].alive) && (b[a].alive ==> b'[a].alive))
    && (forall a :: a in b && a in b' && !b[a].Occupied() ==> b'[a] == b[a])
  }

  lemma RemarkedTransitive(b: Blocks, b': Blocks, b'': Blocks)
    requires Remarked(b, b') && Remarked(b', b'')
    ensures Remarked(b, b'')
  {
  }

  lemma RemarkedShape(b: Blocks, b': Blocks)
    requires Remarked(b, b')
    ensures SameShape(b, b')
  {
  }

  lemma RemarkedGraph(b: Blocks, b': Blocks)
    requires Remarked(b, b')
    ensures forall a, t: Addr :: Edge(b, a, t) <==> Edge(b', a, t)
    ensures forall a :: InUse(b, a) <==> InUse(b', a)
  {
  }

  // ----- The marking invariant

  /** Every target of the slots is marked or still to be visited. */
  ghost predicate Covered(b: Blocks, cells: seq<Cell>, grey: seq<Cell>) {
    forall t: Addr :: PointsAt(cells, t) ==> (t in b && b[t].alive) || Ref(t) in grey
  }

  /** Every marked block outside `dropped` has its targets covered. */
  ghost predicate Closed(b: Blocks, dropped: set<int>, grey: seq<Cell>) {
    forall a :: InUse(b, a) && b[a].alive && !b[a].event && a !in dropped ==> Covered(b, StrongCells(b[a]), grey)
  }

  /** Nothing is marked that the roots do not reach, and nothing else is going to be. */
  ghost predicate Sound(b: Blocks, roots: set<int>) {
    forall a :: InUse(b, a) && b[a].alive && !b[a].event ==> Reachable(b, roots, a)
  }

  ghost predicate GreySound(b: Blocks, roots: set<int>, grey: seq<Cell>) {
    forall t: Addr :: PointsAt(grey, t) ==> InUse(b, t) && Reachable(b, roots, t)
  }

  /** Reachability does not depend on marks. */
  lemma ReachableRemarked(b: Blocks, b': Blocks, roots: set<int>, x: int)
    requires Remarked(b, b')
    ensures Reachable(b, roots, x) <==> Reachable(b', roots, x)
  {
    RemarkedGraph(b, b');
    forall path | Leads(b, roots, path, x) ensures Leads(b', roots, path, x) {
    }
    forall path | Leads(b', roots, path, x) ensures Leads(b, roots, path, x) {
    }
  }

  function Marked(b: Blocks, a: int): Blocks
    requires a in b
  {
    b[a := b[a].(alive := true)]
  }

  /** Visiting a block: everything that waited for it is satisfied, and its slots are to be
    * processed next. */
  lemma VisitCloses(b: Blocks, dropped: set<int>, pending: seq<Cell>, a: Addr)
    requires InUse(b, a) && Closed(b, dropped, pending + [Ref(a)])
    ensures Remarked(b, Marked(b, a))
    ensures Closed(Marked(b, a), dropped - {a} + {a}, pending)
    ensures StrongCells(b[a]) == [] ==> Closed(Marked(b, a), dropped - {a}, pending)
  {
    var b' := Marked(b, a);
    forall x | InUse(b', x) && b'[x].alive && !b'[x].event && x != a && x !in dropped
      ensures Covered(b', StrongCells(b'[x]), pending)
    {
      assert b'[x] == b[x] && InUse(b, x);
      assert Covered(b, StrongCells(b[x]), pending + [Ref(a)]);
    }
  }

  lemma VisitSound(b: Blocks, roots: set<int>, pending: seq<Cell>, a: Addr)
    requires Sound(b, roots) && GreySound(b, roots, pending + [Ref(a)]) && PointersValid(b)
    requires InUse(b, a) && a != NULL && !b[a].event
    ensures var b' := Marked(b, a);
      Sound(b', roots) && GreySound(b', roots, pending + StrongCells(b[a])) && PointersValid(b')
  {
    hide Reachable;
    var b' := Marked(b, a);
    RemarkedGraph(b, b');
    forall x ensures Reachable(b, roots, x) <==> Reachable(b', roots, x) {
      ReachableRemarked(b, b', roots, x);
    }
    assert PointsAt(pending + [Ref(a)], a);
    forall t: Addr | PointsAt(pending + StrongCells(b[a]), t) ensures InUse(b', t) && Reachable(b', roots, t) {
      if PointsAt(StrongCells(b[a]), t) {
        assert Edge(b, a, t);
        EdgeReachable(b, roots, a, t);
      } else {
        assert PointsAt(pending + [Ref(a)], t);
      }
    }
  }

  /** Storing the rest of a range: its owner is covered from now on. */
  lemma StoreCloses(b: Blocks, dropped: set<int>, pending: seq<Cell>, owner: int, cells: seq<Cell>)
    requires Closed(b, dropped + {owner}, pending)
    requires InUse(b, owner) ==> StrongCells(b[owner]) == cells
    ensures Closed(b, dropped, pending + cells)
  {
    forall a | InUse(b, a) && b[a].alive && !b[a].event && a !in dropped
      ensures Covered(b, StrongCells(b[a]), pending + cells)
    {
      if a != owner {
        assert Covered(b, StrongCells(b[a]), pending);
      }
    }
  }

  /** What is covered by some slots is covered by slots that cover those. */
  lemma CoveredThrough(b: Blocks, cells: seq<Cell>, grey: seq<Cell>, grey': seq<Cell>)
    requires Covered(b, cells, grey) && Covered(b, grey, grey')
    ensures Covered(b, cells, grey')
  {
    forall t: Addr | PointsAt(cells, t) && !(t in b && b[t].alive) ensures Ref(t) in grey' {
      assert PointsAt(grey, t);
    }
  }

  lemma ClosedThrough(b: Blocks, dropped: set<int>, grey: seq<Cell>, grey': seq<Cell>)
    requires Closed(b, dropped, grey) && Covered(b, grey, grey')
    ensures Closed(b, dropped, grey')
  {
    forall a | InUse(b, a) && b[a].alive && !b[a].event && a !in dropped
      ensures Covered(b, StrongCells(b[a]), grey')
    {
      CoveredThrough(b, StrongCells(b[a]), grey, grey');
    }
  }

  lemma CoveredRemarked(b: Blocks, b': Blocks, cells: seq<Cell>, grey: seq<Cell>)
    requires Remarked(b, b') && Covered(b, cells, grey)
    ensures Covered(b', cells, grey)
  {
  }

  // ----- What a finished marking means

  /** With nothing pending and nothing dropped, the marks are exactly the strong closure. */
  lemma ClosureIsExact(b: Blocks, roots: set<int>)
    requires Closed(b, {}, []) && Sound(b, roots) && PointersValid(b) && EventsMarked(b)
    requires forall r :: r in roots ==> InUse(b, r) && b[r].alive
    ensures forall a :: InUse(b, a) && !b[a].event ==> (b[a].alive <==> Reachable(b, roots, a))
  {
    forall a | InUse(b, a) && Reachable(b, roots, a) ensures b[a].alive {
      var path :| Leads(b, roots, path, a);
      PathIsMarked(b, roots, path, |path| - 1);
    }
  }

  lemma {:induction false} PathIsMarked(b: Blocks, roots: set<int>, path: seq<int>, i: nat)
    requires Closed(b, {}, []) && PointersValid(b)
    requires forall r :: r in roots ==> InUse(b, r) && b[r].alive
    requires path != [] && IsPath(b, path) && path[0] in roots && i < |path|
    ensures InUse(b, path[i]) && b[path[i]].alive
  {
    if i > 0 {
      PathIsMarked(b, roots, path, i - 1);
      assert Edge(b, path[i - 1], path[i]);
      assert Covered(b, StrongCells(b[path[i - 1]]), []);
    }
  }

  // ----- Counting unmarked blocks

  ghost function Unmarked(b: Blocks): set<int> {
    set a | a in b && !b[a].alive
  }

  lemma FewerUnmarked(b: Blocks, b': Blocks)
    requires Remarked(b, b')
    ensures Unmarked(b') <= Unmarked(b) && |Unmarked(b')| <= |Unmarked(b)|
    ensures (exists a :: a in b && !b[a].alive && b'[a].alive) ==> |Unmarked(b')| < |Unmarked(b)|
  {
    assert forall a :: a in Unmarked(b') ==> a in b && !b[a].alive;
    Cardinality(Unmarked(b'), Unmarked(b));
    if a :| a in b && !b[a].alive && b'[a].alive {
      assert a in Unmarked(b) && a !in Unmarked(b');
    }
  }

  lemma Cardinality(s: set<int>, t: set<int>)
    requires s <= t
    ensures |s| <= |t| && (s != t ==> |s| < |t|)
  {
    assert t == s + (t - s);
  }
}
