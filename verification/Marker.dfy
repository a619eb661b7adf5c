/** The marker: the traversal with the bounded stack, the repeated walks over the heap after it
  * overflowed, and the roots and finalizers it starts from. */
module MarkerLoop {
  import opened HeapModel
  import opened Clusters
  import opened Heap
  import opened MarkStacks
  import opened Marking

  /** What the traversal does next: take a slot from the stack, visit a block, or go through a
    * range of slots. */
  datatype Work = Idle | Head(addr: Addr) | Range(cells: seq<Cell>)
  {
    /** The slots and blocks still to be looked at, besides a range that has an owner. */
    function Grey(): seq<Cell> {
      if Head? then [Ref(addr)] else []
    }

    function Weight(): nat {
      match this
      case Idle => 0
      case Head(_) => 1
      case Range(cells) => 2 * |cells|
    }
  }

  /** Where marking starts: a range of slots, an object pointer, or one that is visited even if
    * it is marked already. */
  datatype Root = Slots(cells: seq<Cell>) | Single(addr: Addr) | Forced(addr: Addr)
  {
    predicate Targets(t: Addr) {
      match this
      case Slots(cells) => PointsAt(cells, t)
      case Single(addr) => addr == t && t != NULL
      case Forced(addr) => addr == t && t != NULL
    }
  }

  class Marker {
    const mem: Memory
    const stack: MarkStack
    var weakDelegates: seq<int>      // m_weakDelegates_Reachable

    constructor (mem: Memory)
      ensures this.mem == mem && fresh(stack) && stack.Valid() && stack.Pending() == [] && !stack.outOfSpace
      ensures weakDelegates == [] && stack.overflows == 0
    {
      this.mem := mem;
      stack := new MarkStack();
      weakDelegates := [];
    }

    /** What holds between two traversals: `dropped` are the blocks whose slots were given up. */
    ghost predicate Rest(roots: set<int>, dropped: set<int>)
      reads this, mem, stack
    {
      Busy(roots, dropped, Idle, -1) && stack.Pending() == []
    }

    /** What holds inside a traversal; `owner` is the block whose slots are the current range. */
    ghost predicate Busy(roots: set<int>, dropped: set<int>, work: Work, owner: int)
      reads this, mem, stack
    {
      && stack.Valid() && WeakListed(mem.blocks, weakDelegates)
      && Traversal(mem.blocks, roots, dropped, stack.Pending(), work, owner)
    }

    /** The next slot of the stack, or the end. */
    method StepIdle(ghost roots: set<int>, ghost dropped: set<int>) returns (found: bool, work: Work)
      requires Busy(roots, dropped, Idle, -1)
      modifies stack`below, stack`top, stack`above
      ensures !found ==> Rest(roots, dropped)
      ensures found ==> Busy(roots, dropped, work, -1) && !work.Range?
      ensures found ==> Covered(mem.blocks, old(stack.Pending()), stack.Pending() + work.Grey())
      ensures found ==> 2 * |stack.Pending()| + work.Weight() < 2 * |old(stack.Pending())|
      ensures found && work.Head? ==> work.addr in mem.blocks && !mem.blocks[work.addr].alive
      ensures !found ==> old(stack.Pending()) == []
    {
      hide MarkStack.Valid, Traversal, WeakListed, Taken;
      work := Idle;
      ghost var pending := stack.Pending();
      var cell;
      found, cell := stack.Pop();
      if found {
        TakenIsGrey(mem.blocks, roots, dropped, pending, stack.Pending(), cell);
        work := Follow(cell);
      }
    }

    /** Visits a block. */
    method StepHead(a: Addr, ghost roots: set<int>, ghost dropped: set<int>) returns (work: Work)
      requires Busy(roots, dropped, Head(a), -1)
      modifies this`weakDelegates, mem`blocks
      ensures mem.blocks == Marked(old(mem.blocks), a) && Remarked(old(mem.blocks), mem.blocks)
      ensures !work.Head? && Busy(roots, dropped - {a}, work, a)
      ensures Covered(mem.blocks, stack.Pending() + [Ref(a)], stack.Pending() + work.Grey())
    {
      hide MarkStack.Valid, WeakListed, Closed, Sound, GreySound, Graph, PointersValid, EventsMarked, MarkStack.Pending;
      HeadInUse(mem.blocks, roots, dropped, stack.Pending(), a);
      VisitMarks(mem.blocks, roots, dropped, stack.Pending(), a);
      ghost var b := mem.blocks;
      var cells := Visit(a);
      work := if cells == [] then Idle else Range(cells);
    }

    /** The first slot of a range; the others go to the stack, or are dropped. */
    method StepRange(cells: seq<Cell>, ghost owner: int, ghost roots: set<int>, ghost dropped: set<int>)
      returns (work: Work, ok: bool)
      requires Busy(roots, dropped, Range(cells), owner)
      modifies stack
      ensures !work.Range? && Busy(roots, if ok then dropped else dropped + {owner}, work, -1)
      ensures stack.outOfSpace == (old(stack.outOfSpace) || !ok) && stack.overflows == old(stack.overflows) + (if ok then 0 else 1)
      ensures !ok ==> old(stack.Pending()) != [] && stack.Pending() == old(stack.Pending()) && work == Idle
      ensures ok ==> Covered(mem.blocks, old(stack.Pending()) + cells, stack.Pending() + work.Grey())
      ensures 2 * |stack.Pending()| + work.Weight() < 2 * |old(stack.Pending())| + 2 * |cells|
      ensures work.Head? ==> work.addr in mem.blocks && !mem.blocks[work.addr].alive
    {
      hide MarkStack.Valid, Traversal, WeakListed, Covered;
      ghost var pending := stack.Pending();
      RangeNotEmpty(mem.blocks, roots, dropped, pending, cells, owner);
      ok := true;
      if |cells| > 1 {
        ok := stack.Push(cells[1..]);
        if !ok {
          DropRange(mem.blocks, roots, dropped, pending, cells, owner);
          return Idle, false;
        }
      }
      RangeIsGrey(mem.blocks, roots, dropped, pending, cells, owner);
      assert stack.Pending() == pending + cells[1..];
      work := Follow(cells[0]);
    }

    /** Sets the mark of a block; a weak delegate list is put on the list of reachable ones.
      * Returns the slots to go through next. */
    method Visit(a: Addr) returns (cells: seq<Cell>)
      requires InUse(mem.blocks, a) && !mem.blocks[a].event && WeakListed(mem.blocks, weakDelegates)
      modifies this`weakDelegates, mem`blocks
      ensures mem.blocks == Marked(old(mem.blocks), a)
      ensures WeakListed(mem.blocks, weakDelegates)
      ensures cells == StrongCells(mem.blocks[a])
      ensures weakDelegates == if IsWeakList(mem.blocks[a]) then Without(old(weakDelegates), a) + [a] else old(weakDelegates)
    {
      mem.blocks := mem.blocks[a := mem.blocks[a].(alive := true)];
      cells := [];
      match mem.blocks[a].kind {
        case Instance => cells := mem.blocks[a].cells;
        case RefArray => cells := mem.blocks[a].cells;
        case Delegate => cells := if mem.blocks[a].cells == [] then [] else mem.blocks[a].cells[..1];
        case DelegateList(weak) =>
          if weak {
            WithoutMembers(weakDelegates, a);
            weakDelegates := Without(weakDelegates, a) + [a];
          } else {
            cells := mem.blocks[a].cells;
          }
        case _ =>
      }
    }

    /** Follows one slot: its target is visited next unless it is marked already. */
    method Follow(cell: Cell) returns (work: Work)
      requires cell.Ref? && cell.addr != NULL ==> cell.addr in mem.blocks
      ensures work == Next(mem.blocks, cell)
    {
      work := Idle;
      if cell.Ref? && cell.addr != NULL {
        if !mem.blocks[cell.addr].alive {
          work := Head(cell.addr);
        }
      }
    }

    /** ComputeReachabilityGraphForMultipleBlocks: marks everything the given block or range leads
      * to, as far as the stack reaches.  A block whose slots are dropped on the way was marked by
      * this very call. */
    method Traverse(start: Work, ghost roots: set<int>, ghost dropped0: set<int>) returns (ghost dropped: set<int>)
      requires Busy(roots, dropped0, start, -1) && stack.Pending() == []
      modifies this`weakDelegates, mem`blocks, stack
      ensures Rest(roots, dropped) && Remarked(old(mem.blocks), mem.blocks)
      ensures start.Head? ==> MarkedAndKept(mem.blocks, start.addr, dropped)
      ensures start.Range? ==> Covered(mem.blocks, start.cells, [])
      ensures Progress(old(mem.blocks), mem.blocks, dropped0, dropped, old(stack.outOfSpace), stack.outOfSpace)
      ensures Counted(old(stack.outOfSpace), old(stack.overflows), stack.outOfSpace, stack.overflows)
    {
      hide MarkStack.Valid, Traversal, WeakListed, MarkStack.Pending, Covered, Remarked, Marked;
      ghost var b0, flag0, count0 := mem.blocks, stack.outOfSpace, stack.overflows;
      var work := start;
      ghost var owner: int, first := -1, true;
      dropped := dropped0;
      RemarkedReflexive(b0);
      while true
        invariant Busy(roots, dropped, work, owner) && Remarked(b0, mem.blocks)
        invariant Progress(b0, mem.blocks, dropped0, dropped, flag0, stack.outOfSpace)
        invariant Counted(flag0, count0, stack.outOfSpace, stack.overflows)
        invariant first ==> work == start && stack.Pending() == []
        invariant work.Head? && !first ==> work.addr in mem.blocks && !mem.blocks[work.addr].alive
        invariant !first && start.Head? ==> MarkedAndKept(mem.blocks, start.addr, dropped)
        invariant !first && start.Range? ==> Covered(mem.blocks, start.cells, stack.Pending() + work.Grey())
        invariant work.Range? ==> stack.Pending() == [] || LaterOwner(b0, mem.blocks, start, owner)
        decreases first, |Unmarked(mem.blocks)|, 2 * |stack.Pending()| + work.Weight()
      {
        ghost var b, pending, grey, flag := mem.blocks, stack.Pending(), stack.Pending() + work.Grey(), stack.outOfSpace;
        RemarkedReflexive(b);
        GreyOfRange(b, pending, work);
        match work {
          case Idle =>
            var found;
            IdleHasNoOwner(b, roots, dropped, pending, owner);
            found, work := StepIdle(roots, dropped);
            if !found {
              StartIsCovered(b, start, pending);
              break;
            }
            owner := -1;
            StartStaysCovered(b, b, start, grey, stack.Pending() + work.Grey());
          case Head(a) =>
            HeadHasNoOwner(b, roots, dropped, pending, a, owner);
            work := StepHead(a, roots, dropped);
            owner := a;
            VisitProgress(b0, b, mem.blocks, dropped0, dropped, flag0, stack.outOfSpace, a, start);
            dropped := dropped - {a};
            StartStaysCovered(b, mem.blocks, start, grey, stack.Pending() + work.Grey());
          case Range(cells) =>
            var ok;
            work, ok := StepRange(cells, owner, roots, dropped);
            if !ok {
              DropProgress(b0, b, dropped0, dropped, flag0, flag, owner, start);
              dropped := dropped + {owner};
              StartStaysCovered(b, b, start, grey, stack.Pending() + work.Grey());
            } else {
              RangeCovers(b, start, first, pending, cells, stack.Pending() + work.Grey());
            }
            owner := -1;
        }
        first := false;
      }
    }

    /** One of the entry points CheckMultipleBlocks, CheckSingleBlock and CheckSingleBlock_Force. */
    method CheckRoot(root: Root, ghost roots: set<int>, ghost dropped0: set<int>) returns (ghost dropped: set<int>)
      requires Rest(roots, dropped0) && RootOK(mem.blocks, root)
      modifies this`weakDelegates, mem`blocks, stack
      ensures Rest(roots + RootSet(old(mem.blocks), root), dropped) && Remarked(old(mem.blocks), mem.blocks)
      ensures RootsMarked(mem.blocks, RootSet(old(mem.blocks), root))
      ensures Progress(old(mem.blocks), mem.blocks, dropped0, dropped, old(stack.outOfSpace), stack.outOfSpace)
      ensures Counted(old(stack.outOfSpace), old(stack.overflows), stack.outOfSpace, stack.overflows)
      ensures root.Forced? && root.addr != NULL ==> root.addr !in dropped
    {
      hide MarkStack.Valid, Traversal, WeakListed, MarkStack.Pending, Covered, Remarked, Progress;
      var work := Idle;
      match root {
        case Slots(cells) =>
          if cells != [] { work := Range(cells); }
        case Single(addr) =>
          assert addr != NULL ==> root.Targets(addr);
          if addr != NULL && !mem.blocks[addr].alive { work := Head(addr); }
        case Forced(addr) =>
          if addr != NULL { work := Head(addr); }
      }
      StartTraversal(mem.blocks, roots, dropped0, root, work);
      assert stack.Pending() == [];
      dropped := Traverse(work, roots + RootSet(mem.blocks, root), dropped0);
      RootReached(old(mem.blocks), mem.blocks, root, work, dropped);
    }

    /** Visits a marked block again, so that its slots are gone through even if they were dropped. */
    method Revisit(a: Addr, ghost roots: set<int>, ghost dropped0: set<int>) returns (ghost dropped: set<int>)
      requires Rest(roots, dropped0) && a != NULL && InUse(mem.blocks, a)
      requires mem.blocks[a].alive && !mem.blocks[a].event
      modifies this`weakDelegates, mem`blocks, stack
      ensures Rest(roots, dropped) && Remarked(old(mem.blocks), mem.blocks) && a !in dropped
      ensures Progress(old(mem.blocks), mem.blocks, dropped0, dropped, old(stack.outOfSpace), stack.outOfSpace)
      ensures Counted(old(stack.outOfSpace), old(stack.overflows), stack.outOfSpace, stack.overflows)
    {
      hide MarkStack.Valid, Traversal, WeakListed, MarkStack.Pending, Remarked, Progress;
      AgainTraversal(mem.blocks, roots, dropped0, a);
      assert stack.Pending() == [];
      dropped := Traverse(Head(a), roots, dropped0);
    }

    method ClearFlag(ghost roots: set<int>, ghost dropped: set<int>)
      requires Rest(roots, dropped)
      modifies stack`outOfSpace
      ensures Rest(roots, dropped) && !stack.outOfSpace
    {
      stack.outOfSpace := false;
    }

    /** A block that needs no visit does not count as dropped. */
    lemma ForgetDropped(roots: set<int>, dropped: set<int>, a: int)
      requires Rest(roots, dropped) && a in mem.blocks && !(mem.blocks[a].alive && !mem.blocks[a].event)
      ensures Rest(roots, dropped - {a})
    {
    }
  }

  /** The facts about the heap that marking relies on and keeps. */
  ghost predicate Graph(b: Blocks) {
    PointersValid(b) && EventsMarked(b) && -1 !in b
  }

  predicate IsWeakList(h: Block) {
    h.kind.DelegateList? && h.kind.weak
  }

  /** The reachable weak delegate lists are listed, and nothing else. */
  ghost predicate WeakListed(b: Blocks, weak: seq<int>) {
    && (forall a :: a in b && b[a].alive && !b[a].event && IsWeakList(b[a]) ==> a in weak)
    && (forall a :: a in weak ==> InUse(b, a) && !b[a].event && b[a].alive && IsWeakList(b[a]))
  }

  function Without(s: seq<int>, x: int): seq<int> {
    if s == [] then [] else (if s[0] == x then [] else [s[0]]) + Without(s[1..], x)
  }

  lemma {:induction false} WithoutMembers(s: seq<int>, x: int)
    ensures forall y :: y in Without(s, x) <==> y in s && y != x
  {
    if s != [] {
      WithoutMembers(s[1..], x);
      assert s == [s[0]] + s[1..];
    }
  }

  function Next(b: Blocks, cell: Cell): Work
    requires cell.Ref? && cell.addr != NULL ==> cell.addr in b
  {
    if cell.Ref? && cell.addr != NULL && !b[cell.addr].alive then Head(cell.addr) else Idle
  }

  // ----- The invariant of the traversal

  ghost predicate Traversal(b: Blocks, roots: set<int>, dropped: set<int>, pending: seq<Cell>, work: Work, owner: int) {
    && Graph(b) && Sound(b, roots)
    && GreySound(b, roots, pending + (if work.Range? then work.cells else work.Grey()))
    && Closed(b, if work.Range? then dropped + {owner} else dropped, pending + work.Grey())
    && (work.Range? ==> work.cells != [] && (InUse(b, owner) ==> StrongCells(b[owner]) == work.cells))
    && (work.Head? ==> InUse(b, work.addr) && work.addr != NULL && !b[work.addr].event)
  }

  lemma HeadInUse(b: Blocks, roots: set<int>, dropped: set<int>, pending: seq<Cell>, a: Addr)
    requires Traversal(b, roots, dropped, pending, Head(a), -1)
    ensures InUse(b, a) && a != NULL && !b[a].event
  {
  }

  lemma RangeNotEmpty(b: Blocks, roots: set<int>, dropped: set<int>, pending: seq<Cell>, cells: seq<Cell>, owner: int)
    requires Traversal(b, roots, dropped, pending, Range(cells), owner)
    ensures cells != [] && (cells[0].Ref? && cells[0].addr != NULL ==> cells[0].addr in b)
  {
    if cells[0].Ref? && cells[0].addr != NULL {
      assert PointsAt(pending + cells, cells[0].addr);
    }
  }

  lemma VisitMarks(b: Blocks, roots: set<int>, dropped: set<int>, pending: seq<Cell>, a: Addr)
    requires Traversal(b, roots, dropped, pending, Head(a), -1)
    ensures Remarked(b, Marked(b, a))
    ensures var cells, b' := StrongCells(b[a]), Marked(b, a);
      && StrongCells(b'[a]) == cells
      && (cells != [] ==> Traversal(b', roots, dropped - {a}, pending, Range(cells), a))
      && (cells == [] ==> Traversal(b', roots, dropped - {a}, pending, Idle, a))
      && Covered(b', pending + [Ref(a)], pending + [])
  {
    hide Closed, Sound, GreySound, PointersValid;
    VisitCloses(b, dropped, pending, a);
    VisitSound(b, roots, pending, a);
    assert pending + [] == pending;
  }

  /** A popped slot. */
  lemma TakenIsGrey(b: Blocks, roots: set<int>, dropped: set<int>, pending: seq<Cell>, pending': seq<Cell>, cell: Cell)
    requires Traversal(b, roots, dropped, pending, Idle, -1) && Taken(pending, pending', cell)
    ensures cell.Ref? && cell.addr != NULL ==> cell.addr in b
    ensures Traversal(b, roots, dropped, pending', Next(b, cell), -1)
    ensures Covered(b, pending, pending' + Next(b, cell).Grey())
    ensures 2 * |pending'| + Next(b, cell).Weight() < 2 * |pending|
  {
    hide Closed, Sound, PointersValid, EventsMarked, Reachable;
    assert pending + [] == pending;
    TargetsAreWhite(b, roots, pending, cell);
    GreyShrinks(b, roots, pending, pending', cell);
    ClosedThrough(b, dropped, pending, pending' + Next(b, cell).Grey());
  }

  lemma TargetsAreWhite(b: Blocks, roots: set<int>, grey: seq<Cell>, cell: Cell)
    requires GreySound(b, roots, grey) && cell in grey && EventsMarked(b)
    ensures cell.Ref? && cell.addr != NULL ==> InUse(b, cell.addr)
    ensures var next := Next(b, cell);
      next.Head? ==> InUse(b, next.addr) && next.addr != NULL && !b[next.addr].event && !b[next.addr].alive
  {
    assert cell.Ref? && cell.addr != NULL ==> PointsAt(grey, cell.addr);
  }

  lemma GreyShrinks(b: Blocks, roots: set<int>, grey: seq<Cell>, pending: seq<Cell>, cell: Cell)
    requires GreySound(b, roots, grey) && forall c :: c in grey <==> c == cell || c in pending
    requires cell.Ref? && cell.addr != NULL ==> cell.addr in b
    ensures GreySound(b, roots, pending + Next(b, cell).Grey())
    ensures Covered(b, grey, pending + Next(b, cell).Grey())
  {
    hide Reachable;
    forall t: Addr | PointsAt(pending + Next(b, cell).Grey(), t) ensures PointsAt(grey, t) {
    }
  }

  /** A range whose rest was stored. */
  lemma RangeIsGrey(b: Blocks, roots: set<int>, dropped: set<int>, pending: seq<Cell>, cells: seq<Cell>, owner: int)
    requires Traversal(b, roots, dropped, pending, Range(cells), owner)
    ensures cells != [] && (cells[0].Ref? && cells[0].addr != NULL ==> cells[0].addr in b)
    ensures var next := Next(b, cells[0]);
      && Traversal(b, roots, dropped, pending + cells[1..], next, -1)
      && Covered(b, pending + cells, pending + cells[1..] + next.Grey())
      && (next.Head? ==> !b[next.addr].alive)
  {
    hide Closed, Sound, PointersValid, EventsMarked, Reachable, GreySound;
    RangeNotEmpty(b, roots, dropped, pending, cells, owner);
    assert pending + [] == pending;
    assert cells == [cells[0]] + cells[1..];
    TargetsAreWhite(b, roots, pending + cells, cells[0]);
    GreyShrinks(b, roots, pending + cells, pending + cells[1..], cells[0]);
    StoreCloses(b, dropped, pending, owner, cells);
    ClosedThrough(b, dropped, pending + cells, pending + cells[1..] + Next(b, cells[0]).Grey());
  }

  /** A range given up: its owner is not covered any more. */
  lemma DropRange(b: Blocks, roots: set<int>, dropped: set<int>, pending: seq<Cell>, cells: seq<Cell>, owner: int)
    requires Traversal(b, roots, dropped, pending, Range(cells), owner)
    ensures Traversal(b, roots, dropped + {owner}, pending, Idle, -1)
  {
    hide Closed, Sound, PointersValid, EventsMarked, Reachable;
    assert pending + [] == pending;
    forall t: Addr | PointsAt(pending, t) ensures PointsAt(pending + cells, t) {
    }
  }

  // ----- Progress of one traversal

  ghost predicate Fresh(b0: Blocks, b: Blocks, a: int) {
    a in b0 && !b0[a].alive && a in b && b[a].alive
  }

  ghost predicate SomeFresh(b0: Blocks, b: Blocks) {
    exists a :: Fresh(b0, b, a)
  }

  /** Blocks are dropped only when the flag goes up, and only blocks that were newly marked. */
  ghost predicate Progress(b0: Blocks, b: Blocks, dropped0: set<int>, dropped: set<int>, flag0: bool, flag: bool) {
    && (flag0 ==> flag) && (!flag ==> dropped <= dropped0) && (flag && !flag0 ==> SomeFresh(b0, b))
    && (forall a :: a in dropped && a !in dropped0 ==> Fresh(b0, b, a))
  }

  /** The flag goes up only when a range is given up. */
  predicate Counted(flag0: bool, count0: nat, flag: bool, count: nat) {
    count0 <= count && (count == count0 ==> flag == flag0)
  }

  ghost predicate MarkedAndKept(b: Blocks, a: int, dropped: set<int>) {
    a in b && b[a].alive && a !in dropped
  }

  ghost predicate LaterOwner(b0: Blocks, b: Blocks, start: Work, owner: int) {
    Fresh(b0, b, owner) && (start.Head? ==> owner != start.addr)
  }

  lemma RemarkedReflexive(b: Blocks)
    ensures Remarked(b, b)
  {
  }

  lemma IdleHasNoOwner(b: Blocks, roots: set<int>, dropped: set<int>, pending: seq<Cell>, owner: int)
    requires Traversal(b, roots, dropped, pending, Idle, owner)
    ensures Traversal(b, roots, dropped, pending, Idle, -1)
  {
  }

  lemma HeadHasNoOwner(b: Blocks, roots: set<int>, dropped: set<int>, pending: seq<Cell>, a: Addr, owner: int)
    requires Traversal(b, roots, dropped, pending, Head(a), owner)
    ensures Traversal(b, roots, dropped, pending, Head(a), -1) && a in b
  {
  }

  lemma GreyOfRange(b: Blocks, pending: seq<Cell>, work: Work)
    ensures !work.Head? ==> pending + work.Grey() == pending
    ensures Covered(b, pending, pending) && pending + Idle.Grey() == pending
  {
  }

  lemma StartIsCovered(b: Blocks, start: Work, pending: seq<Cell>)
    requires pending == []
    ensures start.Range? && Covered(b, start.cells, pending + Idle.Grey()) ==> Covered(b, start.cells, [])
  {
    assert pending + [] == [];
  }

  lemma StartStaysCovered(b: Blocks, b': Blocks, start: Work, grey: seq<Cell>, grey': seq<Cell>)
    requires Remarked(b, b') && Covered(b', grey, grey')
    ensures start.Range? && Covered(b, start.cells, grey) ==> Covered(b', start.cells, grey')
  {
    if start.Range? && Covered(b, start.cells, grey) {
      CoveredRemarked(b, b', start.cells, grey);
      CoveredThrough(b', start.cells, grey, grey');
    }
  }

  lemma VisitProgress(b0: Blocks, b: Blocks, b': Blocks, dropped0: set<int>, dropped: set<int>, flag0: bool, flag: bool,
                      a: Addr, start: Work)
    requires Remarked(b0, b) && Remarked(b, b') && a in b && b' == Marked(b, a)
    requires Progress(b0, b, dropped0, dropped, flag0, flag)
    ensures Remarked(b0, b') && Progress(b0, b', dropped0, dropped - {a}, flag0, flag)
    ensures MarkedAndKept(b', a, dropped - {a})
    ensures start.Head? && MarkedAndKept(b, start.addr, dropped) ==> MarkedAndKept(b', start.addr, dropped - {a})
    ensures !b[a].alive ==> |Unmarked(b')| < |Unmarked(b)|
    ensures !b[a].alive && (start.Head? ==> MarkedAndKept(b, start.addr, dropped)) ==> LaterOwner(b0, b', start, a)
  {
    RemarkedTransitive(b0, b, b');
    FewerUnmarked(b, b');
    assert forall x :: Fresh(b0, b, x) ==> Fresh(b0, b', x);
    if flag && !flag0 {
      var x :| Fresh(b0, b, x);
      assert Fresh(b0, b', x);
    }
  }

  lemma DropProgress(b0: Blocks, b: Blocks, dropped0: set<int>, dropped: set<int>, flag0: bool, flag: bool, owner: int,
                     start: Work)
    requires Progress(b0, b, dropped0, dropped, flag0, flag) && LaterOwner(b0, b, start, owner)
    ensures Progress(b0, b, dropped0, dropped + {owner}, flag0, true)
    ensures start.Head? && MarkedAndKept(b, start.addr, dropped) ==> MarkedAndKept(b, start.addr, dropped + {owner})
  {
    assert Fresh(b0, b, owner);
  }

  lemma RangeCovers(b: Blocks, start: Work, first: bool, pending: seq<Cell>, cells: seq<Cell>, grey: seq<Cell>)
    requires Covered(b, pending + cells, grey)
    requires if first then start == Range(cells) else start.Range? ==> Covered(b, start.cells, pending + [])
    ensures start.Range? ==> Covered(b, start.cells, grey)
  {
    assert pending + [] == pending;
  }

  // ----- Roots

  /** Pointers handed to the marker denote blocks; forced ones are ordinary objects. */
  ghost predicate RootOK(b: Blocks, root: Root) {
    && (forall t: Addr :: root.Targets(t) ==> InUse(b, t))
    && (root.Forced? && root.addr != NULL ==> root.addr in b && !b[root.addr].event)
  }

  ghost function RootSet(b: Blocks, root: Root): set<int> {
    set a | a in b && 0 <= a < ADDRESS_SPACE && root.Targets(a)
  }

  ghost predicate RootsMarked(b: Blocks, roots: set<int>) {
    forall a :: a in roots ==> InUse(b, a) && b[a].alive
  }

  lemma SoundFromMore(b: Blocks, roots: set<int>, roots': set<int>)
    requires Sound(b, roots) && roots <= roots'
    ensures Sound(b, roots')
  {
    forall a | InUse(b, a) && b[a].alive && !b[a].event ensures Reachable(b, roots', a) {
      MoreRoots(b, roots, roots', a);
    }
  }

  lemma StartTraversal(b: Blocks, roots: set<int>, dropped: set<int>, root: Root, work: Work)
    requires Traversal(b, roots, dropped, [], Idle, -1) && RootOK(b, root)
    requires match work
      case Idle => true
      case Head(a) => a != NULL && root.Targets(a) && (!b[a].alive || root.Forced?)
      case Range(cells) => root == Slots(cells) && cells != []
    ensures Traversal(b, roots + RootSet(b, root), dropped, [], work, -1)
  {
    hide Reachable, PointersValid;
    var roots' := roots + RootSet(b, root);
    SoundFromMore(b, roots, roots');
    assert [] + Idle.Grey() == [];
    var grey := if work.Range? then work.cells else work.Grey();
    assert [] + grey == grey;
    forall t: Addr | PointsAt(grey, t) ensures InUse(b, t) && Reachable(b, roots', t) {
      assert root.Targets(t);
      RootReachable(b, roots', t);
    }
    ClosedThrough(b, dropped, [], [] + work.Grey());
    assert Closed(b, dropped + {-1}, []) by {
      assert forall a :: InUse(b, a) && a !in dropped + {-1} ==> a !in dropped;
    }
  }

  lemma RootReached(b0: Blocks, b: Blocks, root: Root, work: Work, dropped: set<int>)
    requires Remarked(b0, b) && RootOK(b0, root)
    requires match root
      case Slots(cells) => if cells == [] then work == Idle else work == Range(cells)
      case Single(addr) => work == if addr != NULL && addr in b0 && !b0[addr].alive then Head(addr) else Idle
      case Forced(addr) => work == if addr != NULL then Head(addr) else Idle
    requires work.Head? ==> MarkedAndKept(b, work.addr, dropped)
    requires work.Range? ==> Covered(b, work.cells, [])
    ensures RootsMarked(b, RootSet(b0, root))
    ensures root.Forced? && root.addr != NULL ==> root.addr !in dropped
  {
  }

  lemma AgainTraversal(b: Blocks, roots: set<int>, dropped: set<int>, a: Addr)
    requires Traversal(b, roots, dropped, [], Idle, -1)
    requires a != NULL && InUse(b, a) && b[a].alive && !b[a].event
    ensures Traversal(b, roots, dropped, [], Head(a), -1)
  {
    hide Reachable, PointersValid;
    assert [] + Idle.Grey() == [] && [] + Head(a).Grey() == [Ref(a)];
    ClosedThrough(b, dropped, [], [Ref(a)]);
  }
}
