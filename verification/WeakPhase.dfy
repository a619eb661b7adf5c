/** What a collection does with weak references and weak delegate lists once marking is done. */
module WeakPhases {
  import opened HeapModel
  import opened Clusters
  import opened Heap
  import opened Marking
  import opened MarkerLoop

  predicate NoPointers(cells: seq<Cell>) {
    forall i :: 0 <= i < |cells| ==> !cells[i].Ref?
  }

  /** The slots of a block fit its type. */
  predicate WellShaped(h: Block) {
    match h.kind
    case Delegate => h.cells != [] && NoPointers(h.cells[1..])
    case WeakReference(_, _) => |h.cells| == 2 && h.cells[0].Ref? && h.cells[1].Ref?
    case Plain => NoPointers(h.cells)
    case _ => true
  }

  /** A block a pointer may denote. */
  predicate Proper(b: Blocks, a: int) {
    InUse(b, a) && !b[a].kind.CachedBlock?
  }

  /** Objects: what collections are about.  Event blocks have owners of their own. */
  predicate IsObject(b: Blocks, a: int) {
    Proper(b, a) && !b[a].event
  }

  /** No pointer dangles; serialized copies are byte arrays; the slots of weak delegate lists hold
    * delegates. */
  ghost predicate HeapGraph(b: Blocks) {
    && (forall a :: IsObject(b, a) ==> WellShaped(b[a]))
    && (forall a, t: Addr :: IsObject(b, a) && PointsAt(b[a].cells, t) ==> Proper(b, t))
    && (forall a :: IsObject(b, a) && b[a].kind.WeakReference? ==> SerializedOK(b, b[a]))
    && (forall a, t: Addr :: IsObject(b, a) && IsWeakList(b[a]) && PointsAt(b[a].cells, t) ==> IsDelegate(b, t))
  }

  predicate SerializedOK(b: Blocks, w: Block)
    requires w.kind.WeakReference? && WellShaped(w)
  {
    var s := w.cells[1].addr;
    s != NULL ==> s in b && b[s].kind.Plain?
  }

  /** Only extended weak references ever get a serialized copy. */
  ghost predicate CopiesExtended(b: Blocks) {
    forall a :: IsObject(b, a) && b[a].kind.WeakReference? && |b[a].cells| == 2 && b[a].cells[1] != Ref(NULL) ==>
      b[a].kind.extended
  }

  predicate IsDelegate(b: Blocks, a: int) {
    IsObject(b, a) && b[a].kind.Delegate?
  }

  predicate Weakly(h: Block) {
    h.kind.WeakReference? || IsWeakList(h)
  }

  predicate Live(b: Blocks, cell: Cell) {
    cell.Ref? && cell.addr != NULL ==> cell.addr in b && b[cell.addr].alive
  }

  predicate AllLive(b: Blocks, cells: seq<Cell>) {
    forall i :: 0 <= i < |cells| ==> Live(b, cells[i])
  }

  /** Slots of weak blocks may have been cleared, and marks added; nothing else changed. */
  ghost predicate Weakened(b: Blocks, b': Blocks) {
    && (forall a :: a in b <==> a in b')
    && (forall a :: a in b && a in b' ==> b'[a] == b[a].(alive := b'[a].alive, cells := b'[a].cells))
    && (forall a :: a in b && a in b' && b[a].alive ==> b'[a].alive)
    && (forall a :: a in b && a in b' && !b[a].Occupied() ==> b'[a] == b[a])
    && (forall a :: a in b && a in b' && b'[a].cells != b[a].cells ==> Weakly(b[a]) && Cleared(b[a].cells, b'[a].cells))
  }

  /** Some pointers were replaced by null. */
  ghost predicate Cleared(cells: seq<Cell>, cells': seq<Cell>) {
    |cells'| == |cells| && forall i :: 0 <= i < |cells| ==> cells'[i] == cells[i] || (cells[i].Ref? && cells'[i] == Ref(NULL))
  }

  lemma WeakenedTransitive(b: Blocks, b': Blocks, b'': Blocks)
    requires Weakened(b, b') && Weakened(b', b'')
    ensures Weakened(b, b'')
  {
    forall a | a in b && a in b'' && b''[a].cells != b[a].cells
      ensures Weakly(b[a]) && Cleared(b[a].cells, b''[a].cells)
    {
      assert a in b';
    }
  }

  /** Clearing weak slots keeps the heap well formed. */
  lemma WeakenedGraph(b: Blocks, b': Blocks)
    requires Weakened(b, b') && HeapGraph(b)
    ensures HeapGraph(b')
  {
    assert forall a :: (IsObject(b, a) <==> IsObject(b', a)) && (Proper(b, a) <==> Proper(b', a));
    forall a, t: Addr | IsObject(b', a) && PointsAt(b'[a].cells, t)
      ensures PointsAt(b[a].cells, t) && Proper(b', t) && (IsWeakList(b'[a]) ==> IsDelegate(b', t))
    {
      var i :| 0 <= i < |b'[a].cells| && b'[a].cells[i] == Ref(t);
      assert b[a].cells[i] == Ref(t);
      assert Proper(b, t);
      assert IsWeakList(b[a]) <==> IsWeakList(b'[a]);
      assert IsWeakList(b[a]) ==> IsDelegate(b, t);
    }
    forall a | IsObject(b', a) ensures WellShaped(b'[a]) && (b'[a].kind.WeakReference? ==> SerializedOK(b', b'[a])) {
      assert WellShaped(b[a]);
    }
  }

  /** Marked objects keep their strong targets alive. */
  ghost predicate StrongClosed(b: Blocks) {
    forall a :: IsObject(b, a) && b[a].alive ==> Covered(b, StrongCells(b[a]), [])
  }

  /** Marking one more block without strong targets, or with live ones, keeps the closure. */
  lemma MarkOneMore(b: Blocks, a: int)
    requires a in b && b[a].Occupied() && StrongClosed(b)
    requires Covered(b, StrongCells(b[a]), [])
    ensures StrongClosed(Marked(b, a)) && Weakened(b, Marked(b, a))
  {
    var b' := Marked(b, a);
    forall x | IsObject(b', x) && b'[x].alive ensures Covered(b', StrongCells(b'[x]), []) {
      if x != a {
        assert IsObject(b, x) && Covered(b, StrongCells(b[x]), []);
      }
    }
  }

  function WithCell(b: Blocks, a: int, i: nat, cell: Cell): Blocks
    requires a in b && i < |b[a].cells|
  {
    b[a := b[a].(cells := b[a].cells[i := cell])]
  }

  lemma ClearOne(b: Blocks, a: int, i: nat)
    requires a in b && b[a].Occupied() && i < |b[a].cells| && b[a].cells[i].Ref? && Weakly(b[a]) && StrongClosed(b)
    ensures StrongClosed(WithCell(b, a, i, Ref(NULL))) && Weakened(b, WithCell(b, a, i, Ref(NULL)))
  {
    var b' := WithCell(b, a, i, Ref(NULL));
    forall x | IsObject(b', x) && b'[x].alive ensures Covered(b', StrongCells(b'[x]), []) {
      assert IsObject(b, x) && Covered(b, StrongCells(b[x]), []);
    }
  }

  class WeakPhase {
    const mem: Memory
    var weakReferences: seq<int>

    constructor (mem: Memory, weakReferences: seq<int>)
      ensures this.mem == mem && this.weakReferences == weakReferences
    {
      this.mem := mem;
      this.weakReferences := weakReferences;
    }

    /** MarkWeak for one weak reference: a restored one survives for its serialized copy, a dead one
      * leaves the list; a live one forgets a dead target.  Its serialized copy is sure to survive
      * exactly if the reference is extended, or the copy or the target is alive anyway. */
    method MarkWeakOne(weak: int) returns (keep: bool)
      requires IsObject(mem.blocks, weak) && mem.blocks[weak].kind.WeakReference? && HeapGraph(mem.blocks)
      requires StrongClosed(mem.blocks)
      modifies mem`blocks
      ensures Weakened(old(mem.blocks), mem.blocks) && StrongClosed(mem.blocks)
      ensures keep == mem.blocks[weak].alive
      ensures Restored(old(mem.blocks)[weak]) ==> keep
      ensures WeakEffect(old(mem.blocks), mem.blocks, weak)
      ensures keep ==>
        && Live(mem.blocks, mem.blocks[weak].cells[0])
        && (Live(mem.blocks, mem.blocks[weak].cells[1]) <==>
              mem.blocks[weak].kind.extended || Live(old(mem.blocks), mem.blocks[weak].cells[1])
              || TargetAlive(mem.blocks, old(mem.blocks)[weak].cells[0]))
    {
      hide HeapGraph, StrongClosed, Weakened, WeakEffect, SerializedOK, WellShaped;
      ghost var b0 := mem.blocks;
      WeakSlots(mem.blocks, weak);
      var serialized := mem.blocks[weak].cells[1].addr;
      NothingWeakened(b0);
      if mem.blocks[weak].kind.restored && serialized != NULL {
        MarkLeaf(weak);
      }
      ghost var b1 := mem.blocks;
      keep := mem.blocks[weak].alive;
      if keep && mem.blocks[weak].kind.extended && serialized != NULL && !mem.blocks[serialized].alive {
        MarkLeaf(serialized);
      }
      ghost var b2 := mem.blocks;
      WeakenedTransitive(b0, b1, b2);
      NothingWeakened(b2);
      var direct := mem.blocks[weak].cells[0].addr;
      if keep && direct != NULL {
        if mem.blocks[direct].alive {
          if serialized != NULL && !mem.blocks[serialized].alive {
            MarkLeaf(serialized);
          }
        } else {
          Forget(weak);
        }
      }
      WeakenedTransitive(b0, b2, mem.blocks);
      WeakEffectOf(b0, b1, b2, mem.blocks, weak, serialized, direct);
    }

    /** Marks a block that keeps nothing else alive. */
    method MarkLeaf(a: int)
      requires Proper(mem.blocks, a) && StrongCells(mem.blocks[a]) == [] && StrongClosed(mem.blocks)
      modifies mem`blocks
      ensures mem.blocks == Marked(old(mem.blocks), a) && StrongClosed(mem.blocks) && Weakened(old(mem.blocks), mem.blocks)
    {
      MarkOneMore(mem.blocks, a);
      mem.blocks := mem.blocks[a := mem.blocks[a].(alive := true)];
    }

    /** Clears the target slot of a weak reference. */
    method Forget(weak: int)
      requires weak in mem.blocks && mem.blocks[weak].kind.WeakReference? && StrongClosed(mem.blocks)
      requires |mem.blocks[weak].cells| == 2 && mem.blocks[weak].cells[0].Ref?
      modifies mem`blocks
      ensures mem.blocks == WithCell(old(mem.blocks), weak, 0, Ref(NULL))
      ensures StrongClosed(mem.blocks) && Weakened(old(mem.blocks), mem.blocks)
    {
      ClearOne(mem.blocks, weak, 0);
      mem.blocks := mem.blocks[weak := mem.blocks[weak].(cells := mem.blocks[weak].cells[0 := Ref(NULL)])];
    }

    /** MarkWeak: goes through the list of weak references and unlinks the dead ones. */
    method MarkWeak()
      requires HeapGraph(mem.blocks) && StrongClosed(mem.blocks) && WeakReferencesListed(mem.blocks, weakReferences)
      modifies this`weakReferences, mem`blocks
      ensures Weakened(old(mem.blocks), mem.blocks) && StrongClosed(mem.blocks) && HeapGraph(mem.blocks)
      ensures WeakEffects(old(mem.blocks), mem.blocks)
      ensures forall a :: a in weakReferences <==> a in old(weakReferences) && mem.blocks[a].alive
      ensures forall a :: a in weakReferences ==> WeakSettled(mem.blocks, a)
      ensures forall a :: IsObject(old(mem.blocks), a) && Restored(old(mem.blocks)[a]) ==> a in weakReferences
      ensures KeptOrder(weakReferences, old(weakReferences))
    {
      hide HeapGraph, StrongClosed, Weakened, WeakEffect, WeakEffects, WeakSettled, IsObject, WeakReferencesListed, Processed, RestoredKept, Restored,
        KeptOrder;
      ghost var b0, list, kept, j := mem.blocks, weakReferences, [], 0;
      NothingWeakened(b0);
      NoEffects(b0);
      NothingProcessed(b0, list);
      var k := 0;
      while k < |weakReferences|
        invariant 0 <= k == |kept| && j <= |list| && weakReferences == kept + list[j..]
        invariant Weakened(b0, mem.blocks) && StrongClosed(mem.blocks) && WeakEffects(b0, mem.blocks)
        invariant Processed(mem.blocks, list[..j], kept) && list == old(weakReferences) && RestoredKept(b0, list[..j], kept)
        invariant KeptOrder(kept, list[..j])
        decreases |list| - j
      {
        NextInList(weakReferences, kept, list, j);
        ghost var b := mem.blocks;
        var keep := MarkWeakAt(weakReferences[k], b0, list, j, kept);
        RestoredStep(b0, list[..j], kept, list[j], keep);
        KeptOrderStep(b0, b, list, j, kept);
        if keep {
          k := k + 1;
          kept := kept + [list[j]];
        } else {
          weakReferences := weakReferences[..k] + weakReferences[k + 1..];
        }
        j := j + 1;
      }
      assert list[..j] == list && kept == weakReferences;
      WeakenedGraph(b0, mem.blocks);
      ListedInHeap(b0, mem.blocks, list);
      AllProcessed(mem.blocks, list, weakReferences);
      RestoredListed(b0, list, weakReferences);
    }

    /** One round of MarkWeak. */
    method MarkWeakAt(weak: int, ghost b0: Blocks, ghost list: seq<int>, ghost j: nat, ghost kept: seq<int>)
      returns (keep: bool)
      requires WeakReferencesListed(b0, list) && HeapGraph(b0) && j < |list| && weak == list[j]
      requires Weakened(b0, mem.blocks) && StrongClosed(mem.blocks) && WeakEffects(b0, mem.blocks)
      requires Processed(mem.blocks, list[..j], kept)
      modifies mem`blocks
      ensures Weakened(b0, mem.blocks) && StrongClosed(mem.blocks) && WeakEffects(b0, mem.blocks)
      ensures Processed(mem.blocks, list[..j] + [weak], if keep then kept + [weak] else kept)
      ensures weak in b0 && (Restored(b0[weak]) ==> keep)
    {
      hide HeapGraph, StrongClosed, Weakened, WeakEffect, WeakEffects, WeakSettled, IsObject, Processed, WeakReferencesListed;
      ghost var b := mem.blocks;
      WeakenedGraph(b0, b);
      ListedWeak(b0, b, list, j);
      StillRestored(b0, b, weak);
      keep := MarkWeakOne(weak);
      WeakenedTransitive(b0, b, mem.blocks);
      EffectsStep(b0, b, mem.blocks, weak);
      Settle(mem.blocks, b, weak);
      ProcessedStep(b0, b, mem.blocks, list, j, kept);
    }

    /** The first half of Sweep: the slots of the reachable weak delegate lists.  A delegate whose
      * target is dead is removed from the list, any other one is kept alive by it. */
    method SweepDelegates(weakDelegates: seq<int>)
      requires HeapGraph(mem.blocks) && StrongClosed(mem.blocks) && WeakLists(mem.blocks, weakDelegates)
      modifies mem`blocks
      ensures Weakened(old(mem.blocks), mem.blocks) && StrongClosed(mem.blocks) && HeapGraph(mem.blocks)
      ensures DelegateEffects(old(mem.blocks), mem.blocks)
      ensures forall w :: w in weakDelegates ==> w in mem.blocks && AllLive(mem.blocks, mem.blocks[w].cells)
    {
      hide HeapGraph, StrongClosed, Weakened, DelegateEffects, AllLive, WeakLists;
      ghost var b0 := mem.blocks;
      NothingWeakened(b0);
      NoDelegateEffects(b0);
      var k := 0;
      while k < |weakDelegates|
        invariant 0 <= k <= |weakDelegates|
        invariant Weakened(b0, mem.blocks) && StrongClosed(mem.blocks) && DelegateEffects(b0, mem.blocks)
        invariant forall j :: 0 <= j < k ==> weakDelegates[j] in mem.blocks && AllLive(mem.blocks, mem.blocks[weakDelegates[j]].cells)
      {
        ghost var b := mem.blocks;
        WeakListAt(b0, b, weakDelegates, k);
        var w := weakDelegates[k];
        var i := 0;
        NothingWeakened(b);
        while i < |mem.blocks[w].cells|
          invariant IsObject(mem.blocks, w) && IsWeakList(mem.blocks[w]) && i <= |mem.blocks[w].cells| && mem.blocks[w].alive
          invariant Weakened(b0, mem.blocks) && StrongClosed(mem.blocks) && DelegateEffects(b0, mem.blocks)
          invariant Weakened(b, mem.blocks) && forall j :: 0 <= j < i ==> Live(mem.blocks, mem.blocks[w].cells[j])
          decreases |mem.blocks[w].cells| - i
        {
          ghost var b1 := mem.blocks;
          WeakenedGraph(b0, b1);
          SweepSlot(w, i);
          SlotStep(b0, b, b1, mem.blocks, w, i);
          i := i + 1;
        }
        ListDone(b, mem.blocks, weakDelegates, k);
        k := k + 1;
      }
      WeakenedGraph(b0, mem.blocks);
    }

    method SweepSlot(w: int, i: nat)
      requires IsObject(mem.blocks, w) && IsWeakList(mem.blocks[w]) && i < |mem.blocks[w].cells|
      requires HeapGraph(mem.blocks) && StrongClosed(mem.blocks)
      modifies mem`blocks
      ensures Weakened(old(mem.blocks), mem.blocks) && StrongClosed(mem.blocks)
      ensures w in mem.blocks && i < |mem.blocks[w].cells| && SlotEffect(old(mem.blocks), mem.blocks, w, i)
    {
      hide HeapGraph, StrongClosed, Weakened;
      NothingWeakened(mem.blocks);
      var slot := mem.blocks[w].cells[i];
      if slot.Ref? && slot.addr != NULL {
        DelegateSlot(mem.blocks, w, i);
        var dlg := slot.addr;
        var target := mem.blocks[dlg].cells[0];
        if target.Ref? && target.addr != NULL && !mem.blocks[target.addr].alive {
          ClearOne(mem.blocks, w, i);
          mem.blocks := mem.blocks[w := mem.blocks[w].(cells := mem.blocks[w].cells[i := Ref(NULL)])];
        } else {
          MarkOneMore(mem.blocks, dlg);
          mem.blocks := mem.blocks[dlg := mem.blocks[dlg].(alive := true)];
        }
      }
    }
  }

  /** Lists the marker put aside. */
  ghost predicate WeakLists(b: Blocks, weak: seq<int>) {
    forall k :: 0 <= k < |weak| ==> IsObject(b, weak[k]) && IsWeakList(b[weak[k]]) && b[weak[k]].alive
  }

  /** The delegate in a slot has a dead target. */
  predicate ObjectDead(b: Blocks, cell: Cell) {
    cell.Ref? && cell.addr in b && b[cell.addr].cells != [] &&
    var target := b[cell.addr].cells[0];
    target.Ref? && target.addr != NULL && target.addr in b && !b[target.addr].alive
  }

  /** One slot: null, or cleared because of a dead target, or its delegate is marked. */
  ghost predicate SlotEffect(b: Blocks, b': Blocks, w: int, i: nat)
    requires w in b && i < |b[w].cells|
  {
    var slot := b[w].cells[i];
    if slot.Ref? && slot.addr != NULL then
      slot.addr in b &&
      if ObjectDead(b, slot) then b' == WithCell(b, w, i, Ref(NULL))
      else b' == Marked(b, slot.addr) && IsDelegate(b, slot.addr)
    else b' == b
  }

  /** What sweeping the weak delegate lists changes. */
  ghost predicate DelegateEffects(b: Blocks, b': Blocks) {
    && (forall a, i: nat :: a in b && a in b' && i < |b[a].cells| && i < |b'[a].cells| && b'[a].cells[i] != b[a].cells[i] ==>
          IsWeakList(b[a]) && IsObject(b, a) && ObjectDead(b, b[a].cells[i]))
    && (forall a :: a in b && a in b' && b'[a].alive && !b[a].alive ==> IsDelegate(b, a) && InLiveList(b', a))
  }

  /** A live weak delegate list holds the delegate. */
  ghost predicate InLiveList(b: Blocks, a: int) {
    && 0 < a < ADDRESS_SPACE
    && exists w :: w in b && IsWeakList(b[w]) && b[w].alive && PointsAt(b[w].cells, a)
  }

  lemma NoDelegateEffects(b: Blocks)
    ensures DelegateEffects(b, b)
  {
  }

  lemma WeakListAt(b0: Blocks, b: Blocks, weak: seq<int>, k: nat)
    requires WeakLists(b0, weak) && Weakened(b0, b) && k < |weak|
    ensures weak[k] in b && IsObject(b, weak[k]) && IsWeakList(b[weak[k]]) && b[weak[k]].alive
  {
  }

  /** The delegate in a slot of a weak list, and its target. */
  lemma DelegateSlot(b: Blocks, w: int, i: nat)
    requires HeapGraph(b) && IsObject(b, w) && IsWeakList(b[w]) && i < |b[w].cells|
    requires b[w].cells[i].Ref? && b[w].cells[i].addr != NULL
    ensures var dlg := b[w].cells[i].addr;
      && dlg != w && IsDelegate(b, dlg) && b[dlg].cells != [] && StrongCells(b[dlg]) == [b[dlg].cells[0]]
      && (b[dlg].cells[0].Ref? && b[dlg].cells[0].addr != NULL ==> b[dlg].cells[0].addr in b)
      && (!ObjectDead(b, b[w].cells[i]) ==> Covered(b, StrongCells(b[dlg]), []))
  {
    var dlg := b[w].cells[i].addr;
    assert PointsAt(b[w].cells, dlg);
    assert IsDelegate(b, dlg) && WellShaped(b[dlg]);
    var target := b[dlg].cells[0];
    if target.Ref? && target.addr != NULL {
      assert target in b[dlg].cells && target == Ref(target.addr);
      assert PointsAt(b[dlg].cells, target.addr) && Proper(b, target.addr);
    }
  }

  lemma SlotStep(b0: Blocks, b: Blocks, b1: Blocks, b2: Blocks, w: int, i: nat)
    requires Weakened(b0, b1) && Weakened(b, b1) && Weakened(b1, b2) && StrongClosed(b1)
    requires DelegateEffects(b0, b1) && IsObject(b1, w) && IsWeakList(b1[w]) && b1[w].alive && i < |b1[w].cells|
    requires SlotEffect(b1, b2, w, i) && forall j :: 0 <= j < i ==> Live(b1, b1[w].cells[j])
    ensures w in b2 && Weakened(b0, b2) && Weakened(b, b2) && DelegateEffects(b0, b2)
    ensures IsObject(b2, w) && IsWeakList(b2[w]) && b2[w].alive && |b2[w].cells| == |b1[w].cells|
    ensures forall j :: 0 <= j <= i ==> Live(b2, b2[w].cells[j])
  {
    WeakenedTransitive(b0, b1, b2);
    WeakenedTransitive(b, b1, b2);
    SlotClears(b0, b1, b2, w, i);
    SlotMarks(b0, b1, b2, w, i);
    hide DelegateEffects, StrongClosed;
    SlotLive(b1, b2, w, i);
  }

  lemma SlotLive(b1: Blocks, b2: Blocks, w: int, i: nat)
    requires Weakened(b1, b2) && w in b1 && IsWeakList(b1[w]) && i < |b1[w].cells| && SlotEffect(b1, b2, w, i)
    requires IsObject(b1, w) && b1[w].alive && forall j :: 0 <= j < i ==> Live(b1, b1[w].cells[j])
    ensures IsObject(b2, w) && IsWeakList(b2[w]) && b2[w].alive && |b2[w].cells| == |b1[w].cells|
    ensures forall j :: 0 <= j <= i ==> Live(b2, b2[w].cells[j])
  {
    forall j | 0 <= j <= i ensures Live(b2, b2[w].cells[j]) {
      if j < i {
        assert Live(b1, b1[w].cells[j]);
      }
    }
  }

  lemma SlotClears(b0: Blocks, b1: Blocks, b2: Blocks, w: int, i: nat)
    requires Weakened(b0, b1) && DelegateEffects(b0, b1) && IsObject(b1, w) && IsWeakList(b1[w]) && i < |b1[w].cells|
    requires SlotEffect(b1, b2, w, i)
    ensures forall a, k: nat :: a in b0 && a in b2 && k < |b0[a].cells| && k < |b2[a].cells| && b2[a].cells[k] != b0[a].cells[k] ==>
      IsWeakList(b0[a]) && IsObject(b0, a) && ObjectDead(b0, b0[a].cells[k])
  {
    forall a, k: nat | a in b0 && a in b2 && k < |b0[a].cells| && k < |b2[a].cells| && b2[a].cells[k] != b0[a].cells[k]
      ensures IsWeakList(b0[a]) && IsObject(b0, a) && ObjectDead(b0, b0[a].cells[k])
    {
      if b1[a].cells[k] == b0[a].cells[k] {
        assert a == w && k == i && ObjectDead(b1, b1[w].cells[i]);
        var dlg := b1[w].cells[i].addr;
        assert b1[dlg].cells[0] == b0[dlg].cells[0];
      }
    }
  }

  lemma SlotMarks(b0: Blocks, b1: Blocks, b2: Blocks, w: int, i: nat)
    requires Weakened(b0, b1) && Weakened(b1, b2) && StrongClosed(b1) && DelegateEffects(b0, b1)
    requires IsObject(b1, w) && IsWeakList(b1[w]) && b1[w].alive && i < |b1[w].cells|
    requires SlotEffect(b1, b2, w, i)
    ensures forall a :: a in b0 && a in b2 && b2[a].alive && !b0[a].alive ==> IsDelegate(b0, a) && InLiveList(b2, a)
  {
    forall a | a in b0 && a in b2 && b2[a].alive && !b0[a].alive ensures IsDelegate(b0, a) && InLiveList(b2, a) {
      if b1[a].alive {
        assert IsDelegate(b0, a) && InLiveList(b1, a);
        var v :| v in b1 && IsWeakList(b1[v]) && b1[v].alive && PointsAt(b1[v].cells, a);
        StillListed(b1, b2, w, i, v, a);
      } else {
        assert a == b1[w].cells[i].addr && PointsAt(b2[w].cells, a);
      }
    }
  }

  /** The slot of a live delegate is never cleared. */
  lemma StillListed(b1: Blocks, b2: Blocks, w: int, i: nat, v: int, a: Addr)
    requires StrongClosed(b1) && Weakened(b1, b2) && w in b1 && i < |b1[w].cells| && SlotEffect(b1, b2, w, i)
    requires a in b1 && IsObject(b1, a) && b1[a].kind.Delegate? && b1[a].alive
    requires v in b1 && IsWeakList(b1[v]) && b1[v].alive && PointsAt(b1[v].cells, a)
    ensures InLiveList(b2, a)
  {
    if ObjectDead(b1, Ref(a)) {
      assert Covered(b1, StrongCells(b1[a]), []);
      assert PointsAt(StrongCells(b1[a]), b1[a].cells[0].addr);
      assert false;
    }
    var k :| 0 <= k < |b1[v].cells| && b1[v].cells[k] == Ref(a);
    assert b2[v].cells[k] == Ref(a);
    assert PointsAt(b2[v].cells, a);
  }

  lemma ListDone(b: Blocks, b': Blocks, weak: seq<int>, k: nat)
    requires Weakened(b, b') && k < |weak| && weak[k] in b'
    requires forall j :: 0 <= j < |b'[weak[k]].cells| ==> Live(b', b'[weak[k]].cells[j])
    requires forall j :: 0 <= j < k ==> weak[j] in b && AllLive(b, b[weak[j]].cells)
    ensures forall j :: 0 <= j <= k ==> weak[j] in b' && AllLive(b', b'[weak[j]].cells)
  {
    forall j | 0 <= j <= k ensures weak[j] in b' && AllLive(b', b'[weak[j]].cells) {
      if j < k {
        LiveStays(b, b', weak[j]);
      }
    }
  }

  lemma LiveStays(b: Blocks, b': Blocks, a: int)
    requires Weakened(b, b') && a in b && AllLive(b, b[a].cells)
    ensures a in b' && AllLive(b', b'[a].cells)
  {
    forall i | 0 <= i < |b'[a].cells| ensures Live(b', b'[a].cells[i]) {
      assert b'[a].cells != b[a].cells ==> Cleared(b[a].cells, b'[a].cells);
      assert Live(b, b[a].cells[i]);
    }
  }

  predicate TargetAlive(b: Blocks, cell: Cell) {
    cell.Ref? && cell.addr != NULL && cell.addr in b && b[cell.addr].alive
  }

  /** What one weak reference changes: its own mark if restored, the mark of its serialized copy,
    * and its target slot if the target is unmarked. */
  ghost predicate WeakEffect(b: Blocks, b': Blocks, weak: int) {
    weak in b && weak in b' && |b[weak].cells| == 2 && |b'[weak].cells| == 2 &&
    b[weak].cells[0].Ref? && b[weak].cells[1].Ref? &&
    var s, d := b[weak].cells[1].addr, b[weak].cells[0].addr;
    && (forall a :: a in b && a in b' && a != weak ==> b'[a].cells == b[a].cells)
    && b'[weak].cells[1] == b[weak].cells[1]
    && (b'[weak].cells[0] != b[weak].cells[0] ==> d in b && !b[d].alive)
    && (forall a :: a in b && a in b' && b'[a].alive && !b[a].alive ==>
          || (a == weak && b[a].kind.WeakReference? && b[a].kind.restored && s != NULL)
          || (a == s && s != NULL && b[a].kind.Plain? && b'[weak].alive))
  }

  lemma NothingWeakened(b: Blocks)
    ensures Weakened(b, b)
  {
  }

  /** The slots of a weak reference, and that marking it or its copy needs nothing else. */
  lemma WeakSlots(b: Blocks, weak: int)
    requires IsObject(b, weak) && b[weak].kind.WeakReference? && HeapGraph(b)
    ensures WellShaped(b[weak]) && StrongCells(b[weak]) == []
    ensures var s, d := b[weak].cells[1].addr, b[weak].cells[0].addr;
      && (s != NULL ==> Proper(b, s) && b[s].kind.Plain? && StrongCells(b[s]) == [] && s != weak)
      && (d != NULL ==> Proper(b, d))
  {
    assert WellShaped(b[weak]);
    var s, d := b[weak].cells[1].addr, b[weak].cells[0].addr;
    assert s != NULL ==> PointsAt(b[weak].cells, s);
    assert d != NULL ==> PointsAt(b[weak].cells, d);
    assert SerializedOK(b, b[weak]);
  }

  /** The three steps of MarkWeakOne, taken together. */
  lemma WeakEffectOf(b0: Blocks, b1: Blocks, b2: Blocks, b3: Blocks, weak: int, s: Addr, d: Addr)
    requires weak in b0 && b0[weak].kind.WeakReference? && b0[weak].cells == [Ref(d), Ref(s)]
    requires s != NULL ==> s in b0 && b0[s].kind.Plain? && s != weak
    requires d != NULL ==> d in b0
    requires b1 == if b0[weak].kind.restored && s != NULL then Marked(b0, weak) else b0
    requires b2 == if b1[weak].alive && b1[weak].kind.extended && s != NULL && !b1[s].alive then Marked(b1, s) else b1
    requires b3 == if b1[weak].alive && d != NULL && !b2[d].alive then WithCell(b2, weak, 0, Ref(NULL))
                   else if b1[weak].alive && d != NULL && s != NULL && !b2[s].alive then Marked(b2, s) else b2
    ensures WeakEffect(b0, b3, weak) && b3[weak].alive == b1[weak].alive
    ensures b3[weak].alive ==>
      && Live(b3, b3[weak].cells[0])
      && (Live(b3, b3[weak].cells[1]) <==>
            b0[weak].kind.extended || Live(b0, b0[weak].cells[1]) || TargetAlive(b3, b0[weak].cells[0]))
  {
  }

  /** The list holds every weak reference of the heap, once. */
  ghost predicate WeakReferencesListed(b: Blocks, list: seq<int>) {
    && (forall k :: 0 <= k < |list| ==> IsObject(b, list[k]) && b[list[k]].kind.WeakReference?)
    && (forall a :: IsObject(b, a) && b[a].kind.WeakReference? ==> a in list)
    && (forall j, k :: 0 <= j < k < |list| ==> list[j] != list[k])
  }

  /** A live weak reference has a live target or none, and a live copy if it is extended. */
  ghost predicate WeakSettled(b: Blocks, a: int) {
    && a in b && b[a].alive && |b[a].cells| == 2
    && Live(b, b[a].cells[0]) && (b[a].kind.WeakReference? && b[a].kind.extended ==> Live(b, b[a].cells[1]))
  }

  /** The kept references are the live ones, and settled. */
  ghost predicate Processed(b: Blocks, done: seq<int>, kept: seq<int>) {
    && (forall a :: a in done ==> a in b)
    && (forall a :: a in kept <==> a in done && b[a].alive)
    && (forall a :: a in kept ==> WeakSettled(b, a))
  }

  /** Restored references are never dropped. */
  ghost predicate RestoredKept(b0: Blocks, done: seq<int>, kept: seq<int>) {
    forall a :: a in done && a in b0 && Restored(b0[a]) ==> a in kept
  }

  /** Some entries of a list, in their order, none twice. */
  predicate KeptOrder(some: seq<int>, list: seq<int>) {
    NoRepeats(some) && InOrder(some, list)
  }

  predicate InOrder(some: seq<int>, list: seq<int>) {
    || some == []
    || (list != [] &&
        var n := |list| - 1;
        || InOrder(some, list[..n])
        || (some[|some| - 1] == list[n] && InOrder(some[..|some| - 1], list[..n])))
  }

  predicate NoRepeats(s: seq<int>) {
    forall j, k :: 0 <= j < k < |s| ==> s[j] != s[k]
  }

  lemma KeptOrderStep(b0: Blocks, b: Blocks, list: seq<int>, j: nat, kept: seq<int>)
    requires WeakReferencesListed(b0, list) && j < |list| && Processed(b, list[..j], kept) && KeptOrder(kept, list[..j])
    ensures KeptOrder(kept, list[..j] + [list[j]]) && KeptOrder(kept + [list[j]], list[..j] + [list[j]])
  {
    forall i | 0 <= i < |kept| ensures kept[i] != list[j] {
      var a := kept[i];
      assert a in kept;
      assert a in list[..j];
    }
    InOrderStep(kept, list[..j], list[j]);
  }

  lemma InOrderStep(some: seq<int>, list: seq<int>, x: int)
    requires InOrder(some, list)
    ensures InOrder(some, list + [x]) && InOrder(some + [x], list + [x])
  {
    assert (list + [x])[..|list|] == list && (some + [x])[..|some|] == some;
  }

  lemma RestoredStep(b0: Blocks, done: seq<int>, kept: seq<int>, weak: int, keep: bool)
    requires RestoredKept(b0, done, kept) && (weak in b0 && Restored(b0[weak]) ==> keep)
    ensures RestoredKept(b0, done + [weak], if keep then kept + [weak] else kept)
  {
  }

  lemma RestoredListed(b0: Blocks, list: seq<int>, kept: seq<int>)
    requires WeakReferencesListed(b0, list) && RestoredKept(b0, list, kept)
    ensures forall a :: IsObject(b0, a) && Restored(b0[a]) ==> a in kept
  {
  }

  /** What MarkWeak changes altogether. */
  ghost predicate WeakEffects(b: Blocks, b': Blocks) {
    && (forall a :: a in b && a in b' && b'[a].cells != b[a].cells ==>
          b[a].kind.WeakReference? && IsObject(b, a) && TargetDead(b, b[a], b'[a]))
    && (forall a :: a in b && a in b' && b'[a].alive && !b[a].alive ==> Restored(b[a]) || IsCopy(b', a))
  }

  /** The target slot was cleared because its target was unmarked. */
  predicate TargetDead(b: Blocks, h: Block, h': Block) {
    && |h.cells| == 2 == |h'.cells| && h'.cells[1] == h.cells[1]
    && h.cells[0].Ref? && h.cells[0].addr in b && !b[h.cells[0].addr].alive
  }

  predicate Restored(h: Block) {
    h.kind.WeakReference? && h.kind.restored && |h.cells| == 2 && h.cells[1] != Ref(NULL)
  }

  /** `a` is the serialized copy of a live weak reference. */
  ghost predicate IsCopy(b: Blocks, a: int) {
    && a in b && b[a].kind.Plain? && 0 < a < ADDRESS_SPACE
    && exists w :: w in b && b[w].kind.WeakReference? && b[w].alive && |b[w].cells| == 2 && b[w].cells[1] == Ref(a)
  }

  lemma NoEffects(b: Blocks)
    ensures WeakEffects(b, b)
  {
  }

  lemma NextInList(rest: seq<int>, kept: seq<int>, list: seq<int>, j: nat)
    requires j <= |list| && rest == kept + list[j..] && |kept| < |rest|
    ensures j < |list| && rest[|kept|] == list[j] && list[..j + 1] == list[..j] + [list[j]]
    ensures rest[..|kept|] + rest[|kept| + 1..] == kept + list[j + 1..]
    ensures rest == kept + [list[j]] + list[j + 1..]
  {
  }

  lemma NothingProcessed(b: Blocks, list: seq<int>)
    ensures list[..0] == [] && Processed(b, [], []) && RestoredKept(b, [], []) && KeptOrder([], []) && [] + list[0..] == list
  {
  }

  lemma AllProcessed(b: Blocks, list: seq<int>, kept: seq<int>)
    requires Processed(b, list, kept)
    ensures forall a :: a in list ==> a in b
    ensures forall a :: a in kept <==> a in list && b[a].alive
    ensures forall a :: a in kept ==> WeakSettled(b, a)
  {
  }

  /** The serialized copy of a restored reference is not touched before its turn. */
  lemma StillRestored(b0: Blocks, b: Blocks, weak: int)
    requires Weakened(b0, b) && WeakEffects(b0, b) && weak in b
    ensures weak in b0 && (Restored(b0[weak]) ==> Restored(b[weak]))
  {
  }

  lemma ListedWeak(b0: Blocks, b: Blocks, list: seq<int>, j: nat)
    requires WeakReferencesListed(b0, list) && Weakened(b0, b) && j < |list|
    ensures list[j] in b && IsObject(b, list[j]) && b[list[j]].kind.WeakReference?
  {
  }

  lemma ListedInHeap(b0: Blocks, b: Blocks, list: seq<int>)
    requires WeakReferencesListed(b0, list) && Weakened(b0, b)
    ensures forall a :: a in list ==> a in b
  {
  }

  lemma EffectsStep(b0: Blocks, b: Blocks, b': Blocks, weak: int)
    requires WeakEffects(b0, b) && WeakEffect(b, b', weak) && Weakened(b0, b) && Weakened(b, b')
    requires weak in b && b[weak].kind.WeakReference? && IsObject(b, weak)
    ensures WeakEffects(b0, b')
  {
    forall a | a in b0 && a in b' && b'[a].alive && !b0[a].alive ensures Restored(b0[a]) || IsCopy(b', a) {
      NewlyMarked(b0, b, b', weak, a);
    }
    forall a | a in b0 && a in b' && b'[a].cells != b0[a].cells
      ensures b0[a].kind.WeakReference? && IsObject(b0, a) && TargetDead(b0, b0[a], b'[a])
    {
      assert a in b;
    }
  }

  lemma NewlyMarked(b0: Blocks, b: Blocks, b': Blocks, weak: int, a: int)
    requires WeakEffects(b0, b) && WeakEffect(b, b', weak) && Weakened(b0, b) && Weakened(b, b')
    requires weak in b && b[weak].kind.WeakReference?
    requires a in b0 && a in b' && b'[a].alive && !b0[a].alive
    ensures Restored(b0[a]) || IsCopy(b', a)
  {
    if b[a].alive {
      if IsCopy(b, a) {
        var w :| w in b && b[w].kind.WeakReference? && b[w].alive && |b[w].cells| == 2 && b[w].cells[1] == Ref(a);
        assert w in b' && b'[w].alive && b'[w].cells[1] == b[w].cells[1];
      }
    } else if a == weak {
      assert b[a].cells != b0[a].cells ==> TargetDead(b0, b0[a], b[a]);
    } else {
      assert b'[weak].cells[1] == Ref(a);
    }
  }

  lemma Settle(b': Blocks, b: Blocks, weak: int)
    requires weak in b && b[weak].kind.WeakReference? && Weakened(b, b') && WeakEffect(b, b', weak)
    requires b'[weak].alive ==>
      && Live(b', b'[weak].cells[0]) && (b'[weak].kind.extended ==> Live(b', b'[weak].cells[1]))
    ensures b'[weak].alive ==> WeakSettled(b', weak)
  {
  }

  lemma ProcessedStep(b0: Blocks, b: Blocks, b': Blocks, list: seq<int>, j: nat, kept: seq<int>)
    requires WeakReferencesListed(b0, list) && j < |list| && Weakened(b0, b) && Weakened(b, b')
    requires Processed(b, list[..j], kept) && WeakEffect(b, b', list[j])
    requires b'[list[j]].alive ==> WeakSettled(b', list[j])
    ensures Processed(b', list[..j] + [list[j]], if b'[list[j]].alive then kept + [list[j]] else kept)
  {
    var weak := list[j];
    forall a | a in list[..j] ensures a in b' && b'[a].alive == b[a].alive && a != weak && b'[a].cells == b[a].cells {
      var i :| 0 <= i < j && list[i] == a;
      assert b0[a].kind.WeakReference?;
    }
    forall a | a in kept ensures WeakSettled(b', a) {
      assert a in list[..j] && WeakSettled(b, a);
    }
  }
}
