/** The balanced tree over linked entries, rotated in place. */
module AvlTrees {
  import opened AvlShapes

  class Entry {
    var left: Entry?
    var right: Entry?
    var skew: Skew
    var key: int
    var value: int

    constructor (key: int, value: int)
      ensures left == null && right == null && skew == SkewNone && this.key == key && this.value == value
    {
      left, right, skew := null, null, SkewNone;
      this.key, this.value := key, value;
    }
  }

  ghost function Entries(t: Shape<Entry>): set<Entry> {
    if t.Leaf? then {} else {t.node} + Entries(t.left) + Entries(t.right)
  }

  /** The entries reachable from `n` are exactly those of `t`, each once. */
  ghost predicate Is(n: Entry?, t: Shape<Entry>)
    reads Entries(t)
  {
    if t.Leaf? then n == null
    else
      && n == t.node && n.key == t.key && n.value == t.value && n.skew == t.skew
      && n !in Entries(t.left) && n !in Entries(t.right) && Entries(t.left) !! Entries(t.right)
      && Is(n.left, t.left) && Is(n.right, t.right)
  }

  /** One step of the definition. */
  lemma Open(n: Entry?, t: Shape<Entry>)
    requires Is(n, t) && t.Node?
    ensures n == t.node && n.skew == t.skew && n.key == t.key && n.value == t.value
    ensures Is(n.left, t.left) && Is(n.right, t.right)
    ensures n.left == null <==> t.left.Leaf?
    ensures n.right == null <==> t.right.Leaf?
    ensures Entries(t) == {n} + Entries(t.left) + Entries(t.right)
    ensures n !in Entries(t.left) && n !in Entries(t.right) && Entries(t.left) !! Entries(t.right)
  {
  }

  lemma Close(n: Entry?, t: Shape<Entry>)
    requires t.Node? && n == t.node && n.skew == t.skew && n.key == t.key && n.value == t.value
    requires Is(n.left, t.left) && Is(n.right, t.right)
    requires n !in Entries(t.left) && n !in Entries(t.right) && Entries(t.left) !! Entries(t.right)
    ensures Is(n, t) && Entries(t) == {n} + Entries(t.left) + Entries(t.right)
  {
  }

  method RotateLeft(n: Entry, ghost t: Shape<Entry>) returns (n': Entry)
    requires Is(n, t) && t.Node? && t.right.Node?
    modifies n, n.right
    ensures Is(n', RotatedLeft(t)) && Entries(RotatedLeft(t)) == Entries(t)
  {
    var bottom := n.right;
    n.right := bottom.left;
    bottom.left := n;
    n' := bottom;
  }

  method RotateRight(n: Entry, ghost t: Shape<Entry>) returns (n': Entry)
    requires Is(n, t) && t.Node? && t.left.Node?
    modifies n, n.left
    ensures Is(n', RotatedRight(t)) && Entries(RotatedRight(t)) == Entries(t)
  {
    var bottom := n.left;
    n.left := bottom.right;
    bottom.right := n;
    n' := bottom;
  }

  /** The skews around a double rotation: the middle node hands its subtrees to the other two. */
  method SetSkews(middle: Entry, n: Entry, child: Entry, towards: Skew, away: Skew)
    requires middle != n && middle != child && n != child && towards != away && towards != SkewNone && away != SkewNone
    modifies middle`skew, n`skew, child`skew
    ensures middle.skew == SkewNone
    ensures n.skew == if old(middle.skew) == towards then away else SkewNone
    ensures child.skew == if old(middle.skew) == away then towards else SkewNone
  {
    if middle.skew == towards {
      n.skew := away;
      child.skew := SkewNone;
    } else if middle.skew == away {
      n.skew := SkewNone;
      child.skew := towards;
    } else {
      n.skew := SkewNone;
      child.skew := SkewNone;
    }
    middle.skew := SkewNone;
  }

  /** The double rotation of LeftGrown and RightShrunk. */
  method RotateLeftRight(n: Entry, ghost t: Shape<Entry>) returns (n': Entry)
    requires Is(n, t) && t.Node? && t.left.Node? && t.left.right.Node?
    modifies Entries(t)
    ensures Is(n', LeftRight(t)) && Entries(LeftRight(t)) == Entries(t)
  {
    hide Is, Entries;
    Open(n, t);
    Open(n.left, t.left);
    Open(n.left.right, t.left.right);
    var left := n.left;
    var right := left.right;
    assert allocated(t.right) && allocated(Entries(t.right)) && allocated(t.left) && allocated(Entries(t.left.left));
    assert allocated(Entries(t.left.right.left)) && allocated(Entries(t.left.right.right));
    SetSkews(right, n, left, SkewLeft, SkewRight);
    ghost var middle := t.left.right;
    ghost var l := t.left.(skew := left.skew, right := middle.(skew := SkewNone));
    ghost var top := t.(skew := n.skew, left := l);
    Close(right, l.right);
    Close(left, l);
    assert allocated(t.right) && allocated(Entries(t.right));
    n.left := RotateLeft(left, l);
    Close(n, top.(left := RotatedLeft(l)));
    n' := RotateRight(n, top.(left := RotatedLeft(l)));
  }

  method RotateRightLeft(n: Entry, ghost t: Shape<Entry>) returns (n': Entry)
    requires Is(n, t) && t.Node? && t.right.Node? && t.right.left.Node?
    modifies Entries(t)
    ensures Is(n', RightLeft(t)) && Entries(RightLeft(t)) == Entries(t)
  {
    hide Is, Entries;
    Open(n, t);
    Open(n.right, t.right);
    Open(n.right.left, t.right.left);
    var right := n.right;
    var left := right.left;
    assert allocated(t.left) && allocated(Entries(t.left)) && allocated(t.right) && allocated(Entries(t.right.right));
    assert allocated(Entries(t.right.left.left)) && allocated(Entries(t.right.left.right));
    SetSkews(left, n, right, SkewRight, SkewLeft);
    ghost var middle := t.right.left;
    ghost var r := t.right.(skew := right.skew, left := middle.(skew := SkewNone));
    ghost var top := t.(skew := n.skew, right := r);
    Close(left, r.left);
    Close(right, r);
    assert allocated(t.left) && allocated(Entries(t.left));
    n.right := RotateRight(right, r);
    Close(n, top.(right := RotatedRight(r)));
    n' := RotateLeft(n, top.(right := RotatedRight(r)));
  }

  method LeftGrow(n: Entry, ghost t: Shape<Entry>) returns (n': Entry, res: Result)
    requires Is(n, t) && LeftDeep(t)
    modifies Entries(t)
    ensures Is(n', LeftGrown(t).0) && res == LeftGrown(t).1 && Entries(LeftGrown(t).0) == Entries(t)
  {
    match n.skew {
      case SkewLeft =>
        var left := n.left;
        if left.skew == SkewLeft {
          n.skew := SkewNone;
          left.skew := SkewNone;
          n' := RotateRight(n, t.(skew := SkewNone, left := t.left.(skew := SkewNone)));
        } else {
          n' := RotateLeftRight(n, t);
        }
        return n', Ok;
      case SkewRight =>
        n.skew := SkewNone;
        return n, Ok;
      case SkewNone =>
        n.skew := SkewLeft;
        return n, Balance;
    }
  }

  method RightGrow(n: Entry, ghost t: Shape<Entry>) returns (n': Entry, res: Result)
    requires Is(n, t) && RightDeep(t)
    modifies Entries(t)
    ensures Is(n', RightGrown(t).0) && res == RightGrown(t).1 && Entries(RightGrown(t).0) == Entries(t)
  {
    match n.skew {
      case SkewLeft =>
        n.skew := SkewNone;
        return n, Ok;
      case SkewRight =>
        var right := n.right;
        if right.skew == SkewRight {
          n.skew := SkewNone;
          right.skew := SkewNone;
          n' := RotateLeft(n, t.(skew := SkewNone, right := t.right.(skew := SkewNone)));
        } else {
          n' := RotateRightLeft(n, t);
        }
        return n', Ok;
      case SkewNone =>
        n.skew := SkewRight;
        return n, Balance;
    }
  }

  method LeftShrink(n: Entry, ghost t: Shape<Entry>) returns (n': Entry, res: Result)
    requires Is(n, t) && RightTall(t)
    modifies Entries(t)
    ensures Is(n', LeftShrunk(t).0) && res == LeftShrunk(t).1 && Entries(LeftShrunk(t).0) == Entries(t)
  {
    match n.skew {
      case SkewLeft =>
        n.skew := SkewNone;
        return n, Balance;
      case SkewRight =>
        var right := n.right;
        if right.skew == SkewRight {
          n.skew := SkewNone;
          right.skew := SkewNone;
          n' := RotateLeft(n, t.(skew := SkewNone, right := t.right.(skew := SkewNone)));
          return n', Balance;
        } else if right.skew == SkewNone {
          n.skew := SkewRight;
          right.skew := SkewLeft;
          n' := RotateLeft(n, t.(skew := SkewRight, right := t.right.(skew := SkewLeft)));
          return n', Ok;
        } else {
          n' := RotateRightLeft(n, t);
          return n', Balance;
        }
      case SkewNone =>
        n.skew := SkewRight;
        return n, Ok;
    }
  }

  method RightShrink(n: Entry, ghost t: Shape<Entry>) returns (n': Entry, res: Result)
    requires Is(n, t) && LeftTall(t)
    modifies Entries(t)
    ensures Is(n', RightShrunk(t).0) && res == RightShrunk(t).1 && Entries(RightShrunk(t).0) == Entries(t)
  {
    match n.skew {
      case SkewRight =>
        n.skew := SkewNone;
        return n, Balance;
      case SkewLeft =>
        var left := n.left;
        if left.skew == SkewLeft {
          n.skew := SkewNone;
          left.skew := SkewNone;
          n' := RotateRight(n, t.(skew := SkewNone, left := t.left.(skew := SkewNone)));
          return n', Balance;
        } else if left.skew == SkewNone {
          n.skew := SkewLeft;
          left.skew := SkewRight;
          n' := RotateRight(n, t.(skew := SkewLeft, left := t.left.(skew := SkewRight)));
          return n', Ok;
        } else {
          n' := RotateLeftRight(n, t);
          return n', Balance;
        }
      case SkewNone =>
        n.skew := SkewLeft;
        return n, Ok;
    }
  }

  /** The allocator may or may not supply an entry. */
  method NewNode(key: int, value: int) returns (node: Entry?)
    ensures node != null ==>
      fresh(node) && node.key == key && node.value == value && node.left == null && node.right == null
  {
    var available: bool := *;
    if available {
      node := new Entry(key, value);
    } else {
      node := null;
    }
  }

  method InsertAt(n: Entry?, key: int, value: int, ghost t: Shape<Entry>)
    returns (n': Entry?, res: Result, ghost spare: Option<Entry>)
    requires Is(n, t) && Balanced(t)
    modifies Entries(t)
    ensures spare.Some? ==> fresh(spare.value)
    ensures Is(n', Inserted(t, spare, key, value).0) && res == Inserted(t, spare, key, value).1
    ensures Entries(Inserted(t, spare, key, value).0) <= Entries(t) + (if spare.Some? then {spare.value} else {})
    decreases t
  {
    hide LeftGrown, RightGrown, Inserted, Is, Entries;
    if n == null {
      LeafIs(n, t);
      var node := NewNode(key, value);
      if node == null {
        InsertedLeaf(t, None, key, value);
        return n, Error, None;
      }
      node.left := null;
      node.right := null;
      node.skew := SkewNone;
      SingleIs(node, Node(node, Leaf, key, value, SkewNone, Leaf));
      InsertedLeaf(t, Some(node), key, value);
      return node, Balance, Some(node);
    }
    NodeIs(n, t);
    Open(n, t);
    if key < n.key {
      var left;
      assert allocated(t.right) && allocated(Entries(t.right));
      left, res, spare := InsertAt(n.left, key, value, t.left);
      InsertedLeft(t, spare, key, value);
      n.left := left;
      ghost var t1 := t.(left := Inserted(t.left, spare, key, value).0);
      Close(n, t1);
      if res == Balance {
        LeftGrownKeeps(t1);
        n', res := LeftGrow(n, t1);
      } else {
        n' := n;
      }
    } else if n.key < key {
      var right;
      assert allocated(t.left) && allocated(Entries(t.left));
      right, res, spare := InsertAt(n.right, key, value, t.right);
      InsertedRight(t, spare, key, value);
      n.right := right;
      ghost var t1 := t.(right := Inserted(t.right, spare, key, value).0);
      Close(n, t1);
      if res == Balance {
        RightGrownKeeps(t1);
        n', res := RightGrow(n, t1);
      } else {
        n' := n;
      }
    } else {
      InsertedHere(t, key, value);
      return n, Duplicate, None;
    }
  }

  /** FindHighest: the target takes over the highest entry of the subtree, whose node is freed. */
  method FindHighest(n: Entry?, target: Entry, ghost t: Shape<Entry>) returns (found: bool, n': Entry?, res: Result)
    requires Is(n, t) && Balanced(t) && target !in Entries(t)
    modifies Entries(t), target`key, target`value
    ensures found <==> n != null
    ensures !found ==> n' == null && target.key == old(target.key) && target.value == old(target.value)
    ensures found ==>
      var (t', k, v, r) := WithoutHighest(t);
      Is(n', t') && target.key == k && target.value == v && res == r && Entries(t') <= Entries(t)
    decreases t
  {
    hide Is, Entries, WithoutHighest, RightShrunk;
    res := Balance;
    if n == null {
      LeafIs(n, t);
      return false, null, res;
    }
    NodeIs(n, t);
    Open(n, t);
    HighestStep(t);
    if n.right != null {
      assert allocated(t.left) && allocated(Entries(t.left));
      var right;
      found, right, res := FindHighest(n.right, target, t.right);
      n.right := right;
      ghost var t1 := t.(right := WithoutHighest(t.right).0);
      Close(n, t1);
      n' := n;
      if res == Balance {
        n', res := RightShrink(n, t1);
      }
      return true, n', res;
    }
    target.key := n.key;
    target.value := n.value;
    n' := n.left;
    found := true;
  }

  method FindLowest(n: Entry?, target: Entry, ghost t: Shape<Entry>) returns (found: bool, n': Entry?, res: Result)
    requires Is(n, t) && Balanced(t) && target !in Entries(t)
    modifies Entries(t), target`key, target`value
    ensures found <==> n != null
    ensures !found ==> n' == null && target.key == old(target.key) && target.value == old(target.value)
    ensures found ==>
      var (t', k, v, r) := WithoutLowest(t);
      Is(n', t') && target.key == k && target.value == v && res == r && Entries(t') <= Entries(t)
    decreases t
  {
    hide Is, Entries, WithoutLowest, LeftShrunk;
    res := Balance;
    if n == null {
      LeafIs(n, t);
      return false, null, res;
    }
    NodeIs(n, t);
    Open(n, t);
    LowestStep(t);
    if n.left != null {
      assert allocated(t.right) && allocated(Entries(t.right));
      var left;
      found, left, res := FindLowest(n.left, target, t.left);
      n.left := left;
      ghost var t1 := t.(left := WithoutLowest(t.left).0);
      Close(n, t1);
      n' := n;
      if res == Balance {
        n', res := LeftShrink(n, t1);
      }
      return true, n', res;
    }
    target.key := n.key;
    target.value := n.value;
    n' := n.right;
    found := true;
  }

  method RemoveAt(n: Entry?, key: int, ghost t: Shape<Entry>) returns (n': Entry?, res: Result)
    requires Is(n, t) && Balanced(t)
    modifies Entries(t)
    ensures Is(n', Removed(t, key).0) && res == Removed(t, key).1 && Entries(Removed(t, key).0) <= Entries(t)
    decreases t
  {
    hide Is, Entries, Removed, LeftShrunk, RightShrunk;
    if n == null {
      LeafIs(n, t);
      RemovedLeaf(t, key);
      return null, NotFound;
    }
    NodeIs(n, t);
    Open(n, t);
    RemovedStep(t, key);
    if key < n.key {
      assert allocated(t.right) && allocated(Entries(t.right));
      var left;
      left, res := RemoveAt(n.left, key, t.left);
      n.left := left;
      ghost var t1 := t.(left := Removed(t.left, key).0);
      Close(n, t1);
      n' := n;
      if res == Balance {
        n', res := LeftShrink(n, t1);
      }
    } else if n.key < key {
      assert allocated(t.left) && allocated(Entries(t.left));
      var right;
      right, res := RemoveAt(n.right, key, t.right);
      n.right := right;
      ghost var t1 := t.(right := Removed(t.right, key).0);
      Close(n, t1);
      n' := n;
      if res == Balance {
        n', res := RightShrink(n, t1);
      }
    } else {
      n', res := RemoveRoot(n, t);
    }
  }

  /** The entry itself: a neighbour's entry moves into its node, or the node goes away. */
  method RemoveRoot(n: Entry, ghost t: Shape<Entry>) returns (n': Entry?, res: Result)
    requires Is(n, t) && Balanced(t) && t.Node?
    modifies Entries(t)
    ensures Is(n', RemovedRoot(t).0) && res == RemovedRoot(t).1 && Entries(RemovedRoot(t).0) <= Entries(t)
  {
    hide Is, Entries, LeftShrunk, RightShrunk, RemovedRoot;
    Open(n, t);
    RootStep(t);
    if n.left != null {
      assert allocated(t.right) && allocated(Entries(t.right));
      var found, left;
      found, left, res := FindHighest(n.left, n, t.left);
      n.left := left;
      ghost var (l, k, v, r) := WithoutHighest(t.left);
      ghost var t1 := t.(left := l, key := k, value := v);
      Close(n, t1);
      n' := n;
      if res == Balance {
        n', res := LeftShrink(n, t1);
      }
      return;
    }
    if n.right != null {
      assert allocated(t.left) && allocated(Entries(t.left));
      var found, right;
      found, right, res := FindLowest(n.right, n, t.right);
      n.right := right;
      ghost var (l, k, v, r) := WithoutLowest(t.right);
      ghost var t1 := t.(right := l, key := k, value := v);
      Close(n, t1);
      n' := n;
      if res == Balance {
        n', res := RightShrink(n, t1);
      }
      return;
    }
    LeafIs(null, Leaf);
    return null, Balance;
  }

  lemma LeafIs(n: Entry?, t: Shape<Entry>)
    requires Is(n, t) && n == null
    ensures t.Leaf? && Entries(t) == {}
  {
  }

  lemma NodeIs(n: Entry?, t: Shape<Entry>)
    requires Is(n, t) && n != null
    ensures t.Node? && n in Entries(t)
  {
  }

  lemma SingleIs(n: Entry, t: Shape<Entry>)
    requires t.Node? && t.left.Leaf? && t.right.Leaf? && n == t.node && n.left == null && n.right == null
    requires n.skew == t.skew && n.key == t.key && n.value == t.value
    ensures Is(n, t) && Entries(t) == {n}
  {
  }

  lemma InsertedLeaf(t: Shape<Entry>, spare: Option<Entry>, key: int, value: int)
    requires t.Leaf?
    ensures Inserted(t, spare, key, value)
      == if spare.None? then (t, Error) else (Node(spare.value, Leaf, key, value, SkewNone, Leaf), Balance)
  {
  }

  lemma InsertedHere(t: Shape<Entry>, key: int, value: int)
    requires Balanced(t) && t.Node? && t.key == key
    ensures Inserted(t, None, key, value) == (t, Duplicate)
  {
  }

  lemma InsertedLeft(t: Shape<Entry>, spare: Option<Entry>, key: int, value: int)
    requires Balanced(t) && t.Node? && key < t.key
    ensures var (left, res) := Inserted(t.left, spare, key, value);
      var t1 := t.(left := left);
      && LeftOff(t1, Height(left) - Height(t.left)) && (res == Balance ==> LeftDeep(t1) && GrownShape(left))
      && (res == Balance ==> Height(left) == Height(t.left) + 1)
      && Inserted(t, spare, key, value) == if res == Balance then LeftGrown(t1) else (t1, res)
  {
    hide LeftGrown, RightGrown;
    var (left, res) := Inserted(t.left, spare, key, value);
    if res == Balance {
      LeftGrownKeeps(t.(left := left));
    }
  }

  lemma InsertedRight(t: Shape<Entry>, spare: Option<Entry>, key: int, value: int)
    requires Balanced(t) && t.Node? && t.key < key
    ensures var (right, res) := Inserted(t.right, spare, key, value);
      var t1 := t.(right := right);
      && RightOff(t1, Height(right) - Height(t.right)) && (res == Balance ==> RightDeep(t1) && GrownShape(right))
      && (res == Balance ==> Height(right) == Height(t.right) + 1)
      && Inserted(t, spare, key, value) == if res == Balance then RightGrown(t1) else (t1, res)
  {
    hide LeftGrown, RightGrown;
    var (right, res) := Inserted(t.right, spare, key, value);
    if res == Balance {
      RightGrownKeeps(t.(right := right));
    }
  }

  lemma HighestStep(t: Shape<Entry>)
    requires Balanced(t) && t.Node?
    ensures t.right.Leaf? ==> WithoutHighest(t) == (t.left, t.key, t.value, Balance)
    ensures t.right.Node? ==>
      var (right, k, v, res) := WithoutHighest(t.right);
      var t1 := t.(right := right);
      && Balanced(t.right) && (res == Balance ==> LeftTall(t1))
      && WithoutHighest(t) == if res == Balance then (RightShrunk(t1).0, k, v, RightShrunk(t1).1) else (t1, k, v, res)
  {
    hide RightShrunk;
    if t.right.Node? && WithoutHighest(t.right).3 == Balance {
      RightShrunkKeeps(t.(right := WithoutHighest(t.right).0));
    }
  }

  lemma LowestStep(t: Shape<Entry>)
    requires Balanced(t) && t.Node?
    ensures t.left.Leaf? ==> WithoutLowest(t) == (t.right, t.key, t.value, Balance)
    ensures t.left.Node? ==>
      var (left, k, v, res) := WithoutLowest(t.left);
      var t1 := t.(left := left);
      && Balanced(t.left) && (res == Balance ==> RightTall(t1))
      && WithoutLowest(t) == if res == Balance then (LeftShrunk(t1).0, k, v, LeftShrunk(t1).1) else (t1, k, v, res)
  {
    hide LeftShrunk;
    if t.left.Node? && WithoutLowest(t.left).3 == Balance {
      LeftShrunkKeeps(t.(left := WithoutLowest(t.left).0));
    }
  }

  lemma RemovedLeaf(t: Shape<Entry>, key: int)
    requires t.Leaf?
    ensures Removed(t, key) == (t, NotFound)
  {
  }

  lemma RemovedStep(t: Shape<Entry>, key: int)
    requires Balanced(t) && t.Node?
    ensures key < t.key ==>
      var (left, res) := Removed(t.left, key);
      var t1 := t.(left := left);
      && (res == Balance ==> RightTall(t1))
      && Removed(t, key) == if res == Balance then LeftShrunk(t1) else (t1, res)
    ensures t.key < key ==>
      var (right, res) := Removed(t.right, key);
      var t1 := t.(right := right);
      && (res == Balance ==> LeftTall(t1))
      && Removed(t, key) == if res == Balance then RightShrunk(t1) else (t1, res)
    ensures t.key == key ==> Removed(t, key) == RemovedRoot(t)
  {
    hide LeftShrunk, RightShrunk, RemovedRoot;
    if key < t.key && Removed(t.left, key).1 == Balance {
      LeftShrunkKeeps(t.(left := Removed(t.left, key).0));
    }
    if t.key < key && Removed(t.right, key).1 == Balance {
      RightShrunkKeeps(t.(right := Removed(t.right, key).0));
    }
  }

  lemma RootStep(t: Shape<Entry>)
    requires Balanced(t) && t.Node?
    ensures t.left.Node? ==>
      var (left, k, v, res) := WithoutHighest(t.left);
      var t1 := t.(left := left, key := k, value := v);
      && (res == Balance ==> RightTall(t1)) && RemovedRoot(t) == if res == Balance then LeftShrunk(t1) else (t1, res)
    ensures t.left.Leaf? && t.right.Node? ==>
      var (right, k, v, res) := WithoutLowest(t.right);
      var t1 := t.(right := right, key := k, value := v);
      && (res == Balance ==> LeftTall(t1)) && RemovedRoot(t) == if res == Balance then RightShrunk(t1) else (t1, res)
    ensures t.left.Leaf? && t.right.Leaf? ==> RemovedRoot(t) == (Leaf, Balance)
  {
    hide LeftShrunk, RightShrunk, WithoutHighest, WithoutLowest;
    if t.left.Node? {
      var (left, k, v, res) := WithoutHighest(t.left);
      if res == Balance {
        LeftShrunkKeeps(t.(left := left, key := k, value := v));
      }
    } else if t.right.Node? {
      var (right, k, v, res) := WithoutLowest(t.right);
      if res == Balance {
        RightShrunkKeeps(t.(right := right, key := k, value := v));
      }
    }
  }

  // ----- The entries of the tree

  lemma {:induction false} UsedEntries(t: Shape<Entry>, e: Entry)
    ensures e in Entries(t) <==> Uses(t, e) > 0
  {
    if t.Node? {
      UsedEntries(t.left, e);
      UsedEntries(t.right, e);
    }
  }

  /** Every entry stands for one node. */
  lemma {:induction false} UsedOnce(n: Entry?, t: Shape<Entry>, e: Entry)
    requires Is(n, t)
    ensures Uses(t, e) <= 1
  {
    if t.Node? {
      UsedOnce(n.left, t.left, e);
      UsedOnce(n.right, t.right, e);
      UsedEntries(t.left, e);
      UsedEntries(t.right, e);
    }
  }

  ghost predicate Distinct(t: Shape<Entry>) {
    forall e :: e in Entries(t) ==> Uses(t, e) <= 1
  }

  lemma EachOnce(n: Entry?, t: Shape<Entry>) returns (d: bool)
    requires Is(n, t)
    ensures d && Distinct(t)
  {
    forall e | e in Entries(t) ensures Uses(t, e) <= 1 {
      UsedOnce(n, t, e);
    }
    d := true;
  }

  /** Insertion adds the spare entry, and that alone. */
  lemma EntryAdded(t: Shape<Entry>, spare: Option<Entry>, key: int, value: int)
    requires Balanced(t)
    ensures var (t', res) := Inserted(t, spare, key, value);
      if res == Duplicate || res == Error then Entries(t') == Entries(t)
      else spare.Some? && Entries(t') == Entries(t) + {spare.value}
  {
    hide Inserted, Entries;
    var (t', res) := Inserted(t, spare, key, value);
    if res == Duplicate || res == Error {
      return;
    }
    if spare.None? {
      SpareNeeded(t, spare, key, value);
    } else {
      assert allocated(Entries(t)) && allocated(Entries(t'));
      forall e: Entry | e in Entries(t') || e in Entries(t) || spare == Some(e)
        ensures e in Entries(t') <==> e in Entries(t) || spare == Some(e)
      {
        InsertedNodes(t, spare, key, value, e);
        UsedEntries(t, e);
        UsedEntries(t', e);
      }
    }
  }

  /** Removal frees one entry: the removed key's own is used again for its neighbour, if it has one. */
  lemma EntryFreed(t: Shape<Entry>, key: int)
    requires Balanced(t) && Distinct(t)
    ensures var (t', res) := Removed(t, key);
      if res == NotFound then Entries(t') == Entries(t)
      else
        var freed := FreedNode(t, key);
        freed.Some? && freed.value in Entries(t) && Entries(t') == Entries(t) - {freed.value}
  {
    hide Removed, Entries, FreedNode;
    var (t', res) := Removed(t, key);
    if res != NotFound {
      SomethingFreed(t, key);
      var freed := FreedNode(t, key).value;
      RemovedNodes(t, key, freed);
      UsedEntries(t, freed);
      assert allocated(Entries(t)) && allocated(Entries(t'));
      forall e: Entry | e in Entries(t') || e in Entries(t)
        ensures e in Entries(t') <==> e in Entries(t) && e != freed
      {
        RemovedNodes(t, key, e);
        UsedEntries(t, e);
        UsedEntries(t', e);
      }
    }
  }

  // ----- The tree

  class AvlTree {
    var root: Entry?
    ghost var shape: Shape<Entry>

    ghost predicate Valid()
      reads this, Entries(shape)
    {
      Is(root, shape) && Avl(shape)
    }

    ghost function Map(): map<int, int>
      reads this
    {
      Contents(shape)
    }

    constructor ()
      ensures Valid() && Map() == map[] && Entries(shape) == {}
    {
      root, shape := null, Leaf;
    }

    /** Insert: a new key is added, unless no entry can be allocated; a known one is refused. */
    method Insert(key: int, value: int) returns (res: Result)
      requires Valid()
      modifies this, Entries(shape)
      ensures Valid() && fresh(Entries(shape) - old(Entries(shape)))
      ensures res == Duplicate <==> key in old(Map())
      ensures res == Duplicate || res == Error ==> Map() == old(Map())
      ensures res == Ok || res == Balance ==> Map() == old(Map())[key := value]
      ensures res == Balance <==> Height(shape) == Height(old(shape)) + 1
      ensures !res.NotFound?
      ensures res == Duplicate || res == Error ==> Entries(shape) == old(Entries(shape))
      ensures res == Ok || res == Balance ==> exists e: Entry :: fresh(e) && Entries(shape) == old(Entries(shape)) + {e}
    {
      hide Is, Entries, Inserted;
      ghost var spare, t;
      t := shape;
      root, res, spare := InsertAt(root, key, value, shape);
      InsertedEntries(shape, spare, key, value);
      shape := Inserted(shape, spare, key, value).0;
      EntryAdded(t, spare, key, value);
    }

    /** Remove: exactly the given key disappears. */
    method Remove(key: int) returns (res: Result)
      requires Valid()
      modifies this, Entries(shape)
      ensures Valid() && Entries(shape) <= old(Entries(shape))
      ensures res == NotFound <==> key !in old(Map())
      ensures Map() == old(Map()) - {key}
      ensures res == Balance <==> Height(shape) == Height(old(shape)) - 1
      ensures res == NotFound || res == Ok || res == Balance
      ensures res == NotFound ==> Entries(shape) == old(Entries(shape))
      ensures res != NotFound ==>
        var freed := FreedNode(old(shape), key);
        freed.Some? && freed.value in old(Entries(shape)) && Entries(shape) == old(Entries(shape)) - {freed.value}
    {
      hide Is, Entries, Removed, FreedNode;
      ghost var t := shape;
      ghost var distinct := EachOnce(root, t);
      root, res := RemoveAt(root, key, shape);
      RemovedEntries(shape, key);
      shape := Removed(shape, key).0;
      EntryFreed(t, key);
    }

    /** Find, with the number of comparisons it makes. */
    method Find(key: int) returns (node: Entry?, ghost comparisons: nat)
      requires Valid()
      ensures node != null <==> key in Map()
      ensures node != null ==> node in Entries(shape) && node.key == key && node.value == Map()[key]
      ensures comparisons <= Height(shape) && Fib(comparisons + 2) <= |Map()| + 1
    {
      hide Is, Entries, Contents, Avl, Height, Fib, Size;
      node := root;
      comparisons := 0;
      ghost var t := shape;
      while node != null
        invariant Is(node, t) && Avl(t) && Entries(t) <= Entries(shape)
        invariant key in Map() <==> key in Contents(t)
        invariant key in Contents(t) ==> Map()[key] == Contents(t)[key]
        invariant comparisons + Height(t) <= Height(shape)
        decreases t
      {
        NodeIs(node, t);
        Open(node, t);
        UnfoldHeight(t);
        comparisons := comparisons + 1;
        if node.key == key {
          KeyAtRoot(t);
          break;
        }
        Descend(t, key);
        if key < node.key {
          node := node.left;
          t := t.left;
        } else {
          node := node.right;
          t := t.right;
        }
      }
      if node == null {
        LeafIs(node, t);
        EmptyContents(t);
      }
      SizeFact(shape);
      FibGrows(comparisons + 2, Height(shape) + 2);
    }
  }

  lemma SizeFact(t: Shape)
    requires Avl(t)
    ensures Fib(Height(t) + 2) <= |Contents(t)| + 1
  {
    SizeBound(t);
    SizeIsCount(t);
  }

  /** The search goes on in the subtree that can hold the key. */
  lemma Descend(t: Shape, key: int)
    requires t.Node? && Avl(t) && t.key != key
    ensures var u := if key < t.key then t.left else t.right;
      Avl(u) && (key in Contents(t) <==> key in Contents(u)) && (key in Contents(u) ==> Contents(u)[key] == Contents(t)[key])
  {
    UnfoldOrder(t);
  }
}
