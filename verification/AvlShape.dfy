/** Height-balanced search trees as values: what rotations, growing, shrinking, insertion and removal
  * do to the shape, and the invariants they keep.  The nodes are the entries of the real tree. */
module AvlShapes {

  datatype Skew = SkewLeft | SkewNone | SkewRight

  datatype Result = Ok | Balance | NotFound | Duplicate | Error

  datatype Option<T> = None | Some(value: T)

  /** A (sub)tree; `node` identifies the entry that stands at its root. */
  datatype Shape<N> = Leaf | Node(node: N, left: Shape<N>, key: int, value: int, skew: Skew, right: Shape<N>)

  function Max(a: int, b: int): int {
    if a < b then b else a
  }

  function Height(t: Shape): nat {
    if t.Leaf? then 0 else 1 + Max(Height(t.left), Height(t.right))
  }

  function Size(t: Shape): nat {
    if t.Leaf? then 0 else 1 + Size(t.left) + Size(t.right)
  }

  function SkewOf(difference: int): Skew {
    if difference < 0 then SkewLeft else if difference == 0 then SkewNone else SkewRight
  }

  /** The skew flag records the height difference, which is at most one. */
  predicate Records(left: int, skew: Skew, right: int) {
    -1 <= right - left <= 1 && skew == SkewOf(right - left)
  }

  predicate Balanced(t: Shape) {
    t.Node? ==> Balanced(t.left) && Balanced(t.right) && Records(Height(t.left), t.skew, Height(t.right))
  }

  function Joined(l: map<int, int>, key: int, value: int, r: map<int, int>): map<int, int> {
    l + r + map[key := value]
  }

  predicate Between(l: map<int, int>, key: int, r: map<int, int>) {
    (forall k :: k in l ==> k < key) && (forall k :: k in r ==> key < k)
  }

  /** The entries by key. */
  function Contents(t: Shape): map<int, int> {
    if t.Leaf? then map[] else Joined(Contents(t.left), t.key, t.value, Contents(t.right))
  }

  predicate Ordered(t: Shape) {
    t.Node? ==> Ordered(t.left) && Ordered(t.right) && Between(Contents(t.left), t.key, Contents(t.right))
  }

  ghost predicate Avl(t: Shape) {
    Balanced(t) && Ordered(t)
  }

  // ----- Rotations

  function RotatedLeft<N>(t: Shape<N>): Shape<N>
    requires t.Node? && t.right.Node?
  {
    var bottom := t.right;
    bottom.(left := t.(right := bottom.left))
  }

  function RotatedRight<N>(t: Shape<N>): Shape<N>
    requires t.Node? && t.left.Node?
  {
    var bottom := t.left;
    bottom.(right := t.(left := bottom.right))
  }

  /** One step of the definitions. */
  lemma UnfoldOrder(t: Shape)
    requires t.Node?
    ensures Contents(t) == Joined(Contents(t.left), t.key, t.value, Contents(t.right))
    ensures Ordered(t) <==> Ordered(t.left) && Ordered(t.right) && Between(Contents(t.left), t.key, Contents(t.right))
  {
    hide Joined, Between;
  }

  lemma UnfoldHeight(t: Shape)
    ensures t.Leaf? <==> Height(t) == 0
    ensures t.Node? ==> Height(t) == 1 + Max(Height(t.left), Height(t.right))
    ensures t.Node? ==>
      (Balanced(t) <==> Balanced(t.left) && Balanced(t.right) && Records(Height(t.left), t.skew, Height(t.right)))
    ensures t.Leaf? ==> Balanced(t)
  {
    hide Records;
  }

  lemma JoinAssociates(a: map<int, int>, j: int, v: int, b: map<int, int>, k: int, w: int, c: map<int, int>)
    requires j < k && Between(a, j, b) && Between(b, k, c)
    ensures Joined(a, j, v, Joined(b, k, w, c)) == Joined(Joined(a, j, v, b), k, w, c)
    ensures Between(a, j, Joined(b, k, w, c)) && Between(Joined(a, j, v, b), k, c)
  {
  }

  lemma JoinBetween(b: map<int, int>, k: int, w: int, c: map<int, int>, a: map<int, int>, j: int)
    ensures Between(a, j, Joined(b, k, w, c)) ==> j < k && Between(a, j, b)
    ensures Between(Joined(b, k, w, c), j, a) ==> k < j && Between(c, j, a)
  {
    assert k in Joined(b, k, w, c);
    assert forall x :: x in b ==> x in Joined(b, k, w, c);
    assert forall x :: x in c ==> x in Joined(b, k, w, c);
  }

  lemma RotateLeftKeeps(t: Shape)
    requires t.Node? && t.right.Node? && Ordered(t)
    ensures Ordered(RotatedLeft(t)) && Contents(RotatedLeft(t)) == Contents(t)
  {
    hide Ordered, Contents, Joined, Between;
    var b, t' := t.right, RotatedLeft(t);
    UnfoldOrder(t);
    UnfoldOrder(b);
    UnfoldOrder(t');
    UnfoldOrder(t'.left);
    JoinBetween(Contents(b.left), b.key, b.value, Contents(b.right), Contents(t.left), t.key);
    JoinAssociates(Contents(t.left), t.key, t.value, Contents(b.left), b.key, b.value, Contents(b.right));
  }

  lemma RotateRightKeeps(t: Shape)
    requires t.Node? && t.left.Node? && Ordered(t)
    ensures Ordered(RotatedRight(t)) && Contents(RotatedRight(t)) == Contents(t)
  {
    hide Ordered, Contents, Joined, Between;
    var b, t' := t.left, RotatedRight(t);
    UnfoldOrder(t);
    UnfoldOrder(b);
    UnfoldOrder(t');
    UnfoldOrder(t'.right);
    JoinBetween(Contents(b.left), b.key, b.value, Contents(b.right), Contents(t.right), t.key);
    JoinAssociates(Contents(b.left), b.key, b.value, Contents(b.right), t.key, t.value, Contents(t.right));
  }

  // ----- Rebalancing

  /** The flags of a double rotation: the middle node decides what its old parents are left with. */
  function LeftRight<N>(t: Shape<N>): Shape<N>
    requires t.Node? && t.left.Node? && t.left.right.Node?
  {
    var middle := t.left.right;
    var left := t.left.(skew := if middle.skew == SkewRight then SkewLeft else SkewNone, right := middle.(skew := SkewNone));
    var top := t.(skew := if middle.skew == SkewLeft then SkewRight else SkewNone, left := left);
    RotatedRight(top.(left := RotatedLeft(left)))
  }

  function RightLeft<N>(t: Shape<N>): Shape<N>
    requires t.Node? && t.right.Node? && t.right.left.Node?
  {
    var middle := t.right.left;
    var right := t.right.(skew := if middle.skew == SkewLeft then SkewRight else SkewNone, left := middle.(skew := SkewNone));
    var top := t.(skew := if middle.skew == SkewRight then SkewLeft else SkewNone, right := right);
    RotatedLeft(top.(right := RotatedRight(right)))
  }

  /** What LeftGrown needs to follow its pointers. */
  predicate LeftDeep(t: Shape) {
    t.Node? && (t.skew == SkewLeft ==> t.left.Node? && (t.left.skew != SkewLeft ==> t.left.right.Node?))
  }

  predicate RightDeep(t: Shape) {
    t.Node? && (t.skew == SkewRight ==> t.right.Node? && (t.right.skew != SkewRight ==> t.right.left.Node?))
  }

  function LeftGrown<N>(t: Shape<N>): (Shape<N>, Result)
    requires LeftDeep(t)
  {
    match t.skew
    case SkewLeft =>
      if t.left.skew == SkewLeft then
        (RotatedRight(t.(skew := SkewNone, left := t.left.(skew := SkewNone))), Ok)
      else (LeftRight(t), Ok)
    case SkewRight => (t.(skew := SkewNone), Ok)
    case SkewNone => (t.(skew := SkewLeft), Balance)
  }

  function RightGrown<N>(t: Shape<N>): (Shape<N>, Result)
    requires RightDeep(t)
  {
    match t.skew
    case SkewLeft => (t.(skew := SkewNone), Ok)
    case SkewRight =>
      if t.right.skew == SkewRight then
        (RotatedLeft(t.(skew := SkewNone, right := t.right.(skew := SkewNone))), Ok)
      else (RightLeft(t), Ok)
    case SkewNone => (t.(skew := SkewRight), Balance)
  }

  /** What RightShrunk needs: only a right-skewed child is entered a second time. */
  predicate LeftTall(t: Shape) {
    t.Node? && (t.skew == SkewLeft ==> t.left.Node? && (t.left.skew == SkewRight ==> t.left.right.Node?))
  }

  predicate RightTall(t: Shape) {
    t.Node? && (t.skew == SkewRight ==> t.right.Node? && (t.right.skew == SkewLeft ==> t.right.left.Node?))
  }

  function LeftShrunk<N>(t: Shape<N>): (Shape<N>, Result)
    requires RightTall(t)
  {
    match t.skew
    case SkewLeft => (t.(skew := SkewNone), Balance)
    case SkewRight =>
      (match t.right.skew
       case SkewRight => (RotatedLeft(t.(skew := SkewNone, right := t.right.(skew := SkewNone))), Balance)
       case SkewNone => (RotatedLeft(t.(skew := SkewRight, right := t.right.(skew := SkewLeft))), Ok)
       case SkewLeft => (RightLeft(t), Balance))
    case SkewNone => (t.(skew := SkewRight), Ok)
  }

  function RightShrunk<N>(t: Shape<N>): (Shape<N>, Result)
    requires LeftTall(t)
  {
    match t.skew
    case SkewRight => (t.(skew := SkewNone), Balance)
    case SkewLeft =>
      (match t.left.skew
       case SkewLeft => (RotatedRight(t.(skew := SkewNone, left := t.left.(skew := SkewNone))), Balance)
       case SkewNone => (RotatedRight(t.(skew := SkewLeft, left := t.left.(skew := SkewRight))), Ok)
       case SkewRight => (LeftRight(t), Balance))
    case SkewNone => (t.(skew := SkewLeft), Ok)
  }

  /** `t` with flag and right subtree as before, while the left subtree changed its height by
    * `change` since. */
  ghost predicate LeftOff(t: Shape, change: int) {
    && t.Node? && Balanced(t.left) && Balanced(t.right)
    && Records(Height(t.left) - change, t.skew, Height(t.right))
  }

  ghost predicate RightOff(t: Shape, change: int) {
    && t.Node? && Balanced(t.left) && Balanced(t.right)
    && Records(Height(t.left), t.skew, Height(t.right) - change)
  }

  /** A subtree that grew by insertion: a fresh leaf, or not level. */
  predicate GrownShape(t: Shape) {
    t.Node? && (Height(t) > 1 ==> t.skew != SkewNone)
  }

  lemma LeftGrownKeeps(t: Shape)
    requires LeftOff(t, 1) && GrownShape(t.left)
    ensures LeftDeep(t)
    ensures var (t', res) := LeftGrown(t);
      && Balanced(t') && (res == Ok || res == Balance)
      && Height(t') == 1 + Max(Height(t.left) - 1, Height(t.right)) + (if res == Balance then 1 else 0)
      && (res == Balance ==> GrownShape(t'))
  {
    hide Balanced, Height;
    UnfoldHeight(t.left);
    if t.skew == SkewLeft {
      UnfoldHeight(t.left.right);
      UnfoldHeight(t.left.left);
    }
    var (t', res) := LeftGrown(t);
    UnfoldHeight(t');
    UnfoldHeight(t'.left);
    UnfoldHeight(t'.right);
  }

  lemma RightGrownKeeps(t: Shape)
    requires RightOff(t, 1) && GrownShape(t.right)
    ensures RightDeep(t)
    ensures var (t', res) := RightGrown(t);
      && Balanced(t') && (res == Ok || res == Balance)
      && Height(t') == 1 + Max(Height(t.left), Height(t.right) - 1) + (if res == Balance then 1 else 0)
      && (res == Balance ==> GrownShape(t'))
  {
    hide Balanced, Height;
    UnfoldHeight(t.right);
    if t.skew == SkewRight {
      UnfoldHeight(t.right.left);
      UnfoldHeight(t.right.right);
    }
    var (t', res) := RightGrown(t);
    UnfoldHeight(t');
    UnfoldHeight(t'.left);
    UnfoldHeight(t'.right);
  }

  lemma LeftShrunkKeeps(t: Shape)
    requires LeftOff(t, -1)
    ensures RightTall(t)
    ensures var (t', res) := LeftShrunk(t);
      && Balanced(t') && (res == Ok || res == Balance)
      && Height(t') == 1 + Max(Height(t.left) + 1, Height(t.right)) - (if res == Balance then 1 else 0)
  {
    hide Balanced, Height;
    UnfoldHeight(t.right);
    if t.skew == SkewRight {
      UnfoldHeight(t.right.left);
      UnfoldHeight(t.right.right);
    }
    var (t', res) := LeftShrunk(t);
    UnfoldHeight(t');
    UnfoldHeight(t'.left);
    UnfoldHeight(t'.right);
  }

  lemma RightShrunkKeeps(t: Shape)
    requires RightOff(t, -1)
    ensures LeftTall(t)
    ensures var (t', res) := RightShrunk(t);
      && Balanced(t') && (res == Ok || res == Balance)
      && Height(t') == 1 + Max(Height(t.left), Height(t.right) + 1) - (if res == Balance then 1 else 0)
  {
    hide Balanced, Height;
    UnfoldHeight(t.left);
    if t.skew == SkewLeft {
      UnfoldHeight(t.left.right);
      UnfoldHeight(t.left.left);
    }
    var (t', res) := RightShrunk(t);
    UnfoldHeight(t');
    UnfoldHeight(t'.left);
    UnfoldHeight(t'.right);
  }

  // ----- Rebalancing keeps the entries

  /** Flags do not matter for order and contents. */
  lemma Relabelled(t: Shape, t': Shape)
    requires t.Node? && t'.Node? && t.key == t'.key && t.value == t'.value
    requires Contents(t.left) == Contents(t'.left) && Contents(t.right) == Contents(t'.right)
    requires Ordered(t.left) <==> Ordered(t'.left)
    requires Ordered(t.right) <==> Ordered(t'.right)
    ensures Contents(t) == Contents(t') && (Ordered(t) <==> Ordered(t'))
  {
    hide Contents, Ordered, Joined, Between;
    UnfoldOrder(t);
    UnfoldOrder(t');
  }

  /** Two trees with the same entries, in order if the first one is. */
  ghost predicate SameEntries(t: Shape, t': Shape) {
    Contents(t) == Contents(t') && (Ordered(t) ==> Ordered(t'))
  }

  lemma LeftRightEntries(t: Shape)
    requires t.Node? && t.left.Node? && t.left.right.Node? && Ordered(t)
    ensures SameEntries(t, LeftRight(t))
  {
    hide Contents, Ordered;
    var middle := t.left.right;
    var left := t.left.(skew := if middle.skew == SkewRight then SkewLeft else SkewNone, right := middle.(skew := SkewNone));
    var top := t.(skew := if middle.skew == SkewLeft then SkewRight else SkewNone, left := left);
    Relabelled(middle, middle.(skew := SkewNone));
    Relabelled(t.left, left);
    Relabelled(t, top);
    UnfoldOrder(top);
    RotateLeftKeeps(left);
    Relabelled(top, top.(left := RotatedLeft(left)));
    RotateRightKeeps(top.(left := RotatedLeft(left)));
  }

  lemma RightLeftEntries(t: Shape)
    requires t.Node? && t.right.Node? && t.right.left.Node? && Ordered(t)
    ensures SameEntries(t, RightLeft(t))
  {
    hide Contents, Ordered;
    var middle := t.right.left;
    var right := t.right.(skew := if middle.skew == SkewLeft then SkewRight else SkewNone, left := middle.(skew := SkewNone));
    var top := t.(skew := if middle.skew == SkewRight then SkewLeft else SkewNone, right := right);
    Relabelled(middle, middle.(skew := SkewNone));
    Relabelled(t.right, right);
    Relabelled(t, top);
    UnfoldOrder(top);
    RotateRightKeeps(right);
    Relabelled(top, top.(right := RotatedRight(right)));
    RotateLeftKeeps(top.(right := RotatedRight(right)));
  }

  /** A single rotation after the flags of both nodes were set. */
  lemma SingleEntries(t: Shape, s: Skew, r: Skew)
    requires t.Node? && Ordered(t)
    ensures SameEntries(t, t.(skew := s))
    ensures t.left.Node? ==> SameEntries(t, RotatedRight(t.(skew := s, left := t.left.(skew := r))))
    ensures t.right.Node? ==> SameEntries(t, RotatedLeft(t.(skew := s, right := t.right.(skew := r))))
  {
    hide Contents, Ordered;
    Relabelled(t, t.(skew := s));
    if t.left.Node? {
      Relabelled(t.left, t.left.(skew := r));
      Relabelled(t, t.(skew := s, left := t.left.(skew := r)));
      RotateRightKeeps(t.(skew := s, left := t.left.(skew := r)));
    }
    if t.right.Node? {
      Relabelled(t.right, t.right.(skew := r));
      Relabelled(t, t.(skew := s, right := t.right.(skew := r)));
      RotateLeftKeeps(t.(skew := s, right := t.right.(skew := r)));
    }
  }

  lemma RebalanceEntries(t: Shape)
    requires t.Node? && Ordered(t)
    ensures LeftDeep(t) ==> SameEntries(t, LeftGrown(t).0)
    ensures RightDeep(t) ==> SameEntries(t, RightGrown(t).0)
    ensures RightTall(t) ==> SameEntries(t, LeftShrunk(t).0)
    ensures LeftTall(t) ==> SameEntries(t, RightShrunk(t).0)
  {
    hide SameEntries, Ordered, LeftRight, RightLeft;
    SingleEntries(t, SkewNone, SkewNone);
    SingleEntries(t, SkewLeft, SkewRight);
    SingleEntries(t, SkewRight, SkewLeft);
    if t.left.Node? && t.left.right.Node? {
      LeftRightEntries(t);
    }
    if t.right.Node? && t.right.left.Node? {
      RightLeftEntries(t);
    }
  }

  // ----- Insertion

  /** Insert.  `spare` is the node the allocator supplies, if any.  The result is Balance exactly if
    * the tree grew, and then it is a leaf or not level. */
  function Inserted<N>(t: Shape<N>, spare: Option<N>, key: int, value: int): (r: (Shape<N>, Result))
    requires Balanced(t)
    ensures Balanced(r.0) && !r.1.NotFound?
    ensures Height(r.0) == Height(t) + if r.1 == Balance then 1 else 0
    ensures r.1 == Balance ==> GrownShape(r.0)
    ensures r.1 == Duplicate || r.1 == Error ==> r.0 == t
  {
    hide LeftGrown, RightGrown;
    if t.Leaf? then
      match spare
      case None => (t, Error)
      case Some(n) => (Node(n, Leaf, key, value, SkewNone, Leaf), Balance)
    else if key < t.key then
      var (left, res) := Inserted(t.left, spare, key, value);
      if res == Balance then
        LeftGrownKeeps(t.(left := left));
        LeftGrown(t.(left := left))
      else (t.(left := left), res)
    else if t.key < key then
      var (right, res) := Inserted(t.right, spare, key, value);
      if res == Balance then
        RightGrownKeeps(t.(right := right));
        RightGrown(t.(right := right))
      else (t.(right := right), res)
    else (t, Duplicate)
  }

  lemma JoinInsert(l: map<int, int>, k: int, v: int, r: map<int, int>, key: int, value: int)
    requires Between(l, k, r) && key != k
    ensures key < k ==> Joined(l[key := value], k, v, r) == Joined(l, k, v, r)[key := value] && Between(l[key := value], k, r)
    ensures k < key ==> Joined(l, k, v, r[key := value]) == Joined(l, k, v, r)[key := value] && Between(l, k, r[key := value])
    ensures key in Joined(l, k, v, r) <==> if key < k then key in l else key in r
  {
    if key < k {
      assert Joined(l[key := value], k, v, r) == Joined(l, k, v, r)[key := value];
    } else {
      assert Joined(l, k, v, r[key := value]) == Joined(l, k, v, r)[key := value];
    }
  }

  /** The key set grows by exactly the given key, unless it is there already or no node is. */
  lemma {:induction false} InsertedEntries<N>(t: Shape<N>, spare: Option<N>, key: int, value: int)
    requires Avl(t)
    ensures var (t', res) := Inserted(t, spare, key, value);
      && Avl(t')
      && (res == Duplicate <==> key in Contents(t))
      && (res == Error <==> key !in Contents(t) && spare.None?)
      && Contents(t') == (if res == Duplicate || res == Error then Contents(t) else Contents(t)[key := value])
      && Height(t') == Height(t) + if res == Balance then 1 else 0
  {
    hide Contents, Ordered, Joined, Between, LeftGrown, RightGrown;
    if t.Leaf? {
      LeafEntries(t, spare, key, value);
    } else if key != t.key {
      UnfoldOrder(t);
      JoinInsert(Contents(t.left), t.key, t.value, Contents(t.right), key, value);
      if key < t.key {
        InsertedEntries(t.left, spare, key, value);
        var (left, res) := Inserted(t.left, spare, key, value);
        UnfoldOrder(t.(left := left));
        if res == Balance {
          LeftGrownKeeps(t.(left := left));
        }
        RebalanceEntries(t.(left := left));
      } else {
        InsertedEntries(t.right, spare, key, value);
        var (right, res) := Inserted(t.right, spare, key, value);
        UnfoldOrder(t.(right := right));
        if res == Balance {
          RightGrownKeeps(t.(right := right));
        }
        RebalanceEntries(t.(right := right));
      }
    } else {
      KeyAtRoot(t);
    }
  }

  lemma KeyAtRoot(t: Shape)
    requires t.Node?
    ensures t.key in Contents(t) && Contents(t)[t.key] == t.value
  {
  }

  lemma LeafEntries<N>(t: Shape<N>, spare: Option<N>, key: int, value: int)
    requires t.Leaf?
    ensures Contents(t) == map[] && Ordered(t)
    ensures spare.Some? ==>
      var t' := Node(spare.value, Leaf, key, value, SkewNone, Leaf);
      Ordered(t') && Contents(t') == Contents(t)[key := value]
  {
  }

  // ----- Removal

  /** FindHighest: the tree without its highest entry, and that entry. */
  function WithoutHighest<N>(t: Shape<N>): (r: (Shape<N>, int, int, Result))
    requires t.Node? && Balanced(t)
    ensures Balanced(r.0) && (r.3 == Ok || r.3 == Balance)
    ensures Height(r.0) == Height(t) - if r.3 == Balance then 1 else 0
  {
    if t.right.Node? then
      var (right, k, v, res) := WithoutHighest(t.right);
      if res == Balance then
        RightShrunkKeeps(t.(right := right));
        var (t', res') := RightShrunk(t.(right := right));
        (t', k, v, res')
      else (t.(right := right), k, v, res)
    else (t.left, t.key, t.value, Balance)
  }

  /** FindLowest, the mirror image. */
  function WithoutLowest<N>(t: Shape<N>): (r: (Shape<N>, int, int, Result))
    requires t.Node? && Balanced(t)
    ensures Balanced(r.0) && (r.3 == Ok || r.3 == Balance)
    ensures Height(r.0) == Height(t) - if r.3 == Balance then 1 else 0
  {
    if t.left.Node? then
      var (left, k, v, res) := WithoutLowest(t.left);
      if res == Balance then
        LeftShrunkKeeps(t.(left := left));
        var (t', res') := LeftShrunk(t.(left := left));
        (t', k, v, res')
      else (t.(left := left), k, v, res)
    else (t.right, t.key, t.value, Balance)
  }

  /** Remove.  The result is Balance exactly if the tree shrank. */
  function Removed<N>(t: Shape<N>, key: int): (r: (Shape<N>, Result))
    requires Balanced(t)
    ensures Balanced(r.0) && (r.1 == Ok || r.1 == Balance || r.1 == NotFound)
    ensures Height(r.0) == Height(t) - if r.1 == Balance then 1 else 0
    ensures r.1 == NotFound ==> r.0 == t
  {
    hide LeftShrunk, RightShrunk, RemovedRoot;
    if t.Leaf? then (t, NotFound)
    else if key < t.key then
      var (left, res) := Removed(t.left, key);
      if res == Balance then
        LeftShrunkKeeps(t.(left := left));
        LeftShrunk(t.(left := left))
      else (t.(left := left), res)
    else if t.key < key then
      var (right, res) := Removed(t.right, key);
      if res == Balance then
        RightShrunkKeeps(t.(right := right));
        RightShrunk(t.(right := right))
      else (t.(right := right), res)
    else RemovedRoot(t)
  }

  /** The entry at the root gives way to its neighbour in the left subtree, or in the right one. */
  function RemovedRoot<N>(t: Shape<N>): (r: (Shape<N>, Result))
    requires t.Node? && Balanced(t)
    ensures Balanced(r.0) && (r.1 == Ok || r.1 == Balance)
    ensures Height(r.0) == Height(t) - if r.1 == Balance then 1 else 0
  {
    if t.left.Node? then
      var (left, k, v, res) := WithoutHighest(t.left);
      var t1 := t.(left := left, key := k, value := v);
      if res == Balance then LeftShrunkKeeps(t1); LeftShrunk(t1) else (t1, res)
    else if t.right.Node? then
      var (right, k, v, res) := WithoutLowest(t.right);
      var t1 := t.(right := right, key := k, value := v);
      if res == Balance then RightShrunkKeeps(t1); RightShrunk(t1) else (t1, res)
    else (Leaf, Balance)
  }

  lemma JoinRemove(l: map<int, int>, k: int, v: int, r: map<int, int>, key: int)
    requires Between(l, k, r) && key != k
    ensures key < k ==> Joined(l - {key}, k, v, r) == Joined(l, k, v, r) - {key} && Between(l - {key}, k, r)
    ensures k < key ==> Joined(l, k, v, r - {key}) == Joined(l, k, v, r) - {key} && Between(l, k, r - {key})
    ensures key in Joined(l, k, v, r) <==> if key < k then key in l else key in r
  {
  }

  /** `k` with `v` is the highest (lowest) entry of `m`, and `m'` are the others. */
  predicate Highest(m: map<int, int>, k: int, v: int, m': map<int, int>) {
    k in m && m[k] == v && m' == m - {k} && forall x :: x in m' ==> x < k
  }

  predicate Lowest(m: map<int, int>, k: int, v: int, m': map<int, int>) {
    k in m && m[k] == v && m' == m - {k} && forall x :: x in m' ==> k < x
  }

  lemma JoinHighest(l: map<int, int>, j: int, w: int, r: map<int, int>, k: int, v: int, r': map<int, int>)
    requires Between(l, j, r) && Highest(r, k, v, r')
    ensures Highest(Joined(l, j, w, r), k, v, Joined(l, j, w, r')) && Between(l, j, r')
  {
  }

  lemma JoinLowest(l: map<int, int>, j: int, w: int, r: map<int, int>, k: int, v: int, l': map<int, int>)
    requires Between(l, j, r) && Lowest(l, k, v, l')
    ensures Lowest(Joined(l, j, w, r), k, v, Joined(l', j, w, r)) && Between(l', j, r)
  {
  }

  lemma {:induction false} HighestEntries(t: Shape)
    requires t.Node? && Avl(t)
    ensures var (t', k, v, res) := WithoutHighest(t);
      Ordered(t') && Highest(Contents(t), k, v, Contents(t'))
  {
    hide Contents, Ordered, Joined, Between, Highest, RightShrunk;
    UnfoldOrder(t);
    if t.right.Node? {
      HighestEntries(t.right);
      var (right, k, v, res) := WithoutHighest(t.right);
      JoinHighest(Contents(t.left), t.key, t.value, Contents(t.right), k, v, Contents(right));
      UnfoldOrder(t.(right := right));
      if res == Balance {
        RightShrunkKeeps(t.(right := right));
      }
      RebalanceEntries(t.(right := right));
    } else {
      EmptyContents(t.right);
      JoinLast(Contents(t.left), t.key, t.value);
    }
  }

  lemma {:induction false} LowestEntries(t: Shape)
    requires t.Node? && Avl(t)
    ensures var (t', k, v, res) := WithoutLowest(t);
      Ordered(t') && Lowest(Contents(t), k, v, Contents(t'))
  {
    hide Contents, Ordered, Joined, Between, Lowest, LeftShrunk;
    UnfoldOrder(t);
    if t.left.Node? {
      LowestEntries(t.left);
      var (left, k, v, res) := WithoutLowest(t.left);
      JoinLowest(Contents(t.left), t.key, t.value, Contents(t.right), k, v, Contents(left));
      UnfoldOrder(t.(left := left));
      if res == Balance {
        LeftShrunkKeeps(t.(left := left));
      }
      RebalanceEntries(t.(left := left));
    } else {
      EmptyContents(t.left);
      JoinFirst(t.key, t.value, Contents(t.right));
    }
  }

  lemma EmptyContents(t: Shape)
    requires t.Leaf?
    ensures Contents(t) == map[] && Ordered(t)
  {
  }

  lemma JoinLast(l: map<int, int>, k: int, v: int)
    requires Between(l, k, map[])
    ensures Highest(Joined(l, k, v, map[]), k, v, l)
  {
  }

  lemma JoinFirst(k: int, v: int, r: map<int, int>)
    requires Between(map[], k, r)
    ensures Lowest(Joined(map[], k, v, r), k, v, r)
  {
  }

  lemma HighestMovesUp(l: map<int, int>, j: int, w: int, r: map<int, int>, k: int, v: int)
    requires Between(l, j, r) && Highest(l, k, v, l - {k})
    ensures Between(l - {k}, k, r) && Joined(l - {k}, k, v, r) == Joined(l, j, w, r) - {j}
  {
  }

  lemma LowestMovesUp(l: map<int, int>, j: int, w: int, r: map<int, int>, k: int, v: int)
    requires Between(l, j, r) && Lowest(r, k, v, r - {k})
    ensures Between(l, k, r - {k}) && Joined(l, k, v, r - {k}) == Joined(l, j, w, r) - {j}
  {
  }

  lemma LastEntry(j: int, w: int)
    ensures Joined(map[], j, w, map[]) - {j} == map[]
  {
  }

  lemma RootEntries(t: Shape)
    requires t.Node? && Avl(t)
    ensures var (t', res) := RemovedRoot(t);
      Ordered(t') && Contents(t') == Contents(t) - {t.key}
  {
    hide Contents, Ordered, Joined, Between, LeftShrunk, RightShrunk;
    UnfoldOrder(t);
    if t.left.Node? {
      HighestEntries(t.left);
      var (left, k, v, res) := WithoutHighest(t.left);
      HighestMovesUp(Contents(t.left), t.key, t.value, Contents(t.right), k, v);
      var t1 := t.(left := left, key := k, value := v);
      UnfoldOrder(t1);
      if res == Balance {
        LeftShrunkKeeps(t1);
      }
      RebalanceEntries(t1);
    } else if t.right.Node? {
      LowestEntries(t.right);
      var (right, k, v, res) := WithoutLowest(t.right);
      LowestMovesUp(Contents(t.left), t.key, t.value, Contents(t.right), k, v);
      var t1 := t.(right := right, key := k, value := v);
      UnfoldOrder(t1);
      if res == Balance {
        RightShrunkKeeps(t1);
      }
      RebalanceEntries(t1);
    } else {
      EmptyContents(t.left);
      EmptyContents(t.right);
      EmptyContents(RemovedRoot(t).0);
      LastEntry(t.key, t.value);
    }
  }

  /** The key set shrinks by exactly the given key, and the other entries keep their values. */
  lemma {:induction false} RemovedEntries(t: Shape, key: int)
    requires Avl(t)
    ensures var (t', res) := Removed(t, key);
      && Avl(t') && (res == NotFound <==> key !in Contents(t)) && Contents(t') == Contents(t) - {key}
      && Height(t') == Height(t) - if res == Balance then 1 else 0
  {
    hide Contents, Ordered, Joined, Between, LeftShrunk, RightShrunk, RemovedRoot;
    if t.Leaf? {
      EmptyContents(t);
    } else if key == t.key {
      RootEntries(t);
      KeyAtRoot(t);
    } else {
      UnfoldOrder(t);
      JoinRemove(Contents(t.left), t.key, t.value, Contents(t.right), key);
      if key < t.key {
        RemovedEntries(t.left, key);
        var (left, res) := Removed(t.left, key);
        UnfoldOrder(t.(left := left));
        if res == Balance {
          LeftShrunkKeeps(t.(left := left));
        }
        RebalanceEntries(t.(left := left));
      } else {
        RemovedEntries(t.right, key);
        var (right, res) := Removed(t.right, key);
        UnfoldOrder(t.(right := right));
        if res == Balance {
          RightShrunkKeeps(t.(right := right));
        }
        RebalanceEntries(t.(right := right));
      }
    }
  }

  // ----- Which nodes the tree is made of

  /** How often the tree uses a node. */
  ghost function Uses<N>(t: Shape<N>, n: N): nat {
    if t.Leaf? then 0 else (if t.node == n then 1 else 0) + Uses(t.left, n) + Uses(t.right, n)
  }

  lemma RotatedNodes<N>(t: Shape<N>, n: N)
    requires t.Node?
    ensures t.right.Node? ==> Uses(RotatedLeft(t), n) == Uses(t, n)
    ensures t.left.Node? ==> Uses(RotatedRight(t), n) == Uses(t, n)
  {
  }

  lemma DoublyRotatedNodes<N>(t: Shape<N>, n: N)
    requires t.Node?
    ensures t.left.Node? && t.left.right.Node? ==> Uses(LeftRight(t), n) == Uses(t, n)
    ensures t.right.Node? && t.right.left.Node? ==> Uses(RightLeft(t), n) == Uses(t, n)
  {
    if t.left.Node? && t.left.right.Node? {
      var middle := t.left.right;
      var left := t.left.(skew := if middle.skew == SkewRight then SkewLeft else SkewNone, right := middle.(skew := SkewNone));
      var top := t.(skew := if middle.skew == SkewLeft then SkewRight else SkewNone, left := left);
      assert Uses(middle.(skew := SkewNone), n) == Uses(middle, n);
      assert Uses(left, n) == Uses(t.left, n);
      RotatedNodes(left, n);
      assert Uses(top.(left := RotatedLeft(left)), n) == Uses(t, n);
      RotatedNodes(top.(left := RotatedLeft(left)), n);
    }
    if t.right.Node? && t.right.left.Node? {
      var middle := t.right.left;
      var right := t.right.(skew := if middle.skew == SkewLeft then SkewRight else SkewNone, left := middle.(skew := SkewNone));
      var top := t.(skew := if middle.skew == SkewRight then SkewLeft else SkewNone, right := right);
      assert Uses(middle.(skew := SkewNone), n) == Uses(middle, n);
      assert Uses(right, n) == Uses(t.right, n);
      RotatedNodes(right, n);
      assert Uses(top.(right := RotatedRight(right)), n) == Uses(t, n);
      RotatedNodes(top.(right := RotatedRight(right)), n);
    }
  }

  /** Rebalancing makes the tree of the same nodes. */
  lemma RebalancedNodes<N>(t: Shape<N>, n: N)
    ensures LeftDeep(t) ==> Uses(LeftGrown(t).0, n) == Uses(t, n)
    ensures RightDeep(t) ==> Uses(RightGrown(t).0, n) == Uses(t, n)
    ensures RightTall(t) ==> Uses(LeftShrunk(t).0, n) == Uses(t, n)
    ensures LeftTall(t) ==> Uses(RightShrunk(t).0, n) == Uses(t, n)
  {
    hide LeftRight, RightLeft;
    if t.Node? {
      DoublyRotatedNodes(t, n);
    }
  }

  /** Insertion adds the spare node and no other, or none. */
  lemma {:induction false} InsertedNodes<N>(t: Shape<N>, spare: Option<N>, key: int, value: int, n: N)
    requires Balanced(t)
    ensures var (t', res) := Inserted(t, spare, key, value);
      if res == Duplicate || res == Error then t' == t
      else spare.Some? && Uses(t', n) == Uses(t, n) + (if spare.value == n then 1 else 0)
  {
    hide LeftGrown, RightGrown;
    if t.Node? && key < t.key {
      InsertedNodes(t.left, spare, key, value, n);
      var (left, res) := Inserted(t.left, spare, key, value);
      if res == Balance {
        LeftGrownKeeps(t.(left := left));
      }
      RebalancedNodes(t.(left := left), n);
    } else if t.Node? && t.key < key {
      InsertedNodes(t.right, spare, key, value, n);
      var (right, res) := Inserted(t.right, spare, key, value);
      if res == Balance {
        RightGrownKeeps(t.(right := right));
      }
      RebalancedNodes(t.(right := right), n);
    }
  }

  lemma {:induction false} SpareNeeded<N>(t: Shape<N>, spare: Option<N>, key: int, value: int)
    requires Balanced(t) && spare.None?
    ensures Inserted(t, spare, key, value).1 == Duplicate || Inserted(t, spare, key, value).1 == Error
  {
    hide LeftGrown, RightGrown;
    if t.Node? {
      SpareNeeded(t.left, spare, key, value);
      SpareNeeded(t.right, spare, key, value);
    }
  }

  function HighestNode<N>(t: Shape<N>): N
    requires t.Node?
  {
    if t.right.Node? then HighestNode(t.right) else t.node
  }

  function LowestNode<N>(t: Shape<N>): N
    requires t.Node?
  {
    if t.left.Node? then LowestNode(t.left) else t.node
  }

  /** The node that removing a key frees: that of the neighbour below, which moves into the key's own
    * node, or else that of the neighbour above, or the key's own node if it has no subtrees. */
  function FreedNode<N>(t: Shape<N>, key: int): Option<N> {
    if t.Leaf? then None
    else if key < t.key then FreedNode(t.left, key)
    else if t.key < key then FreedNode(t.right, key)
    else if t.left.Node? then Some(HighestNode(t.left))
    else if t.right.Node? then Some(LowestNode(t.right))
    else Some(t.node)
  }

  lemma {:induction false} SomethingFreed<N>(t: Shape<N>, key: int)
    requires Balanced(t) && Removed(t, key).1 != NotFound
    ensures FreedNode(t, key).Some?
  {
    hide LeftShrunk, RightShrunk, RemovedRoot;
    if t.Node? && key < t.key {
      SomethingFreed(t.left, key);
    } else if t.Node? && t.key < key {
      SomethingFreed(t.right, key);
    }
  }

  lemma {:induction false} HighestNodes<N>(t: Shape<N>, n: N)
    requires t.Node? && Balanced(t)
    ensures Uses(t, n) == Uses(WithoutHighest(t).0, n) + (if HighestNode(t) == n then 1 else 0)
  {
    hide RightShrunk;
    if t.right.Node? {
      HighestNodes(t.right, n);
      var (right, k, v, res) := WithoutHighest(t.right);
      if res == Balance {
        RightShrunkKeeps(t.(right := right));
      }
      RebalancedNodes(t.(right := right), n);
    }
  }

  lemma {:induction false} LowestNodes<N>(t: Shape<N>, n: N)
    requires t.Node? && Balanced(t)
    ensures Uses(t, n) == Uses(WithoutLowest(t).0, n) + (if LowestNode(t) == n then 1 else 0)
  {
    hide LeftShrunk;
    if t.left.Node? {
      LowestNodes(t.left, n);
      var (left, k, v, res) := WithoutLowest(t.left);
      if res == Balance {
        LeftShrunkKeeps(t.(left := left));
      }
      RebalancedNodes(t.(left := left), n);
    }
  }

  lemma RootNodes<N>(t: Shape<N>, n: N)
    requires t.Node? && Balanced(t)
    ensures FreedNode(t, t.key).Some? && Uses(t, n) == Uses(RemovedRoot(t).0, n) + (if FreedNode(t, t.key).value == n then 1 else 0)
  {
    hide LeftShrunk, RightShrunk, WithoutHighest, WithoutLowest;
    if t.left.Node? {
      HighestNodes(t.left, n);
      var (left, k, v, res) := WithoutHighest(t.left);
      var t1 := t.(left := left, key := k, value := v);
      if res == Balance {
        LeftShrunkKeeps(t1);
      }
      RebalancedNodes(t1, n);
    } else if t.right.Node? {
      LowestNodes(t.right, n);
      var (right, k, v, res) := WithoutLowest(t.right);
      var t1 := t.(right := right, key := k, value := v);
      if res == Balance {
        RightShrunkKeeps(t1);
      }
      RebalancedNodes(t1, n);
    }
  }

  /** Removal frees exactly one node, the one just named, and keeps all the others. */
  lemma {:induction false} RemovedNodes<N>(t: Shape<N>, key: int, n: N)
    requires Balanced(t)
    ensures var (t', res) := Removed(t, key);
      if res == NotFound then t' == t
      else FreedNode(t, key).Some? && Uses(t, n) == Uses(t', n) + (if FreedNode(t, key).value == n then 1 else 0)
  {
    hide LeftShrunk, RightShrunk, RemovedRoot;
    if t.Node? && key < t.key {
      RemovedNodes(t.left, key, n);
      var (left, res) := Removed(t.left, key);
      if res == Balance {
        LeftShrunkKeeps(t.(left := left));
      }
      RebalancedNodes(t.(left := left), n);
    } else if t.Node? && t.key < key {
      RemovedNodes(t.right, key, n);
      var (right, res) := Removed(t.right, key);
      if res == Balance {
        RightShrunkKeeps(t.(right := right));
      }
      RebalancedNodes(t.(right := right), n);
    } else if t.Node? {
      RootNodes(t, n);
    }
  }

  // ----- How high a tree can be

  function Fib(n: nat): nat {
    if n < 2 then n else Fib(n - 1) + Fib(n - 2)
  }

  lemma {:induction false} FibGrows(m: nat, n: nat)
    requires m <= n
    ensures Fib(m) <= Fib(n)
    decreases n
  {
    if m < n && n >= 2 {
      FibGrows(m, n - 1);
    }
  }

  /** A balanced tree of height `h` holds at least `Fib(h + 2) - 1` entries. */
  lemma {:induction false} SizeBound(t: Shape)
    requires Balanced(t)
    ensures Fib(Height(t) + 2) <= Size(t) + 1
  {
    if t.Leaf? {
      assert Fib(2) == Fib(1) + Fib(0);
    } else {
      var h := Height(t);
      SizeBound(t.left);
      SizeBound(t.right);
      var low, high := if Height(t.left) < Height(t.right) then t.left else t.right,
                       if Height(t.left) < Height(t.right) then t.right else t.left;
      FibGrows(h, Height(low) + 2);
      assert Fib(h + 2) == Fib(h + 1) + Fib(h);
    }
  }

  /** Every entry is a node of its own. */
  lemma {:induction false} SizeIsCount(t: Shape)
    requires Ordered(t)
    ensures |Contents(t)| == Size(t)
  {
    if t.Node? {
      SizeIsCount(t.left);
      SizeIsCount(t.right);
      UnfoldOrder(t);
      JoinCount(Contents(t.left), t.key, t.value, Contents(t.right));
    }
  }

  lemma JoinCount(l: map<int, int>, k: int, v: int, r: map<int, int>)
    requires Between(l, k, r)
    ensures |Joined(l, k, v, r)| == |l| + 1 + |r|
  {
    hide Joined;
    JoinedKeys(l, k, v, r);
    BetweenKeys(l, k, r);
    KeysCount(l.Keys, k, r.Keys);
    MapSize(l);
    MapSize(r);
    MapSize(Joined(l, k, v, r));
  }

  lemma BetweenKeys(l: map<int, int>, k: int, r: map<int, int>)
    requires Between(l, k, r)
    ensures l.Keys !! r.Keys && k !in l.Keys && k !in r.Keys
  {
    assert k !in l && k !in r;
    forall x ensures x !in l.Keys || x !in r.Keys {
      assert x !in l || x !in r;
    }
  }

  lemma JoinedKeys(l: map<int, int>, k: int, v: int, r: map<int, int>)
    ensures Joined(l, k, v, r).Keys == l.Keys + r.Keys + {k}
  {
  }

  lemma MapSize(m: map<int, int>)
    ensures |m| == |m.Keys|
  {
  }

  lemma KeysCount(l: set<int>, k: int, r: set<int>)
    requires l !! r && k !in l && k !in r
    ensures |l + r + {k}| == |l| + 1 + |r|
  {
    assert |l + r| == |l| + |r|;
  }
}
