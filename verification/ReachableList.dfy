/** The linked list of reachable weak delegate lists, and what linking a node into it does. */
module ReachableLists {

  type Node = int

  const NULL: Node := 0
  const HEAD: Node := -1
  const TAIL: Node := -2

  datatype Links = Links(next: map<Node, Node>, prev: map<Node, Node>)

  /** The node at place `k`: the ends of the list are nodes, too. */
  function NodeAt(s: seq<Node>, k: int): Node
    requires -1 <= k <= |s|
  {
    if k < 0 then HEAD else if k < |s| then s[k] else TAIL
  }

  ghost predicate Members(s: seq<Node>) {
    && (forall i, j :: 0 <= i < j < |s| ==> s[i] != s[j])
    && (forall x :: x in s ==> x != NULL && x != HEAD && x != TAIL)
  }

  /** The links of `s` lead forwards and backwards from end to end. */
  ghost predicate Represents(l: Links, s: seq<Node>) {
    && Members(s)
    && (forall k {:trigger NodeAt(s, k)} :: 0 <= k <= |s| ==> NodeAt(s, k) in l.prev && l.prev[NodeAt(s, k)] == NodeAt(s, k - 1))
    && (forall k {:trigger NodeAt(s, k)} :: -1 <= k < |s| ==> NodeAt(s, k) in l.next && l.next[NodeAt(s, k)] == NodeAt(s, k + 1))
  }

  /** ClearData. */
  function Cleared(l: Links, x: Node): Links {
    Links(l.next[x := NULL], l.prev[x := NULL])
  }

  /** RemoveFromList: the neighbours, if there are any, become neighbours of each other. */
  function Bypassed(l: Links, x: Node): Links
    requires x in l.next && x in l.prev
  {
    var prev, next := l.prev[x], l.next[x];
    Links(if prev != NULL then l.next[prev := next] else l.next, if next != NULL then l.prev[next := prev] else l.prev)
  }

  function Inserted(l: Links, prev: Node, next: Node, x: Node): Links {
    Links(l.next[x := next][prev := x], l.prev[x := prev][next := x])
  }

  /** LinkAtBack. */
  function LinkedAtBack(l: Links, x: Node): Links
    requires x in l.next && x in l.prev && TAIL in l.prev
  {
    var l1 := Bypassed(l, x);
    Inserted(l1, l1.prev[TAIL], TAIL, x)
  }

  function Without(s: seq<Node>, k: nat): seq<Node>
    requires k < |s|
  {
    s[..k] + s[k + 1..]
  }

  lemma WithoutAt(s: seq<Node>, k: nat, j: int)
    requires k < |s| && -1 <= j <= |s| - 1
    ensures NodeAt(Without(s, k), j) == NodeAt(s, if j < k then j else j + 1)
  {
  }

  lemma AppendedAt(s: seq<Node>, x: Node, j: int)
    requires -1 <= j <= |s| + 1
    ensures NodeAt(s + [x], j) == if j < |s| then NodeAt(s, j) else if j == |s| then x else TAIL
  {
  }

  lemma NodesDiffer(s: seq<Node>, i: int, j: int)
    requires Members(s) && -1 <= i < j <= |s|
    ensures NodeAt(s, i) != NodeAt(s, j) && NodeAt(s, i) != NULL && NodeAt(s, j) != NULL
    ensures NodeAt(s, j) != HEAD && NodeAt(s, i) != TAIL
  {
    assert 0 <= i ==> s[i] in s;
    assert 0 <= j < |s| ==> s[j] in s;
  }

  lemma WithoutMembers(s: seq<Node>, k: nat)
    requires Members(s) && k < |s|
    ensures Members(Without(s, k)) && s[k] !in Without(s, k)
  {
    var s' := Without(s, k);
    assert forall i :: 0 <= i < |s'| ==> s'[i] == s[if i < k then i else i + 1];
    forall x | x in s' ensures x in s && x != s[k] {
      var i :| 0 <= i < |s'| && s'[i] == x;
      assert x == s[if i < k then i else i + 1];
    }
  }

  /** A node between the last one and the end. */
  lemma InsertAtBack(l: Links, s: seq<Node>, x: Node)
    requires Represents(l, s) && TAIL in l.prev && x !in s && x != NULL && x != HEAD && x != TAIL
    ensures Represents(Inserted(l, l.prev[TAIL], TAIL, x), s + [x])
  {
    var l', s' := Inserted(l, l.prev[TAIL], TAIL, x), s + [x];
    assert NodeAt(s, |s|) == TAIL && l.prev[TAIL] == NodeAt(s, |s| - 1);
    forall k | 0 <= k <= |s'| ensures NodeAt(s', k) in l'.prev && l'.prev[NodeAt(s', k)] == NodeAt(s', k - 1) {
      AppendedAt(s, x, k);
      AppendedAt(s, x, k - 1);
      if k < |s| { NodesDiffer(s, k, |s|); }
    }
    forall k | -1 <= k < |s'| ensures NodeAt(s', k) in l'.next && l'.next[NodeAt(s', k)] == NodeAt(s', k + 1) {
      AppendedAt(s, x, k);
      AppendedAt(s, x, k + 1);
      if k < |s| - 1 { NodesDiffer(s, k, |s| - 1); }
    }
  }

  lemma BypassedLinks(l: Links, s: seq<Node>, k: nat)
    requires Represents(l, s) && k < |s|
    ensures s[k] in l.next && s[k] in l.prev
    ensures Bypassed(l, s[k])
      == Links(l.next[NodeAt(s, k - 1) := NodeAt(s, k + 1)], l.prev[NodeAt(s, k + 1) := NodeAt(s, k - 1)])
  {
    assert NodeAt(s, k) == s[k];
    NodesDiffer(s, k - 1, k);
    NodesDiffer(s, k, k + 1);
  }

  lemma BypassedPrev(l: Links, s: seq<Node>, k: nat, j: nat)
    requires Represents(l, s) && k < |s| && j < |s|
    ensures var prev, a := l.prev[NodeAt(s, k + 1) := NodeAt(s, k - 1)], NodeAt(Without(s, k), j);
      a in prev && prev[a] == NodeAt(Without(s, k), j - 1)
  {
    WithoutAt(s, k, j);
    WithoutAt(s, k, j - 1);
    if j < k { NodesDiffer(s, j, k + 1); } else if j > k { NodesDiffer(s, k + 1, j + 1); }
  }

  lemma BypassedNext(l: Links, s: seq<Node>, k: nat, j: int)
    requires Represents(l, s) && k < |s| && -1 <= j < |s| - 1
    ensures var next, a := l.next[NodeAt(s, k - 1) := NodeAt(s, k + 1)], NodeAt(Without(s, k), j);
      a in next && next[a] == NodeAt(Without(s, k), j + 1)
  {
    WithoutAt(s, k, j);
    WithoutAt(s, k, j + 1);
    if j < k - 1 { NodesDiffer(s, j, k - 1); } else if j > k - 1 { NodesDiffer(s, k - 1, j + 1); }
  }

  /** A node that leaves the list closes the gap behind it. */
  lemma BypassListed(l: Links, s: seq<Node>, k: nat)
    requires Represents(l, s) && k < |s|
    ensures s[k] in l.next && s[k] in l.prev && Represents(Bypassed(l, s[k]), Without(s, k))
  {
    hide Bypassed, NodeAt;
    WithoutMembers(s, k);
    BypassedLinks(l, s, k);
    forall j | 0 <= j < |s| ensures NodeAt(Without(s, k), j) in Bypassed(l, s[k]).prev
      && Bypassed(l, s[k]).prev[NodeAt(Without(s, k), j)] == NodeAt(Without(s, k), j - 1) {
      BypassedPrev(l, s, k, j);
    }
    forall j | -1 <= j < |s| - 1 ensures NodeAt(Without(s, k), j) in Bypassed(l, s[k]).next
      && Bypassed(l, s[k]).next[NodeAt(Without(s, k), j)] == NodeAt(Without(s, k), j + 1) {
      BypassedNext(l, s, k, j);
    }
  }

  lemma ClearedKeeps(l: Links, s: seq<Node>, x: Node)
    requires Represents(l, s) && x !in s && x != NULL && x != HEAD && x != TAIL
    ensures Represents(Cleared(l, x), s)
  {
    forall k | -1 <= k <= |s| ensures NodeAt(s, k) != x {
      assert 0 <= k < |s| ==> s[k] in s;
    }
  }

  /** A node that is linked for the first time goes to the end. */
  lemma FirstLink(l: Links, s: seq<Node>, x: Node)
    requires Represents(l, s) && x !in s && x != NULL && x != HEAD && x != TAIL
    ensures TAIL in Cleared(l, x).prev && Represents(LinkedAtBack(Cleared(l, x), x), s + [x])
  {
    assert NodeAt(s, |s|) == TAIL;
    ClearedKeeps(l, s, x);
    InsertAtBack(Cleared(l, x), s, x);
  }

  /** A node that is on the list, linked again without being cleared before, moves to the end: what
    * visiting a weak delegate list for the second time is meant to do. */
  lemma LinkAgain(l: Links, s: seq<Node>, k: nat)
    requires Represents(l, s) && k < |s|
    ensures s[k] in l.next && s[k] in l.prev && TAIL in l.prev
    ensures Represents(LinkedAtBack(l, s[k]), Without(s, k) + [s[k]])
  {
    assert NodeAt(s, |s|) == TAIL;
    assert s[k] in s;
    BypassListed(l, s, k);
    WithoutMembers(s, k);
    assert NodeAt(Without(s, k), |Without(s, k)|) == TAIL;
    InsertAtBack(Bypassed(l, s[k]), Without(s, k), s[k]);
  }

  /** Cleared before, the node forgets its neighbours, but they still know it: the list ends behind
    * it, or, if it was the last one, never. */
  lemma ClearedLink(l: Links, s: seq<Node>, k: nat)
    requires Represents(l, s) && k < |s|
    ensures TAIL in Cleared(l, s[k]).prev
    ensures var l' := LinkedAtBack(Cleared(l, s[k]), s[k]);
      && (forall j {:trigger NodeAt(s, j)} :: -1 <= j < k ==> NodeAt(s, j) in l'.next && l'.next[NodeAt(s, j)] == NodeAt(s, j + 1))
      && s[k] in l'.next && l'.next[s[k]] == if k == |s| - 1 then s[k] else TAIL
  {
    assert NodeAt(s, |s|) == TAIL && NodeAt(s, k) == s[k];
    NodesDiffer(s, k, |s|);
    assert NodeAt(s, |s| - 1) == s[|s| - 1];
    forall j | -1 <= j < k ensures NodeAt(s, j) != s[k] && NodeAt(s, j) != NodeAt(s, |s| - 1) {
      NodesDiffer(s, j, k);
      NodesDiffer(s, j, |s| - 1);
    }
  }

  lemma {:induction false} SameStart(l: Links, s: seq<Node>, s': seq<Node>, k: nat, j: nat)
    requires Represents(l, s') && Members(s) && j <= k < |s|
    requires forall i {:trigger NodeAt(s, i)} :: -1 <= i < k ==> NodeAt(s, i) in l.next && l.next[NodeAt(s, i)] == NodeAt(s, i + 1)
    ensures j < |s'| && s'[j] == s[j]
  {
    if j > 0 {
      SameStart(l, s, s', k, j - 1);
    }
    assert NodeAt(s, j - 1) == NodeAt(s', j - 1);
    assert l.next[NodeAt(s, j - 1)] == NodeAt(s, j) && l.next[NodeAt(s', j - 1)] == NodeAt(s', j);
    assert s[j] in s;
  }

  /** Clearing before linking yields a list of all the nodes exactly if the node was not on it. */
  lemma ClearedLinkWorks(l: Links, s: seq<Node>, x: Node)
    requires Represents(l, s) && x != NULL && x != HEAD && x != TAIL && TAIL in Cleared(l, x).prev
    ensures (exists s' :: Represents(LinkedAtBack(Cleared(l, x), x), s') && forall y :: y in s' <==> y in s || y == x)
      <==> x !in s
  {
    var l' := LinkedAtBack(Cleared(l, x), x);
    if x !in s {
      FirstLink(l, s, x);
      assert forall y :: y in s + [x] <==> y in s || y == x;
    } else {
      forall s' | Represents(l', s') ensures exists y :: (y in s || y == x) && y !in s' {
        ClearedLinkFails(l, s, s', x);
      }
    }
  }

  lemma ClearedLinkFails(l: Links, s: seq<Node>, s': seq<Node>, x: Node)
    requires Represents(l, s) && x in s && TAIL in Cleared(l, x).prev && Represents(LinkedAtBack(Cleared(l, x), x), s')
    ensures exists y :: y in s && y !in s'
  {
    var l' := LinkedAtBack(Cleared(l, x), x);
    var k :| 0 <= k < |s| && s[k] == x;
    ClearedLink(l, s, k);
    SameStart(l', s, s', k, k);
    assert NodeAt(s', k) == x && l'.next[x] == NodeAt(s', k + 1);
    NodesDiffer(s', k, k + 1);
    assert TAIL !in s';
    assert |s'| == k + 1;
    forall j | 0 <= j < |s'| ensures s'[j] == s[j] {
      SameStart(l', s, s', k, j);
    }
    assert s[k + 1] in s && s[k + 1] !in s';
  }
}
