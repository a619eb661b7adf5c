/** Circular lists threaded through one index space, as the method cache keeps them: one ring per
  * hash bucket, and one ring in order of use. */
module LinkRings {

  /** The two link words of every index. */
  datatype Links = Links(next: seq<nat>, prev: seq<nat>)
  {
    predicate Closed(n: nat) {
      |next| == n && |prev| == n && (forall i :: 0 <= i < n ==> next[i] < n) && (forall i :: 0 <= i < n ==> prev[i] < n)
    }
  }

  /** Element `i` of the ring that starts and ends at its head; -1 and |s| are the head. */
  function At(head: nat, s: seq<nat>, i: int): nat
    requires -1 <= i <= |s|
  {
    if 0 <= i < |s| then s[i] else head
  }

  /** Positions `i` and `i + 1` of the ring are linked both ways. */
  ghost predicate Pair(l: Links, head: nat, s: seq<nat>, i: int)
    requires -1 <= i < |s|
  {
    && At(head, s, i) < |l.next| && At(head, s, i + 1) < |l.prev|
    && l.next[At(head, s, i)] == At(head, s, i + 1) && l.prev[At(head, s, i + 1)] == At(head, s, i)
  }

  /** The ring of `head` holds exactly `s`, in this order, and the links mirror each other. */
  ghost predicate Ring(l: Links, head: nat, s: seq<nat>) {
    forall i :: -1 <= i < |s| ==> Pair(l, head, s, i)
  }

  /** The head and the elements are all different. */
  ghost predicate Distinct(head: nat, s: seq<nat>) {
    head !in s && forall i, j :: 0 <= i < j < |s| ==> s[i] != s[j]
  }

  function Unlinked(l: Links, idx: nat): Links
    requires idx < |l.next| && idx < |l.prev| && l.next[idx] < |l.prev| && l.prev[idx] < |l.next|
  {
    Links(l.next[l.prev[idx] := l.next[idx]], l.prev[l.next[idx] := l.prev[idx]])
  }

  function InsertedAfter(l: Links, slot: nat, idx: nat): Links
    requires slot < |l.next| && idx < |l.next| && idx < |l.prev| && l.next[slot] < |l.prev|
  {
    Links(l.next[idx := l.next[slot]][slot := idx], l.prev[idx := slot][l.next[slot] := idx])
  }

  /** MoveEntryToTop. */
  function MovedToTop(l: Links, slot: nat, idx: nat): (r: Links)
    requires l.Closed(|l.next|) && slot < |l.next| && idx < |l.next|
    ensures r.Closed(|l.next|)
  {
    if l.next[slot] == idx then l else InsertedAfter(Unlinked(l, idx), slot, idx)
  }

  function Without(s: seq<nat>, j: nat): seq<nat>
    requires j < |s|
  {
    s[..j] + s[j + 1..]
  }

  /** Taking an element out of its ring. */
  lemma UnlinkRing(l: Links, head: nat, s: seq<nat>, j: nat)
    requires Ring(l, head, s) && Distinct(head, s) && j < |s| && l.Closed(|l.next|) && s[j] < |l.next|
    ensures Ring(Unlinked(l, s[j]), head, Without(s, j)) && Distinct(head, Without(s, j))
    ensures s[j] !in Without(s, j)
    ensures forall x :: x in Without(s, j) <==> x in s && x != s[j]
  {
    var idx, t := s[j], Without(s, j);
    WithoutMembers(s, j);
    assert Pair(l, head, s, j - 1) && Pair(l, head, s, j);
    forall i: int | -1 <= i < |t| ensures Pair(Unlinked(l, idx), head, t, i) {
      UnlinkPair(l, head, s, j, i);
    }
  }

  lemma UnlinkPair(l: Links, head: nat, s: seq<nat>, j: nat, i: int)
    requires Ring(l, head, s) && Distinct(head, s) && j < |s| && l.Closed(|l.next|) && s[j] < |l.next|
    requires -1 <= i < |s| - 1
    ensures Pair(Unlinked(l, s[j]), head, Without(s, j), i)
  {
    var t := Without(s, j);
    var a, b := if i < j then i else i + 1, if i + 1 < j then i + 1 else i + 2;
    assert At(head, t, i) == At(head, s, a) && At(head, t, i + 1) == At(head, s, b);
    assert Pair(l, head, s, j - 1) && Pair(l, head, s, j);
    if i != j - 1 {
      assert Pair(l, head, s, a);
      AtDistinct(head, s, a, j - 1);
      AtDistinct(head, s, b, j + 1);
    }
  }

  /** Positions determine elements, up to the two names of the head. */
  lemma AtDistinct(head: nat, s: seq<nat>, i: int, j: int)
    requires Distinct(head, s) && -1 <= i <= |s| && -1 <= j <= |s|
    ensures At(head, s, i) == At(head, s, j) <==> i == j || (i in {-1, |s|} && j in {-1, |s|})
  {
  }

  lemma WithoutMembers(s: seq<nat>, j: nat)
    requires j < |s| && forall a, b :: 0 <= a < b < |s| ==> s[a] != s[b]
    ensures forall x :: x in Without(s, j) <==> x in s && x != s[j]
    ensures forall a, b :: 0 <= a < b < |Without(s, j)| ==> Without(s, j)[a] != Without(s, j)[b]
  {
    var t := Without(s, j);
    forall x | x in s && x != s[j] ensures x in t {
      var i :| 0 <= i < |s| && s[i] == x;
      assert t[if i < j then i else i - 1] == x;
    }
  }

  /** Putting a loose element first. */
  lemma InsertRing(l: Links, head: nat, s: seq<nat>, idx: nat)
    requires Ring(l, head, s) && Distinct(head, s) && idx !in s && idx != head && l.Closed(|l.next|)
    requires idx < |l.next| && head < |l.next|
    ensures Ring(InsertedAfter(l, head, idx), head, [idx] + s) && Distinct(head, [idx] + s)
  {
    var t := [idx] + s;
    forall i: int | -1 <= i < |t| ensures Pair(InsertedAfter(l, head, idx), head, t, i) {
      InsertPair(l, head, s, idx, i);
    }
  }

  lemma InsertPair(l: Links, head: nat, s: seq<nat>, idx: nat, i: int)
    requires Ring(l, head, s) && Distinct(head, s) && idx !in s && idx != head && l.Closed(|l.next|)
    requires idx < |l.next| && head < |l.next| && -1 <= i <= |s|
    ensures Pair(InsertedAfter(l, head, idx), head, [idx] + s, i)
  {
    var t := [idx] + s;
    assert Pair(l, head, s, -1);
    if i >= 1 {
      assert At(head, t, i) == At(head, s, i - 1) && At(head, t, i + 1) == At(head, s, i);
      assert Pair(l, head, s, i - 1);
      AtDistinct(head, s, i - 1, -1);
      AtDistinct(head, s, i, 0);
    }
  }

  /** Rings that share no index with an operation keep their links. */
  lemma RingFrame(l: Links, l': Links, head: nat, s: seq<nat>)
    requires Ring(l, head, s) && |l'.next| == |l.next| && |l'.prev| == |l.prev|
    requires forall i :: 0 <= i < |l.next| && (i == head || i in s) ==> l'.next[i] == l.next[i]
    requires forall i :: 0 <= i < |l.prev| && (i == head || i in s) ==> l'.prev[i] == l.prev[i]
    ensures Ring(l', head, s)
  {
    forall i: int | -1 <= i < |s| ensures Pair(l', head, s, i) {
      assert Pair(l, head, s, i);
      assert At(head, s, i) == head || At(head, s, i) in s;
      assert At(head, s, i + 1) == head || At(head, s, i + 1) in s;
    }
  }
}
