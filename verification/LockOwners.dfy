/** The owners of one lock: entering, leaving and being evicted. */
module LockOwners {
  import opened LockStates

  /** How often a sub-thread has entered the lock. */
  function RecursionOf(owners: seq<Owner>, sth: SubThread): nat {
    if owners == [] then 0
    else (if owners[0].sth == sth then owners[0].recursion else 0) + RecursionOf(owners[1..], sth)
  }

  function IndexOf(owners: seq<Owner>, sth: SubThread): (k: nat)
    ensures k <= |owners| && forall j :: 0 <= j < k ==> owners[j].sth != sth
    ensures k < |owners| ==> owners[k].sth == sth
  {
    if owners == [] || owners[0].sth == sth then 0 else 1 + IndexOf(owners[1..], sth)
  }

  /** Entering once more: a counter goes up, or a new owner comes first. */
  function Entered(owners: seq<Owner>, sth: SubThread): seq<Owner> {
    var k := IndexOf(owners, sth);
    if k < |owners| then owners[k := Owner(sth, owners[k].recursion + 1)] else [Owner(sth, 1)] + owners
  }

  /** Leaving once: a counter goes down, or the owner goes away. */
  function Left(owners: seq<Owner>, sth: SubThread): seq<Owner>
    requires IndexOf(owners, sth) < |owners| && owners[IndexOf(owners, sth)].recursion > 0
  {
    var k := IndexOf(owners, sth);
    if owners[k].recursion > 1 then owners[k := Owner(sth, owners[k].recursion - 1)] else Remove(owners, k)
  }

  lemma {:induction false} RecursionAt(owners: seq<Owner>, k: nat, sth: SubThread)
    requires DistinctOwners(owners) && k < |owners|
    ensures RecursionOf(owners, owners[k].sth) == owners[k].recursion
    ensures (forall j :: 0 <= j < |owners| ==> owners[j].sth != sth) ==> RecursionOf(owners, sth) == 0
  {
    if k > 0 {
      RecursionAt(owners[1..], k - 1, sth);
    } else if |owners| > 1 {
      RecursionAt(owners[1..], 0, sth);
      RecursionAt(owners[1..], 0, owners[0].sth);
    }
  }

  lemma {:induction false} RecursionSet(owners: seq<Owner>, k: nat, r: nat, sth: SubThread)
    requires k < |owners|
    ensures RecursionOf(owners[k := Owner(owners[k].sth, r)], sth)
      == RecursionOf(owners, sth) + (if owners[k].sth == sth then r - owners[k].recursion else 0)
  {
    var o := owners[k := Owner(owners[k].sth, r)];
    if k == 0 {
      assert o[1..] == owners[1..];
    } else {
      RecursionSet(owners[1..], k - 1, r, sth);
      assert o[1..] == owners[1..][k - 1 := Owner(owners[k].sth, r)];
    }
  }

  lemma {:induction false} RecursionRemoved(owners: seq<Owner>, k: nat, sth: SubThread)
    requires k < |owners|
    ensures RecursionOf(Remove(owners, k), sth)
      == RecursionOf(owners, sth) - (if owners[k].sth == sth then owners[k].recursion else 0)
  {
    var o := Remove(owners, k);
    if k == 0 {
      assert o == owners[1..];
    } else {
      RecursionRemoved(owners[1..], k - 1, sth);
      assert o[1..] == Remove(owners[1..], k - 1);
    }
  }

  /** Entering counts for the sub-thread alone. */
  lemma EnteredCounts(owners: seq<Owner>, sth: SubThread, other: SubThread)
    ensures RecursionOf(Entered(owners, sth), other) == RecursionOf(owners, other) + if other == sth then 1 else 0
  {
    var k := IndexOf(owners, sth);
    if k < |owners| {
      RecursionSet(owners, k, owners[k].recursion + 1, other);
    } else {
      assert Entered(owners, sth)[1..] == owners;
    }
  }

  lemma LeftCounts(owners: seq<Owner>, sth: SubThread, other: SubThread)
    requires IndexOf(owners, sth) < |owners| && owners[IndexOf(owners, sth)].recursion > 0
    ensures RecursionOf(Left(owners, sth), other) == RecursionOf(owners, other) - if other == sth then 1 else 0
  {
    var k := IndexOf(owners, sth);
    if owners[k].recursion > 1 {
      RecursionSet(owners, k, (owners[k].recursion - 1) as nat, other);
    } else {
      RecursionRemoved(owners, k, other);
    }
  }

  /** Leaving undoes entering. */
  lemma LeaveUndoesEnter(owners: seq<Owner>, sth: SubThread)
    requires forall i :: 0 <= i < |owners| ==> owners[i].recursion >= 1
    ensures var e := Entered(owners, sth);
      IndexOf(e, sth) < |e| && e[IndexOf(e, sth)].recursion > 0 && Left(e, sth) == owners
  {
    var k, e := IndexOf(owners, sth), Entered(owners, sth);
    if k < |owners| {
      var m := IndexOf(e, sth);
      assert e[k].sth == sth;
      assert m == k;
    } else {
      assert IndexOf(e, sth) == 0;
    }
  }

  lemma EnteredFits(threadOf: map<SubThread, Thread>, th: Thread, owners: seq<Owner>, sth: SubThread)
    requires OwnersFit(threadOf, th, owners) && sth in threadOf && threadOf[sth] == th
    ensures OwnersFit(threadOf, th, Entered(owners, sth)) && Entered(owners, sth) != []
  {
  }

  lemma LeftFits(threadOf: map<SubThread, Thread>, th: Thread, owners: seq<Owner>, sth: SubThread)
    requires OwnersFit(threadOf, th, owners) && IndexOf(owners, sth) < |owners|
    ensures owners[IndexOf(owners, sth)].recursion > 0
    ensures OwnersFit(threadOf, th, Left(owners, sth))
  {
    var k := IndexOf(owners, sth);
    if owners[k].recursion == 1 {
      RemovedFits(threadOf, th, owners, k);
    }
  }

  lemma RemovedFits(threadOf: map<SubThread, Thread>, th: Thread, owners: seq<Owner>, k: nat)
    requires OwnersFit(threadOf, th, owners) && k < |owners|
    ensures OwnersFit(threadOf, th, Remove(owners, k))
  {
    RemovedAt(owners, k);
    hide Remove;
  }

  /** All entries of a sub-thread disappear. */
  function Evicted(owners: seq<Owner>, sth: SubThread): (r: seq<Owner>)
    ensures |r| <= |owners|
    ensures forall i :: 0 <= i < |r| ==> r[i] in owners && r[i].sth != sth
    ensures forall o :: o in owners && o.sth != sth ==> o in r
  {
    if owners == [] then []
    else if owners[0].sth == sth then Evicted(owners[1..], sth) else [owners[0]] + Evicted(owners[1..], sth)
  }

  lemma {:induction false} EvictedDistinct(owners: seq<Owner>, sth: SubThread)
    requires DistinctOwners(owners)
    ensures DistinctOwners(Evicted(owners, sth))
  {
    if owners != [] {
      EvictedDistinct(owners[1..], sth);
      forall o | o in owners[1..] ensures o.sth != owners[0].sth {
        var i :| 0 <= i < |owners[1..]| && owners[1..][i] == o;
      }
    }
  }

  lemma EvictedFits(threadOf: map<SubThread, Thread>, th: Thread, owners: seq<Owner>, sth: SubThread)
    requires OwnersFit(threadOf, th, owners)
    ensures OwnersFit(threadOf, th, Evicted(owners, sth))
  {
    EvictedDistinct(owners, sth);
  }

  /** Nobody is evicted who does not own. */
  lemma {:induction false} EvictedSame(owners: seq<Owner>, sth: SubThread)
    requires IndexOf(owners, sth) == |owners|
    ensures Evicted(owners, sth) == owners
  {
    if owners != [] {
      EvictedSame(owners[1..], sth);
    }
  }

  lemma EvictedIndex(owners: seq<Owner>, sth: SubThread)
    ensures IndexOf(Evicted(owners, sth), sth) == |Evicted(owners, sth)|
  {
  }
}
