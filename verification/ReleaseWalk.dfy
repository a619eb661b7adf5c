/** Destroying a sub-thread walks the list of locks of its thread and gives each of them up, while locks
  * that find their next owner in the same thread go to the end of the very list. */
module ReleaseWalks {
  import opened LockStates
  import opened LockOwners
  import opened LockFacts
  import opened LockSteps

  // ----- The walk in numbers

  /** A lock still ahead of the walk: how often giving it up hands it back to the sub-thread, and how
    * often it comes back to the end of the list. */
  datatype Visit = Visit(back: nat, rounds: nat)

  predicate VisitOK(v: Visit) {
    v.back <= v.rounds
  }

  /** The lock after one more visit, if it is still on the list. */
  function Again(v: Visit): seq<Visit> {
    if v.rounds == 0 then [] else [Visit(if v.back == 0 then 0 else v.back - 1, v.rounds - 1)]
  }

  /** A lock is given up for good if some other lock is still on the list whenever it is handed back: one
    * behind it that comes back almost as often, or one in front of it that comes back as often. */
  predicate Accompanied(q: seq<Visit>, i: nat)
    requires i < |q|
  {
    || q[i].back == 0
    || (exists j :: i < j < |q| && q[j].rounds >= q[i].back - 1)
    || (exists j :: 0 <= j < i && q[j].rounds >= q[i].back)
  }

  predicate AllAccompanied(q: seq<Visit>) {
    forall i :: 0 <= i < |q| ==> Accompanied(q, i)
  }

  /** Visiting the first lock of several does not change the outcome. */
  lemma WalkOn(q: seq<Visit>)
    requires |q| >= 2 && forall i :: 0 <= i < |q| ==> VisitOK(q[i])
    ensures AllAccompanied(q) <==> AllAccompanied(q[1..] + Again(q[0]))
    ensures forall v :: v in q[1..] + Again(q[0]) ==> VisitOK(v)
  {
    var n, p := |q| - 1, q[1..] + Again(q[0]);
    hide AllAccompanied;
    forall i: nat | i < n ensures Accompanied(p, i) <==> Accompanied(q, i + 1) {
      OthersWalkOn(q, p, i);
    }
    FirstWalksOn(q, p);
    forall i: nat | i < |p| ensures Accompanied(p, i) <==> Accompanied(q, if i < n then i + 1 else 0) {
    }
    AllOfThem(q, p);
  }

  lemma OthersWalkOn(q: seq<Visit>, p: seq<Visit>, i: nat)
    requires |q| >= 2 && i + 1 < |q| && p == q[1..] + Again(q[0])
    ensures Accompanied(p, i) <==> Accompanied(q, i + 1)
  {
    var n := |q| - 1;
    if Accompanied(p, i) && q[i + 1].back != 0 {
      if j :| i < j < |p| && p[j].rounds >= p[i].back - 1 {
        if j < n { assert q[j + 1] == p[j]; } else { assert q[0].rounds >= q[i + 1].back; }
      } else {
        var j :| 0 <= j < i && p[j].rounds >= p[i].back;
        assert q[j + 1] == p[j];
      }
    }
    if Accompanied(q, i + 1) && q[i + 1].back != 0 {
      if j :| i + 1 < j < |q| && q[j].rounds >= q[i + 1].back - 1 {
        assert p[j - 1] == q[j];
      } else {
        var j :| 0 <= j < i + 1 && q[j].rounds >= q[i + 1].back;
        if j == 0 { assert p[n].rounds == q[0].rounds - 1; } else { assert p[j - 1] == q[j]; }
      }
    }
  }

  lemma FirstWalksOn(q: seq<Visit>, p: seq<Visit>)
    requires |q| >= 2 && p == q[1..] + Again(q[0]) && VisitOK(q[0])
    ensures if q[0].rounds == 0 then Accompanied(q, 0) else |p| == |q| && (Accompanied(p, |q| - 1) <==> Accompanied(q, 0))
  {
    var n := |q| - 1;
    if q[0].rounds != 0 {
      assert p[n] == Again(q[0])[0];
      if q[0].back == 1 {
        assert q[1].rounds >= 0;
      }
      if q[0].back > 1 {
        if j :| 0 <= j < n && p[j].rounds >= p[n].back {
          assert q[j + 1] == p[j];
        }
        if j :| 0 < j < |q| && q[j].rounds >= q[0].back - 1 {
          assert p[j - 1] == q[j];
        }
      }
    }
  }

  lemma AllOfThem(q: seq<Visit>, p: seq<Visit>)
    requires |q| >= 2 && |q| - 1 <= |p| <= |q|
    requires forall i: nat :: i < |p| ==> (Accompanied(p, i) <==> Accompanied(q, if i < |q| - 1 then i + 1 else 0))
    requires |p| < |q| ==> Accompanied(q, 0)
    ensures AllAccompanied(q) <==> AllAccompanied(p)
  {
    hide Accompanied;
    if AllAccompanied(p) {
      forall i | 0 <= i < |q| ensures Accompanied(q, i) {
        if i > 0 {
          assert Accompanied(p, i - 1);
        } else if |p| == |q| {
          assert Accompanied(p, |q| - 1);
        }
      }
    }
  }

  /** How many visits the walk has ahead of it at most. */
  function VisitsLeft(q: seq<Visit>): nat {
    if q == [] then 0 else 1 + q[0].rounds + VisitsLeft(q[1..])
  }

  lemma {:induction false} VisitsLeftAppend(q: seq<Visit>, p: seq<Visit>)
    ensures VisitsLeft(q + p) == VisitsLeft(q) + VisitsLeft(p)
  {
    if q == [] {
      assert q + p == p;
    } else {
      assert (q + p)[1..] == q[1..] + p;
      VisitsLeftAppend(q[1..], p);
    }
  }

  lemma FewerVisits(q: seq<Visit>)
    requires q != []
    ensures VisitsLeft(q[1..] + Again(q[0])) == VisitsLeft(q) - 1
  {
    VisitsLeftAppend(q[1..], Again(q[0]));
  }

  // ----- The walk over locks

  /** How many requests at the head of the queue are the sub-thread's own. */
  function Leading(q: seq<Request>, sth: SubThread): (c: nat)
    ensures c <= |q| && (forall i :: 0 <= i < c ==> q[i].sth == sth) && (c < |q| ==> q[c].sth != sth)
  {
    if q == [] || q[0].sth != sth then 0 else 1 + Leading(q[1..], sth)
  }

  predicate Sole(lock: Lock, sth: SubThread) {
    Evicted(lock.owners, sth) == []
  }

  predicate Owns(lock: Lock, sth: SubThread) {
    IndexOf(lock.owners, sth) < |lock.owners|
  }

  predicate OfThisThread(threadOf: map<SubThread, Thread>, sth: SubThread, th: Thread) {
    sth in threadOf && threadOf[sth] == th
  }

  /** The visits ahead of a lock. */
  function VisitOf(lock: Lock, threadOf: map<SubThread, Thread>, th: Thread, sth: SubThread): (v: Visit)
    ensures VisitOK(v)
  {
    if Sole(lock, sth) then
      var c := Leading(lock.requests, sth);
      Visit(c, if c < |lock.requests| && OfThisThread(threadOf, lock.requests[c].sth, th) then c + 1 else c)
    else
      Visit(0, 0)
  }

  datatype Fate = Kept(lock: Lock) | Freed

  /** Where a lock ends up: other owners keep it, otherwise the first request of another sub-thread gets
    * it; if there is none the lock goes away. */
  function FateOf(lock: Lock, threadOf: map<SubThread, Thread>, sth: SubThread): Fate {
    if !Sole(lock, sth) then Kept(lock.(owners := Evicted(lock.owners, sth)))
    else
      var c := Leading(lock.requests, sth);
      if c == |lock.requests| || lock.requests[c].sth !in threadOf then Freed
      else Kept(Lock(threadOf[lock.requests[c].sth], lock.resource, [Owner(lock.requests[c].sth, 1)], lock.requests[c + 1..]))
  }

  function FateAt(s: State, l: LockId, sth: SubThread): Fate {
    if l in s.locks then FateOf(s.locks[l], s.threadOf, sth) else Freed
  }

  /** A lock that the sub-thread does not own has met its fate. */
  lemma NotOwned(lock: Lock, threadOf: map<SubThread, Thread>, sth: SubThread)
    requires !Owns(lock, sth) && lock.owners != []
    ensures FateOf(lock, threadOf, sth) == Kept(lock) && !Sole(lock, sth)
  {
    EvictedSame(lock.owners, sth);
  }

  lemma LeadingStep(q: seq<Request>, sth: SubThread)
    requires q != []
    ensures q[0].sth == sth ==> Leading(q, sth) == Leading(q[1..], sth) + 1
    ensures q[0].sth == sth ==> forall c :: 0 <= c < |q[1..]| ==> q[1..][c] == q[c + 1] && q[1..][c + 1..] == q[c + 2..]
    ensures q[0].sth != sth ==> Leading(q, sth) == 0
  {
  }

  lemma SingleOwner(x: SubThread, sth: SubThread)
    ensures Evicted([Owner(x, 1)], sth) == if x == sth then [] else [Owner(x, 1)]
    ensures IndexOf([Owner(x, 1)], sth) == if x == sth then 0 else 1
  {
  }

  /** A lock handed over keeps its fate, and comes back exactly if its new owner is of the same thread. */
  lemma HandedFate(lock: Lock, threadOf: map<SubThread, Thread>, th: Thread, sth: SubThread)
    requires Sole(lock, sth) && lock.requests != [] && lock.requests[0].sth in threadOf && OfThisThread(threadOf, sth, th)
    ensures var x := lock.requests[0].sth;
      var lock' := Lock(threadOf[x], lock.resource, [Owner(x, 1)], lock.requests[1..]);
      && FateOf(lock', threadOf, sth) == FateOf(lock, threadOf, sth)
      && (Owns(lock', sth) <==> VisitOf(lock, threadOf, th, sth).back > 0)
      && Again(VisitOf(lock, threadOf, th, sth)) == if threadOf[x] == th then [VisitOf(lock', threadOf, th, sth)] else []
  {
    var x := lock.requests[0].sth;
    LeadingStep(lock.requests, sth);
    SingleOwner(x, sth);
    hide Leading, Evicted, IndexOf;
    if x == sth {
      var c := Leading(lock.requests[1..], sth);
      assert c < |lock.requests[1..]| ==>
        lock.requests[1..][c] == lock.requests[c + 1] && lock.requests[1..][c + 1..] == lock.requests[c + 2..];
    }
  }

  function Visits(s: State, list: seq<LockId>, th: Thread, sth: SubThread): (r: seq<Visit>)
    requires forall l :: l in list ==> l in s.locks
    ensures |r| == |list| && forall i :: 0 <= i < |list| ==> r[i] == VisitOf(s.locks[list[i]], s.threadOf, th, sth)
  {
    if list == [] then [] else [VisitOf(s.locks[list[0]], s.threadOf, th, sth)] + Visits(s, list[1..], th, sth)
  }

  lemma VisitsSame(s: State, s': State, list: seq<LockId>, th: Thread, sth: SubThread)
    requires s'.threadOf == s.threadOf
    requires forall l :: l in list ==> l in s.locks && l in s'.locks && s'.locks[l] == s.locks[l]
    ensures Visits(s', list, th, sth) == Visits(s, list, th, sth)
  {
    var a, b := Visits(s', list, th, sth), Visits(s, list, th, sth);
    forall i | 0 <= i < |list| ensures a[i] == b[i] {
      assert list[i] in list;
    }
  }

  /** The sub-thread gives up one lock of its thread. */
  ghost function GivenUp(s: State, l: LockId, sth: SubThread): State
    requires Inv(s) && l in s.locks
  {
    EvictedOK(s, l, sth);
    Released(s, l, Evicted(s.locks[l].owners, sth))
  }

  lemma EvictedOK(s: State, l: LockId, sth: SubThread)
    requires Inv(s) && l in s.locks
    ensures OwnersFit(s.threadOf, s.locks[l].owningThread, Evicted(s.locks[l].owners, sth))
  {
    OtherResources(s, l, {});
    EvictedFits(s.threadOf, s.locks[l].owningThread, s.locks[l].owners, sth);
  }

  /** Giving up one lock: its fate stays the same, other locks stay the same, and it is at the end of the
    * thread's list if it comes back, and off the list if its owners are gone otherwise. */
  lemma GivenUpEffects(s: State, l: LockId, th: Thread, sth: SubThread)
    requires Inv(s) && l in s.locks && s.locks[l].owningThread == th && OfThisThread(s.threadOf, sth, th) && th in s.held
    ensures var s', v := GivenUp(s, l, sth), VisitOf(s.locks[l], s.threadOf, th, sth);
      && s'.threadOf == s.threadOf && s'.held.Keys == s.held.Keys
      && (forall m :: m != l ==> (m in s'.locks <==> m in s.locks))
      && (forall m :: m != l && m in s'.locks && m in s.locks ==> s'.locks[m] == s.locks[m])
      && FateAt(s', l, sth) == FateAt(s, l, sth)
      && (l in s'.locks && Owns(s'.locks[l], sth) <==> v.back > 0)
      && (!Sole(s.locks[l], sth) ==> s'.held[th] == s.held[th] && v == Visit(0, 0))
      && (Sole(s.locks[l], sth) ==> s'.held[th] == Unlinked(s.held[th], l) + if v.rounds > 0 then [l] else [])
      && (v.rounds > 0 ==>
            && l in s'.locks && s'.locks[l].owningThread == th
            && Again(v) == [VisitOf(s'.locks[l], s.threadOf, th, sth)])
  {
    hide InvExcept, Inv, OwnersFit, Released, OwnerChanged, FateOf, Evicted, Leading, LockFreed, HandedOver, Owns, VisitOf;
    var owners := Evicted(s.locks[l].owners, sth);
    EvictedOK(s, l, sth);
    ReleasedIs(s, l, owners);
    if owners != [] {
      LeftToOthers(s, l, th, sth);
    } else {
      var s1 := OwnersSet(s, l, owners);
      ChangeSteps(s1, l);
      if s.locks[l].requests == [] {
        NobodyNext(s, l, th, sth);
      } else {
        SomebodyNext(s, l, th, sth);
      }
    }
  }

  lemma LeftToOthers(s: State, l: LockId, th: Thread, sth: SubThread)
    requires l in s.locks && !Sole(s.locks[l], sth)
    ensures var s' := OwnersSet(s, l, Evicted(s.locks[l].owners, sth));
      FateAt(s', l, sth) == FateAt(s, l, sth) && !Owns(s'.locks[l], sth)
    ensures VisitOf(s.locks[l], s.threadOf, th, sth) == Visit(0, 0)
  {
    var s' := OwnersSet(s, l, Evicted(s.locks[l].owners, sth));
    EvictedIndex(s.locks[l].owners, sth);
    NotOwned(s'.locks[l], s.threadOf, sth);
  }

  lemma NobodyNext(s: State, l: LockId, th: Thread, sth: SubThread)
    requires l in s.locks && Sole(s.locks[l], sth) && s.locks[l].requests == []
    requires s.locks[l].owningThread == th && th in s.held
    ensures var s' := LockFreed(OwnersSet(s, l, []), l);
      && FateAt(s', l, sth) == FateAt(s, l, sth) && l !in s'.locks && s'.threadOf == s.threadOf
      && s'.held.Keys == s.held.Keys && s'.held[th] == Unlinked(s.held[th], l)
      && (forall m :: m != l ==> (m in s'.locks <==> m in s.locks))
      && (forall m :: m != l && m in s'.locks && m in s.locks ==> s'.locks[m] == s.locks[m])
    ensures VisitOf(s.locks[l], s.threadOf, th, sth) == Visit(0, 0)
  {
    hide Unlinked;
  }

  lemma SomebodyNext(s: State, l: LockId, th: Thread, sth: SubThread)
    requires l in s.locks && Sole(s.locks[l], sth) && s.locks[l].requests != [] && Known(s, s.locks[l].requests[0].sth)
    requires s.locks[l].owningThread == th && th in s.held && OfThisThread(s.threadOf, sth, th)
    ensures var s', v := HandedOver(OwnersSet(s, l, []), l), VisitOf(s.locks[l], s.threadOf, th, sth);
      && FateAt(s', l, sth) == FateAt(s, l, sth) && l in s'.locks && s'.threadOf == s.threadOf
      && s'.held.Keys == s.held.Keys
      && s'.held[th] == Unlinked(s.held[th], l) + (if v.rounds > 0 then [l] else [])
      && (forall m :: m != l ==> (m in s'.locks <==> m in s.locks))
      && (forall m :: m != l && m in s'.locks && m in s.locks ==> s'.locks[m] == s.locks[m])
      && (Owns(s'.locks[l], sth) <==> v.back > 0)
      && (v.rounds > 0 ==> s'.locks[l].owningThread == th && Again(v) == [VisitOf(s'.locks[l], s.threadOf, th, sth)])
  {
    var s1 := OwnersSet(s, l, []);
    hide VisitOf, FateOf, Owns, Sole, RequestGone;
    HandedFate(s.locks[l], s.threadOf, th, sth);
    HandedOverIs(s1, l);
    HandedLists(s1, l);
  }

  lemma HandedLists(s: State, l: LockId)
    requires l in s.locks && s.locks[l].requests != [] && s.locks[l].owningThread in s.held
    requires Known(s, s.locks[l].requests[0].sth)
    ensures var t, u, s' := s.locks[l].owningThread, s.threadOf[s.locks[l].requests[0].sth], HandedOver(s, l);
      t in s'.held && s'.held[t] == Unlinked(s.held[t], l) + if u == t then [l] else []
  {
    hide RequestGone, Unlinked;
  }

  // ----- One step of the walk

  /** What the walk keeps: locks of other threads stay as they are, and every lock of the thread is on its
    * way to its fate. */
  ghost predicate Walked(s0: State, s: State, th: Thread, sth: SubThread) {
    && s.threadOf == s0.threadOf && s.held.Keys == s0.held.Keys && (forall l :: l in s.locks ==> l in s0.locks)
    && (forall l :: l in s0.locks && s0.locks[l].owningThread != th ==> l in s.locks && s.locks[l] == s0.locks[l])
    && (forall l :: l in s0.locks && s0.locks[l].owningThread == th ==> FateAt(s, l, sth) == FateAt(s0, l, sth))
  }

  /** Only locks of `rest` may still be the sub-thread's. */
  ghost predicate OwnsOnly(s: State, rest: seq<LockId>, sth: SubThread) {
    forall l :: l in s.locks && l !in rest ==> !Owns(s.locks[l], sth)
  }

  lemma HeldLocks(s: State, t: Thread)
    requires Inv(s) && t in s.held
    ensures NoRepeats(s.held[t])
    ensures forall m :: m in s.held[t] <==> m in s.locks && s.locks[m].owningThread == t
  {
    hide QueuesOK, CountsOK, SchedOK;
  }

  /** A sub-thread owns locks of its own thread only. */
  lemma OwnsOwnLocks(s: State, th: Thread, sth: SubThread)
    requires Inv(s) && OfThisThread(s.threadOf, sth, th)
    ensures forall l :: l in s.locks && s.locks[l].owningThread != th ==> !Owns(s.locks[l], sth)
  {
    hide QueuesOK, CountsOK, SchedOK, HeldOK;
  }

  lemma {:induction false} UnlinkedAt(list: seq<LockId>, i: nat)
    requires NoRepeats(list) && i < |list|
    ensures Unlinked(list, list[i]) == list[..i] + list[i + 1..]
  {
    assert NoRepeats(list[1..]);
    if i == 0 {
      UnlinkedNone(list[1..], list[0]);
    } else {
      UnlinkedAt(list[1..], i - 1);
      assert list[..i] == [list[0]] + list[1..][..i - 1] && list[1..][i..] == list[i + 1..];
    }
  }

  lemma {:induction false} UnlinkedNone(list: seq<LockId>, l: LockId)
    requires l !in list
    ensures Unlinked(list, l) == list
  {
    if list != [] {
      UnlinkedNone(list[1..], l);
    }
  }

  /** Where the walk goes on after lock `i` of the list, if there is more. */
  function WalkNext(s': State, th: Thread, l: LockId, i: nat): nat
    requires th in s'.held
  {
    if i < |s'.held[th]| && s'.held[th][i] == l then i + 1 else i
  }

  /** What lies ahead of the walk afterwards is what lay ahead before, one visit later. */
  lemma WalkList(s: State, th: Thread, sth: SubThread, i: nat)
    requires Inv(s) && th in s.held && OfThisThread(s.threadOf, sth, th) && i + 1 < |s.held[th]| && s.held[th][i] in s.locks
    ensures var l := s.held[th][i];
      var s', v := GivenUp(s, l, sth), VisitOf(s.locks[l], s.threadOf, th, sth);
      && th in s'.held && WalkNext(s', th, l, i) < |s'.held[th]|
      && s'.held[th][WalkNext(s', th, l, i)..] == s.held[th][i + 1..] + if v.rounds > 0 then [l] else []
  {
    hide Inv, GivenUp, VisitOf;
    HeldLocks(s, th);
    var list := s.held[th];
    var l := list[i];
    assert l in list;
    GivenUpEffects(s, l, th, sth);
    var s' := GivenUp(s, l, sth);
    assert th in s'.held.Keys;
    if Sole(s.locks[l], sth) {
      UnlinkedAt(list, i);
      assert s'.held[th][i] == list[i + 1];
    }
  }

  /** One step of the walk keeps what it keeps, and does not change the outcome. */
  lemma WalkStep(s0: State, s: State, th: Thread, sth: SubThread, i: nat)
    requires Inv(s) && th in s.held && OfThisThread(s.threadOf, sth, th) && i < |s.held[th]| && s.held[th][i] in s.locks
    requires Walked(s0, s, th, sth) && OwnsOnly(s, s.held[th][i..], sth)
    requires forall l :: l in s.held[th] ==> l in s0.locks && s0.locks[l].owningThread == th
    ensures Walked(s0, GivenUp(s, s.held[th][i], sth), th, sth)
    ensures OwnsOnly(GivenUp(s, s.held[th][i], sth), s.held[th][i + 1..] + [s.held[th][i]], sth)
    ensures var l, s' := s.held[th][i], GivenUp(s, s.held[th][i], sth);
      l in s'.locks && Owns(s'.locks[l], sth) <==> VisitOf(s.locks[l], s.threadOf, th, sth).back > 0
  {
    hide Inv, GivenUp, VisitOf, FateOf, Owns;
    HeldLocks(s, th);
    var list := s.held[th];
    var l := list[i];
    assert l in list;
    GivenUpEffects(s, l, th, sth);
    assert list[i..] == [l] + list[i + 1..];
  }

  /** The visits ahead after one step, if there is more. */
  lemma WalkVisits(s: State, th: Thread, sth: SubThread, i: nat)
    requires Inv(s) && th in s.held && OfThisThread(s.threadOf, sth, th) && i + 1 < |s.held[th]|
    requires forall l :: l in s.held[th] ==> l in s.locks
    ensures var l, s' := s.held[th][i], GivenUp(s, s.held[th][i], sth);
      && th in s'.held && WalkNext(s', th, l, i) < |s'.held[th]|
      && (forall m :: m in s'.held[th][WalkNext(s', th, l, i)..] ==> m in s'.locks)
      && var q, p := Visits(s, s.held[th][i..], th, sth), Visits(s', s'.held[th][WalkNext(s', th, l, i)..], th, sth);
        (AllAccompanied(p) <==> AllAccompanied(q)) && VisitsLeft(p) < VisitsLeft(q)
  {
    hide Inv, GivenUp, VisitOf, Visits, AllAccompanied;
    HeldLocks(s, th);
    var list := s.held[th];
    var l := list[i];
    assert l in list;
    var s', v := GivenUp(s, l, sth), VisitOf(s.locks[l], s.threadOf, th, sth);
    WalkList(s, th, sth, i);
    GivenUpEffects(s, l, th, sth);
    var rest, tail := list[i..], list[i + 1..];
    assert rest == [l] + tail;
    var rest' := s'.held[th][WalkNext(s', th, l, i)..];
    VisitsAfter(s, s', l, tail, v, th, sth);
    var q := Visits(s, rest, th, sth);
    FirstVisit(s, l, tail, th, sth);
    WalkOn(q);
    FewerVisits(q);
  }

  lemma FirstVisit(s: State, l: LockId, tail: seq<LockId>, th: Thread, sth: SubThread)
    requires l in s.locks && forall m :: m in tail ==> m in s.locks
    ensures forall m :: m in [l] + tail ==> m in s.locks
    ensures var q := Visits(s, [l] + tail, th, sth);
      && q[0] == VisitOf(s.locks[l], s.threadOf, th, sth) && q[1..] == Visits(s, tail, th, sth) && |q| == |tail| + 1
      && forall i :: 0 <= i < |q| ==> VisitOK(q[i])
  {
    hide VisitOf;
    assert ([l] + tail)[1..] == tail;
    var q := Visits(s, [l] + tail, th, sth);
    forall i | 0 <= i < |q| ensures VisitOK(q[i]) {
      var v := VisitOf(s.locks[([l] + tail)[i]], s.threadOf, th, sth);
    }
  }

  lemma VisitsAfter(s: State, s': State, l: LockId, tail: seq<LockId>, v: Visit, th: Thread, sth: SubThread)
    requires (forall m :: m in tail ==> m in s.locks && m in s'.locks && s'.locks[m] == s.locks[m]) && s'.threadOf == s.threadOf
    requires v.rounds > 0 ==> l in s'.locks && Again(v) == [VisitOf(s'.locks[l], s.threadOf, th, sth)]
    ensures var rest' := tail + if v.rounds > 0 then [l] else [];
      && (forall m :: m in rest' ==> m in s'.locks)
      && Visits(s', rest', th, sth) == Visits(s, tail, th, sth) + Again(v)
  {
    hide VisitOf;
    VisitsSame(s, s', tail, th, sth);
    if v.rounds > 0 {
      VisitsAppend(s', tail, l, th, sth);
    } else {
      assert tail + [] == tail;
    }
  }

  lemma {:induction false} VisitsAppend(s: State, list: seq<LockId>, l: LockId, th: Thread, sth: SubThread)
    requires l in s.locks && forall m :: m in list ==> m in s.locks
    ensures forall m :: m in list + [l] ==> m in s.locks
    ensures Visits(s, list + [l], th, sth) == Visits(s, list, th, sth) + [VisitOf(s.locks[l], s.threadOf, th, sth)]
  {
    hide VisitOf;
    if list != [] {
      VisitsAppend(s, list[1..], l, th, sth);
      assert (list + [l])[1..] == list[1..] + [l];
    }
  }

  /** The walk stands in front of lock `i` of the list. */
  predicate WalkAhead(s: State, th: Thread, sth: SubThread, i: nat) {
    && th in s.held && i < |s.held[th]| && OfThisThread(s.threadOf, sth, th)
    && (forall l :: l in s.held[th] ==> l in s.locks)
  }

  lemma WalkStarts(s: State, th: Thread, sth: SubThread) returns (goal: bool)
    requires Inv(s) && th in s.held && OfThisThread(s.threadOf, sth, th)
    ensures forall l :: l in s.held[th] ==> l in s.locks
    ensures goal <==> AllAccompanied(Visits(s, s.held[th], th, sth))
    ensures Walked(s, s, th, sth)
    ensures s.held[th] != [] ==> WalkAhead(s, th, sth, 0) && OwnsOnly(s, s.held[th][0..], sth) && s.held[th][0..] == s.held[th]
    ensures s.held[th] == [] ==> OwnsOnly(s, [0], sth) && goal && OwnsOnly(s, [], sth)
  {
    hide Inv, VisitOf, Owns;
    HeldLocks(s, th);
    OwnsOwnLocks(s, th, sth);
    assert s.held[th][0..] == s.held[th];
    goal := AllAccompanied(Visits(s, s.held[th], th, sth));
    if s.held[th] == [] {
      assert Visits(s, [], th, sth) == [];
    }
  }

  lemma StillOfThread(s0: State, s: State, th: Thread, sth: SubThread)
    requires Inv(s) && Walked(s0, s, th, sth) && th in s.held
    ensures forall l :: l in s.held[th] ==> l in s0.locks && s0.locks[l].owningThread == th
  {
    hide Inv, FateAt;
    HeldLocks(s, th);
  }

  /** One round of the walk. */
  lemma GoesOn(s0: State, s: State, th: Thread, sth: SubThread, i: nat, more: bool)
    requires Inv(s) && Walked(s0, s, th, sth) && WalkAhead(s, th, sth, i) && OwnsOnly(s, s.held[th][i..], sth)
    requires more <==> i + 1 < |s.held[th]|
    ensures var l, s' := s.held[th][i], GivenUp(s, s.held[th][i], sth);
      && Walked(s0, s', th, sth) && th in s'.held
      && (!more ==> OwnsOnly(s', [l], sth))
      && (!more ==> (AllAccompanied(Visits(s, s.held[th][i..], th, sth)) <==> OwnsOnly(s', [], sth)))
    ensures more ==>
      var l, s' := s.held[th][i], GivenUp(s, s.held[th][i], sth);
      var j := WalkNext(s', th, l, i);
      && WalkAhead(s', th, sth, j) && OwnsOnly(s', s'.held[th][j..], sth)
      && var q, p := Visits(s, s.held[th][i..], th, sth), Visits(s', s'.held[th][j..], th, sth);
        (AllAccompanied(p) <==> AllAccompanied(q)) && VisitsLeft(p) < VisitsLeft(q)
  {
    hide Inv, GivenUp, VisitOf, Owns, Walked, Visits, AllAccompanied, OwnsOnly, WalkNext;
    var l, s' := s.held[th][i], GivenUp(s, s.held[th][i], sth);
    StillOfThread(s0, s, th, sth);
    WalkStep(s0, s, th, sth, i);
    GivenUpKeeps(s, l, sth);
    assert th in s'.held.Keys by { SameThreads(s, s', s0, th, sth); }
    HeldLocks(s', th);
    if more {
      WalkVisits(s, th, sth, i);
      WalkList(s, th, sth, i);
      StillOwned(s', s.held[th][i + 1..], l, VisitOf(s.locks[l], s.threadOf, th, sth), sth);
      assert s'.threadOf == s.threadOf by { SameThreads(s, s', s0, th, sth); }
    } else {
      LastVisit(s, s', th, sth, i);
    }
  }

  lemma SameThreads(s: State, s': State, s0: State, th: Thread, sth: SubThread)
    requires Walked(s0, s, th, sth) && Walked(s0, s', th, sth)
    ensures s'.threadOf == s.threadOf && s'.held.Keys == s.held.Keys
  {
  }

  lemma GivenUpKeeps(s: State, l: LockId, sth: SubThread)
    requires Inv(s) && l in s.locks
    ensures Inv(GivenUp(s, l, sth))
  {
    EvictedOK(s, l, sth);
    hide Inv, OwnersFit, Released;
    ReleasedKeeps(s, l, Evicted(s.locks[l].owners, sth));
  }

  lemma StillOwned(s': State, tail: seq<LockId>, l: LockId, v: Visit, sth: SubThread)
    requires OwnsOnly(s', tail + [l], sth) && VisitOK(v) && (l in s'.locks && Owns(s'.locks[l], sth) <==> v.back > 0)
    ensures OwnsOnly(s', tail + if v.rounds > 0 then [l] else [], sth)
  {
    hide Owns;
    if v.rounds == 0 {
      assert tail + [] == tail;
      forall m | m in s'.locks && m !in tail ensures !Owns(s'.locks[m], sth) {
        assert m != l ==> m !in tail + [l];
      }
    }
  }

  /** At the last visit the sub-thread keeps the lock exactly if it gets it back. */
  lemma LastVisit(s: State, s': State, th: Thread, sth: SubThread, i: nat)
    requires WalkAhead(s, th, sth, i) && i + 1 == |s.held[th]|
    requires OwnsOnly(s', s.held[th][i + 1..] + [s.held[th][i]], sth)
    requires var l := s.held[th][i];
      l in s'.locks && Owns(s'.locks[l], sth) <==> VisitOf(s.locks[l], s.threadOf, th, sth).back > 0
    ensures OwnsOnly(s', [s.held[th][i]], sth)
    ensures AllAccompanied(Visits(s, s.held[th][i..], th, sth)) <==> OwnsOnly(s', [], sth)
  {
    hide VisitOf, Owns;
    var l := s.held[th][i];
    assert s.held[th][i..] == [l] && s.held[th][i + 1..] + [l] == [l];
    var q := Visits(s, [l], th, sth);
    assert Accompanied(q, 0) <==> q[0].back == 0;
    if AllAccompanied(q) {
      assert Accompanied(q, 0);
    }
  }

  /** What goes wrong: a sub-thread that waits for its only lock behind itself gets it back at the last
    * visit, and keeps it. */
  lemma KeptByItself(s: State, l: LockId, th: Thread, sth: SubThread)
    requires Inv(s) && th in s.held && s.held[th] == [l] && OfThisThread(s.threadOf, sth, th)
    requires l in s.locks && Sole(s.locks[l], sth) && s.locks[l].requests != [] && s.locks[l].requests[0].sth == sth
    ensures !AllAccompanied(Visits(s, s.held[th], th, sth))
    ensures l in GivenUp(s, l, sth).locks && Owns(GivenUp(s, l, sth).locks[l], sth)
  {
    hide Inv, GivenUp, Owns;
    HeldLocks(s, th);
    assert l in s.held[th];
    GivenUpEffects(s, l, th, sth);
    var q := Visits(s, s.held[th], th, sth);
    assert !Accompanied(q, 0);
  }
}
