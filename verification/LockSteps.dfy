/** Whole steps on locks: releasing, handing over, and what they do to the threads involved. */
module LockSteps {
  import opened LockStates
  import opened LockOwners
  import opened LockFacts

  /** What becomes of a lock whose last owner left. */
  ghost function OwnerChanged(s: State, l: LockId): State
    requires InvExcept(s, {l}) && l in s.locks
  {
    if s.locks[l].requests == [] then
      assert s.locks[l].owningThread in s.held;
      LockFreed(s, l)
    else
      HandedOverKeeps(s, l);
      HandedOver(s, l)
  }

  lemma OwnerChangedKeeps(s: State, l: LockId)
    requires InvExcept(s, {l}) && l in s.locks
    ensures Inv(OwnerChanged(s, l))
  {
    if s.locks[l].requests == [] {
      OwningThreadHeld(s, l);
      LockFreedKeeps(s, l);
    } else {
      HandedOverKeeps(s, l);
    }
  }

  lemma OwningThreadHeld(s: State, l: LockId)
    requires InvExcept(s, {l}) && l in s.locks
    ensures s.locks[l].owningThread in s.held
  {
  }

  /** The two ways a lock changes hands. */
  lemma ChangeSteps(s: State, l: LockId)
    requires InvExcept(s, {l}) && l in s.locks
    ensures s.locks[l].owningThread in s.held
    ensures s.locks[l].requests == [] ==> OwnerChanged(s, l) == LockFreed(s, l)
    ensures s.locks[l].requests != [] ==>
      Known(s, s.locks[l].requests[0].sth) && OwnerChanged(s, l) == HandedOver(s, l)
  {
    hide InvExcept;
    OwningThreadHeld(s, l);
    if s.locks[l].requests != [] {
      HandedOverKeeps(s, l);
    }
  }

  lemma Abandoned(s: State, l: LockId, owners: seq<Owner>)
    requires Inv(s) && l in s.locks && OwnersFit(s.threadOf, s.locks[l].owningThread, owners)
    ensures InvExcept(OwnersSet(s, l, owners), if owners == [] then {l} else {})
  {
    hide InvExcept, OwnersFit;
    OwnersSetKeeps(s, l, owners, {});
    assert {} + {l} == {l} && {} - {l} == {};
  }

  /** Owners were removed; an abandoned lock changes hands. */
  ghost function Released(s: State, l: LockId, owners: seq<Owner>): State
    requires Inv(s) && l in s.locks && OwnersFit(s.threadOf, s.locks[l].owningThread, owners)
  {
    Abandoned(s, l, owners);
    if owners == [] then OwnerChanged(OwnersSet(s, l, owners), l) else OwnersSet(s, l, owners)
  }

  lemma ReleasedKeeps(s: State, l: LockId, owners: seq<Owner>)
    requires Inv(s) && l in s.locks && OwnersFit(s.threadOf, s.locks[l].owningThread, owners)
    ensures Inv(Released(s, l, owners))
  {
    hide InvExcept, OwnersFit;
    Abandoned(s, l, owners);
    if owners == [] {
      OwnerChangedKeeps(OwnersSet(s, l, owners), l);
    }
  }

  lemma ReleasedIs(s: State, l: LockId, owners: seq<Owner>)
    requires Inv(s) && l in s.locks && OwnersFit(s.threadOf, s.locks[l].owningThread, owners)
    ensures owners != [] ==> Released(s, l, owners) == OwnersSet(s, l, owners)
    ensures owners == [] ==>
      && InvExcept(OwnersSet(s, l, owners), {l})
      && Released(s, l, owners) == OwnerChanged(OwnersSet(s, l, owners), l)
  {
    hide InvExcept, OwnersFit;
    Abandoned(s, l, owners);
  }

  /** Asking for a lock that exists: a sub-thread of the owning thread enters, anybody else queues up. */
  function Asked(s: State, l: LockId, sth: SubThread, timeExpire: int): State
    requires l in s.locks && Known(s, sth)
  {
    if s.locks[l].owningThread == s.threadOf[sth] then OwnersSet(s, l, Entered(s.locks[l].owners, sth))
    else RequestAdded(s, l, sth, timeExpire)
  }

  // ----- Who runs after a lock changed hands

  /** The thread has another request queued than the first of `l`. */
  ghost predicate QueuesElse(s: State, l: LockId, t: Thread)
    requires l in s.locks && s.locks[l].requests != []
  {
    exists m, i: nat :: RequestOf(s, t, m, i) && (m == l ==> i != 0)
  }

  /** After a request left its queue its thread waits exactly if it has another one queued, wherever
    * that may be, and otherwise is on the list of those that may run. */
  lemma RunsIfLast(s: State, l: LockId, except: set<LockId>)
    requires InvExcept(s, except) && l in s.locks && s.locks[l].requests != []
    ensures Known(s, s.locks[l].requests[0].sth)
    ensures var s', t := RequestGone(s, l, 0), s.threadOf[s.locks[l].requests[0].sth];
      && (t in s'.waiting <==> QueuesElse(s, l, t))
      && (t !in s'.waiting ==> t in s'.ready)
  {
    RequestGoneKeeps(s, l, 0, except);
    var sth := s.locks[l].requests[0].sth;
    var s' := RequestGone(s, l, 0);
    var t := s.threadOf[sth];
    GoneSame(s, l, 0);
    RemovedAt(s.locks[l].requests, 0);
    ElseIsSomewhere(s, l, t);
    hide InvExcept;
    CountedSomewhere(s', except, t);
    StatusAfter(s.(locks := WithoutAt(s.locks, l, 0)), sth, -1);
    InTwoLists(s', except, t);
  }

  lemma StatusAfter(s: State, sth: SubThread, diff: int)
    requires Known(s, sth)
    ensures var s', t := Recounted(s, sth, diff), s.threadOf[sth];
      t in s'.threadCount && (t in s'.waiting <==> s'.threadCount[t] != 0)
  {
  }

  lemma InTwoLists(s: State, except: set<LockId>, t: Thread)
    requires InvExcept(s, except) && t in s.held
    ensures t !in s.waiting ==> t in s.ready
  {
    hide LocksOK, HeldOK, QueuesOK, CountsOK;
    assert t in s.held.Keys;
  }

  lemma ElseIsSomewhere(s: State, l: LockId, t: Thread)
    requires l in s.locks && s.locks[l].requests != [] && Known(s, s.locks[l].requests[0].sth)
    ensures QueuesElse(s, l, t) <==> QueuesSomewhere(RequestGone(s, l, 0), t)
  {
    var s' := RequestGone(s, l, 0);
    GoneSame(s, l, 0);
    RemovedAt(s.locks[l].requests, 0);
    hide RequestGone;
    if QueuesElse(s, l, t) {
      var m, i: nat :| RequestOf(s, t, m, i) && (m == l ==> i != 0);
      assert RequestOf(s', t, m, if m == l then i - 1 else i);
    }
    if QueuesSomewhere(s', t) {
      var m, j: nat :| RequestOf(s', t, m, j);
      assert RequestOf(s, t, m, if m == l then j + 1 else j);
    }
  }

  /** First come, first served: an abandoned lock goes to the sub-thread whose request has waited for it
    * longest, which enters it once; everybody else stays queued in order.  The new owner's thread may
    * run if and only if it has no other request queued. */
  lemma HandOverIsFair(s: State, l: LockId)
    requires InvExcept(s, {l}) && l in s.locks && s.locks[l].requests != []
    ensures var s', q := OwnerChanged(s, l), s.locks[l].requests;
      && l in s'.locks && q[0].sth in s.threadOf
      && s'.locks[l].owners == [Owner(q[0].sth, 1)] && s'.locks[l].owningThread == s.threadOf[q[0].sth]
      && s'.locks[l].requests == q[1..] && s'.locks[l].resource == s.locks[l].resource
      && (forall i :: 0 < i < |q| ==> q[0].ticket < q[i].ticket)
      && (s.threadOf[q[0].sth] in s'.waiting <==> QueuesElse(s, l, s.threadOf[q[0].sth]))
      && (s.threadOf[q[0].sth] !in s'.waiting ==> s.threadOf[q[0].sth] in s'.ready)
  {
    assert QueueOK(s.locks[l].requests, s.threadOf, s.clock);
    hide InvExcept, RequestGone, HandedOver, LockFreed, OwnerChanged, QueuesElse;
    ChangeSteps(s, l);
    RunsIfLast(s, l, {l});
    HandedOverIs(s, l);
  }

  lemma HandedOverIs(s: State, l: LockId)
    requires l in s.locks && s.locks[l].requests != [] && s.locks[l].owningThread in s.held
    requires Known(s, s.locks[l].requests[0].sth)
    ensures var s', g, lock := HandedOver(s, l), RequestGone(s, l, 0), s.locks[l];
      && s'.locks == s.locks[l := Lock(s.threadOf[lock.requests[0].sth], lock.resource,
                                      [Owner(lock.requests[0].sth, 1)], lock.requests[1..])]
      && s'.threadOf == s.threadOf && s'.waiting == g.waiting && s'.ready == g.ready && s'.asleep == g.asleep
      && s'.held.Keys == s.held.Keys
  {
    GoneSame(s, l, 0);
    hide RequestGone, Unlinked;
    assert Remove(s.locks[l].requests, 0) == s.locks[l].requests[1..];
  }

  // ----- A thread that waits behind itself

  lemma AddedIs(s: State, l: LockId, sth: SubThread, timeExpire: int)
    requires Inv(s) && l in s.locks && Known(s, sth)
    ensures var s', t := RequestAdded(s, l, sth, timeExpire), s.threadOf[sth];
      && s.threadCount[t] >= 0
      && s' == s.(locks := WithRequest(s.locks, l, Request(sth, timeExpire, s.clock)), clock := s.clock + 1,
                  subCount := s.subCount[sth := s.subCount[sth] + 1],
                  threadCount := s.threadCount[t := s.threadCount[t] + 1], waiting := s.waiting + {t})
  {
    hide LocksOK, HeldOK, QueuesOK, SchedOK, Queued, OfSub, OfThread;
  }

  /** Sub-thread `x` asks for a lock and its thread stops. */
  function AsksFor(s: State, l: LockId, x: SubThread, timeExpire: int): State
    requires l in s.locks && Known(s, x)
  {
    Listed(RequestAdded(s, l, x, timeExpire), s.threadOf[x])
  }

  /** One thread enters; the other one asks, sleeps, is aborted, asks again, and sleeps. */
  function AskedTwice(s: State, l: LockId, resource: int, x1: SubThread, x2: SubThread, e1: int, e2: int): State
    requires Known(s, x1) && Known(s, x2)
  {
    var s1 := AsksFor(LockCreated(s, l, resource, x1), l, x2, e1);
    AsksFor(Restarted(s1, s.threadOf[x2]), l, x2, e2)
  }

  lemma AskIs(s: State, l: LockId, x: SubThread, timeExpire: int)
    requires Inv(s) && l in s.locks && Known(s, x)
    ensures var s', t := AsksFor(s, l, x, timeExpire), s.threadOf[x];
      && Inv(s') && s'.locks == WithRequest(s.locks, l, Request(x, timeExpire, s.clock)) && s'.threadOf == s.threadOf
      && s'.held == s.held && s'.subCount.Keys == s.subCount.Keys + {x} && s'.clock == s.clock + 1
      && s.threadCount[t] >= 0 && s'.threadCount == s.threadCount[t := s.threadCount[t] + 1]
      && s'.asleep == Unlinked(s.asleep, t) + [t]
  {
    hide Inv, Inserted, Recounted, Unlinked;
    RequestAddedKeeps(s, l, x, timeExpire);
    AddedIs(s, l, x, timeExpire);
    ListedKeeps(RequestAdded(s, l, x, timeExpire), s.threadOf[x]);
  }

  /** An aborted thread runs again although its request stays queued, and nothing keeps it from asking
    * for the same lock a second time.  Once the owner leaves, the sub-thread owns the lock and sleeps
    * behind its own second request. */
  lemma AbortedOwnerWaitsForItself(s: State, l: LockId, resource: int, x1: SubThread, x2: SubThread, e1: int, e2: int)
    requires Inv(s) && Known(s, x1) && Known(s, x2) && s.threadOf[x1] != s.threadOf[x2]
    requires l !in s.locks && forall m :: m in s.locks ==> s.locks[m].resource != resource
    ensures var s1 := AskedTwice(s, l, resource, x1, x2, e1, e2);
      && Inv(s1) && l in s1.locks && OwnersFit(s1.threadOf, s1.locks[l].owningThread, [])
      && OwnsAndWaits(Released(s1, l, []), l, x2, [Request(x2, e2, s.clock + 1)])
  {
    hide InvExcept, Inv, AsksFor, Restarted, Unlinked;
    var t2 := s.threadOf[x2];
    LockCreatedKeeps(s, l, resource, x1);
    var s0 := LockCreated(s, l, resource, x1);
    AskIs(s0, l, x2, e1);
    var s1 := AsksFor(s0, l, x2, e1);
    InvIs(s1);
    RestartedKeeps(s1, t2, {});
    var s2 := Restarted(s1, t2);
    InvIs(s2);
    RestartIs(s1, t2);
    AskIs(s2, l, x2, e2);
    var s3 := AsksFor(s2, l, x2, e2);
    assert s3.locks[l].requests == [Request(x2, e1, s.clock), Request(x2, e2, s.clock + 1)];
    assert s3.threadCount[t2] >= 2;
    assert t2 in s3.asleep by {
      assert (Unlinked(s2.asleep, t2) + [t2])[|Unlinked(s2.asleep, t2)|] == t2;
    }
    hide LockCreated;
    assert OwnersFit(s3.threadOf, s3.locks[l].owningThread, []);
    LeavesBehind(s3, l, x2);
  }

  lemma RestartIs(s: State, t: Thread)
    ensures var s' := Restarted(s, t);
      && s'.locks == s.locks && s'.threadOf == s.threadOf && s'.held == s.held && s'.subCount == s.subCount
      && s'.threadCount == s.threadCount && s'.clock == s.clock
  {
    hide Inserted, Unlinked;
  }

  /** The sub-thread owns the lock alone, its thread sleeps, and `queue` waits for the lock. */
  ghost predicate OwnsAndWaits(s: State, l: LockId, x: SubThread, queue: seq<Request>) {
    && Inv(s) && l in s.locks && x in s.threadOf && s.locks[l].owningThread == s.threadOf[x]
    && s.locks[l].owners == [Owner(x, 1)] && s.locks[l].requests == queue
    && s.threadOf[x] in s.asleep && s.threadOf[x] in s.waiting && s.threadOf[x] !in s.ready
  }

  /** A lock given up goes to the first in the queue; a thread that has more queued sleeps on. */
  lemma LeavesBehind(s: State, l: LockId, x: SubThread)
    requires Inv(s) && l in s.locks && OwnersFit(s.threadOf, s.locks[l].owningThread, [])
    requires s.locks[l].requests != [] && s.locks[l].requests[0].sth == x && Known(s, x)
    requires s.threadCount[s.threadOf[x]] >= 2 && s.threadOf[x] in s.asleep
    ensures OwnsAndWaits(Released(s, l, []), l, x, s.locks[l].requests[1..])
  {
    hide InvExcept, HandedOver, LockFreed, OwnerChanged, Recounted, Inv, Released;
    var s0 := OwnersSet(s, l, []);
    ReleasedKeeps(s, l, []);
    ReleasedIs(s, l, []);
    ChangeSteps(s0, l);
    HandedOverIs(s0, l);
    StaysAsleep(s0.(locks := WithoutAt(s0.locks, l, 0)), x);
    NotReady(Released(s, l, []), s.threadOf[x]);
  }

  lemma StaysAsleep(s: State, x: SubThread)
    requires Known(s, x) && s.threadCount[s.threadOf[x]] >= 2
    ensures var s' := Recounted(s, x, -1); s'.asleep == s.asleep && s.threadOf[x] in s'.waiting
  {
  }

  lemma NotReady(s: State, t: Thread)
    requires Inv(s) && t in s.asleep
    ensures t !in s.ready
  {
  }
}
