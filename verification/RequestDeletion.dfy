/** DeleteLockRequests: a sub-thread stops waiting, in whatever queues it is. */
module RequestDeletions {
  import opened LockStates
  import opened LockFacts

  /** The requests of other sub-threads, in order. */
  function WithoutRequests(q: seq<Request>, sth: SubThread): seq<Request> {
    if q == [] then [] else (if q[0].sth == sth then [] else [q[0]]) + WithoutRequests(q[1..], sth)
  }

  lemma {:induction false} WithoutNone(q: seq<Request>, sth: SubThread)
    requires forall i :: 0 <= i < |q| ==> q[i].sth != sth
    ensures WithoutRequests(q, sth) == q
  {
    if q != [] {
      WithoutNone(q[1..], sth);
      assert q == [q[0]] + q[1..];
    }
  }

  lemma {:induction false} WithoutOne(q: seq<Request>, i: nat, sth: SubThread)
    requires i < |q| && q[i].sth == sth
    ensures WithoutRequests(Remove(q, i), sth) == WithoutRequests(q, sth)
  {
    if i == 0 {
      assert Remove(q, 0) == q[1..];
    } else {
      WithoutOne(q[1..], i - 1, sth);
      assert Remove(q, i) == [q[0]] + Remove(q[1..], i - 1);
    }
  }

  ghost predicate NoneQueued(s: State, l: LockId, sth: SubThread) {
    l in s.locks ==> forall r :: r in s.locks[l].requests ==> r.sth != sth
  }

  /** Requests of the sub-thread left the queue of the lock, and nothing else happened to it. */
  ghost predicate Thinner(before: Lock, after: Lock, sth: SubThread) {
    && after == before.(requests := after.requests)
    && WithoutRequests(after.requests, sth) == WithoutRequests(before.requests, sth)
    && (forall r :: r in after.requests ==> r in before.requests)
  }

  ghost predicate Thinned(s0: State, s: State, sth: SubThread) {
    && s.locks.Keys == s0.locks.Keys && s.threadOf == s0.threadOf && s.held == s0.held
    && (forall l :: l in s0.locks ==> Thinner(s0.locks[l], s.locks[l], sth))
  }

  lemma ThinnedStart(s: State, sth: SubThread)
    ensures Thinned(s, s, sth)
  {
  }

  lemma ThinnedMore(s0: State, s1: State, s2: State, sth: SubThread)
    requires Thinned(s0, s1, sth) && Thinned(s1, s2, sth)
    ensures Thinned(s0, s2, sth)
  {
    forall l | l in s0.locks ensures Thinner(s0.locks[l], s2.locks[l], sth) {
      assert l in s1.locks.Keys;
      assert Thinner(s0.locks[l], s1.locks[l], sth) && Thinner(s1.locks[l], s2.locks[l], sth);
    }
  }

  lemma NoneStays(s: State, s': State, sth: SubThread)
    requires Thinned(s, s', sth)
    ensures forall l :: NoneQueued(s, l, sth) ==> NoneQueued(s', l, sth)
  {
    assert forall l :: l in s.locks <==> l in s'.locks.Keys;
  }

  lemma GoneThins(s: State, l: LockId, i: nat, sth: SubThread)
    requires l in s.locks && i < |s.locks[l].requests| && Known(s, sth) && s.locks[l].requests[i].sth == sth
    ensures Thinned(s, RequestGone(s, l, i), sth)
  {
    GoneSame(s, l, i);
    hide RequestGone;
    WithoutOne(s.locks[l].requests, i, sth);
    RemovedAt(s.locks[l].requests, i);
    hide WithoutRequests;
  }

  /** Nothing is queued any more once the thread counts nothing. */
  lemma NothingCounted(s: State, sth: SubThread)
    requires Inv(s) && Known(s, sth) && s.threadCount[s.threadOf[sth]] == 0
    ensures forall l :: NoneQueued(s, l, sth)
  {
    hide Inv;
    var t := s.threadOf[sth];
    InvIs(s);
    CountedSomewhere(s, {}, t);
    forall l ensures NoneQueued(s, l, sth) {
      if l in s.locks {
        forall i: nat | i < |s.locks[l].requests| ensures s.locks[l].requests[i].sth != sth {
          assert !RequestOf(s, t, l, i);
        }
      }
    }
  }

  lemma NothingQueued(s: State, sth: SubThread)
    requires Inv(s) && Known(s, sth) && s.subCount[sth] == 0
    ensures forall l :: NoneQueued(s, l, sth)
  {
    hide QueuesOK, SchedOK, LocksOK, HeldOK;
    InQueued(s.locks);
    assert OfSub(Queued(s.locks), sth) == {};
    forall l, r | l in s.locks && r in s.locks[l].requests ensures r.sth != sth {
      assert r !in OfSub(Queued(s.locks), sth);
    }
  }

  lemma NothingLeft(s: State, sth: SubThread)
    requires Inv(s) && Known(s, sth) && forall l :: NoneQueued(s, l, sth)
    ensures s.subCount[sth] == 0
  {
    hide QueuesOK, SchedOK, LocksOK, HeldOK;
    InQueued(s.locks);
    forall r | r in Queued(s.locks) ensures r.sth != sth {
      var l :| l in s.locks && r in s.locks[l].requests;
      assert NoneQueued(s, l, sth);
    }
    assert OfSub(Queued(s.locks), sth) == {};
  }

  /** Every lock is held by a thread on one of the two lists. */
  lemma EverywhereNone(s: State, sth: SubThread)
    requires Inv(s) && forall t, l :: (t in s.ready || t in s.asleep) && t in s.held && l in s.held[t] ==> NoneQueued(s, l, sth)
    ensures forall l :: NoneQueued(s, l, sth)
  {
    forall l | l in s.locks ensures NoneQueued(s, l, sth) {
      HolderListed(s, l);
    }
  }

  lemma HolderListed(s: State, l: LockId)
    requires Inv(s) && l in s.locks
    ensures var t := s.locks[l].owningThread; (t in s.ready || t in s.asleep) && t in s.held && l in s.held[t]
  {
    hide QueuesOK, CountsOK;
    assert s.locks[l].owningThread in s.held.Keys;
  }

  /** With nothing left of the sub-thread, the queues are the old ones without it. */
  lemma AllThinned(s0: State, s: State, sth: SubThread)
    requires Thinned(s0, s, sth) && forall l :: NoneQueued(s, l, sth)
    ensures s.locks.Keys == s0.locks.Keys
    ensures forall l :: l in s0.locks ==> s.locks[l] == s0.locks[l].(requests := WithoutRequests(s0.locks[l].requests, sth))
  {
    forall l | l in s0.locks
      ensures s.locks[l] == s0.locks[l].(requests := WithoutRequests(s0.locks[l].requests, sth))
    {
      assert Thinner(s0.locks[l], s.locks[l], sth) && NoneQueued(s, l, sth) && l in s.locks.Keys;
      WithoutNone(s.locks[l].requests, sth);
    }
  }
}
