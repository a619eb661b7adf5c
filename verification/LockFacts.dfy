/** What the invariant of the lock protocol says about counters, queues and sleeping threads. */
module LockFacts {
  import opened LockStates

  /** Where the requests of a sub-thread are queued: lock and position. */
  ghost function QueuedAt(locks: map<LockId, Lock>, sth: SubThread): set<(LockId, nat)> {
    set l, i: nat | l in locks && i < |locks[l].requests| && locks[l].requests[i].sth == sth :: (l, i)
  }

  ghost predicate Positions(locks: map<LockId, Lock>, p: set<(LockId, nat)>) {
    forall x :: x in p ==> x.0 in locks && x.1 < |locks[x.0].requests|
  }

  ghost function RequestsAt(locks: map<LockId, Lock>, p: set<(LockId, nat)>): set<Request>
    requires Positions(locks, p)
  {
    set x | x in p :: locks[x.0].requests[x.1]
  }

  lemma DifferentRequests(locks: map<LockId, Lock>, threadOf: map<SubThread, Thread>, clock: nat, l: LockId, i: nat,
                          m: LockId, j: nat)
    requires QueuesOK(locks, threadOf, clock) && l in locks && m in locks
    requires i < |locks[l].requests| && j < |locks[m].requests| && locks[l].requests[i] == locks[m].requests[j]
    ensures l == m && i == j
  {
    assert locks[m].requests[j] in locks[l].requests;
    assert QueueOK(locks[l].requests, threadOf, clock);
  }

  lemma {:induction false} AsManyRequests(locks: map<LockId, Lock>, threadOf: map<SubThread, Thread>, clock: nat,
                                          p: set<(LockId, nat)>)
    requires QueuesOK(locks, threadOf, clock) && Positions(locks, p)
    ensures |RequestsAt(locks, p)| == |p|
  {
    hide QueuesOK;
    if p != {} {
      var x :| x in p;
      var (l, i) := x;
      var r := locks[l].requests[i];
      AsManyRequests(locks, threadOf, clock, p - {x});
      forall y | y in p - {x} ensures locks[y.0].requests[y.1] != r {
        if locks[y.0].requests[y.1] == r {
          DifferentRequests(locks, threadOf, clock, y.0, y.1, l, i);
        }
      }
      assert RequestsAt(locks, p) == RequestsAt(locks, p - {x}) + {r};
      assert r !in RequestsAt(locks, p - {x});
    } else {
      assert RequestsAt(locks, p) == {};
    }
  }

  /** A sub-thread's counter is the number of its requests in all queues. */
  lemma CountIsQueued(s: State, sth: SubThread)
    requires Inv(s) && sth in s.threadOf
    ensures sth in s.subCount && s.subCount[sth] == |QueuedAt(s.locks, sth)|
  {
    var p := QueuedAt(s.locks, sth);
    AsManyRequests(s.locks, s.threadOf, s.clock, p);
    SameRequests(s.locks, sth);
    hide QueuesOK, LocksOK, SchedOK, HeldOK, Queued, QueuedAt;
  }

  lemma SameRequests(locks: map<LockId, Lock>, sth: SubThread)
    ensures RequestsAt(locks, QueuedAt(locks, sth)) == OfSub(Queued(locks), sth)
  {
    var p := QueuedAt(locks, sth);
    forall r ensures r in RequestsAt(locks, p) <==> r in OfSub(Queued(locks), sth) {
      if r in OfSub(Queued(locks), sth) {
        var l, i: nat :| l in locks && i < |locks[l].requests| && locks[l].requests[i] == r;
        assert (l, i) in p;
      }
    }
  }

  /** The counters of some sub-threads added up. */
  ghost function CountsOf(subCount: map<SubThread, int>, subs: set<SubThread>): int
    requires subs <= subCount.Keys
    decreases |subs|
  {
    if subs == {} then 0 else var x :| x in subs; subCount[x] + CountsOf(subCount, subs - {x})
  }

  ghost function OfSubs(q: set<Request>, subs: set<SubThread>): set<Request> {
    set r | r in q && r.sth in subs
  }

  lemma {:induction false} CountsAddUp(q: set<Request>, subCount: map<SubThread, int>, subs: set<SubThread>)
    requires subs <= subCount.Keys && forall sth :: sth in subs ==> subCount[sth] == |OfSub(q, sth)|
    ensures CountsOf(subCount, subs) == |OfSubs(q, subs)|
    decreases |subs|
  {
    if subs == {} {
      assert OfSubs(q, subs) == {};
    } else {
      var x :| x in subs && CountsOf(subCount, subs) == subCount[x] + CountsOf(subCount, subs - {x});
      CountsAddUp(q, subCount, subs - {x});
      assert OfSubs(q, subs) == OfSubs(q, subs - {x}) + OfSub(q, x);
      assert OfSubs(q, subs - {x}) !! OfSub(q, x);
    }
  }

  ghost function SubThreadsOf(s: State, t: Thread): set<SubThread> {
    set sth | sth in s.threadOf && s.threadOf[sth] == t
  }

  /** A thread's counter is the sum over its sub-threads. */
  lemma ThreadCountIsSum(s: State, t: Thread)
    requires Inv(s) && t in s.held
    ensures SubThreadsOf(s, t) <= s.subCount.Keys
    ensures t in s.threadCount && s.threadCount[t] == CountsOf(s.subCount, SubThreadsOf(s, t))
  {
    hide QueuesOK, LocksOK, HeldOK, ListsOK, WaitingOK, Queued;
    assert forall sth :: sth in s.subCount <==> sth in s.subCount.Keys;
    CountsAddUp(Queued(s.locks), s.subCount, SubThreadsOf(s, t));
    assert OfSubs(Queued(s.locks), SubThreadsOf(s, t)) == OfThread(Queued(s.locks), s.threadOf, t);
    assert t in s.threadCount.Keys;
  }

  /** The `i`-th request of lock `l` is one of the thread's. */
  predicate RequestOf(s: State, t: Thread, l: LockId, i: nat) {
    && l in s.locks && i < |s.locks[l].requests|
    && s.locks[l].requests[i].sth in s.threadOf && s.threadOf[s.locks[l].requests[i].sth] == t
  }

  /** Some queue holds a request of the thread. */
  ghost predicate QueuesSomewhere(s: State, t: Thread) {
    exists l, i: nat :: RequestOf(s, t, l, i)
  }

  lemma CountedSomewhere(s: State, except: set<LockId>, t: Thread)
    requires InvExcept(s, except) && t in s.held
    ensures t in s.threadCount && (s.threadCount[t] != 0 <==> QueuesSomewhere(s, t))
  {
    hide LocksOK, HeldOK, QueuesOK, ListsOK, WaitingOK;
    assert t in s.threadCount.Keys;
    var q := OfThread(Queued(s.locks), s.threadOf, t);
    if QueuesSomewhere(s, t) {
      var l, i: nat :| RequestOf(s, t, l, i);
      assert s.locks[l].requests[i] in q;
    }
    if q != {} {
      var r :| r in q;
      var l, i: nat :| l in s.locks && i < |s.locks[l].requests| && s.locks[l].requests[i] == r;
      assert RequestOf(s, t, l, i);
    }
  }

  /** No wake-up is lost: a thread sleeps only while a queue holds a request of it, or for something other
    * than a lock; otherwise it is on the list of those that may run. */
  lemma SleepersAreQueued(s: State, t: Thread)
    requires Inv(s) && t in s.held
    ensures t in s.asleep ==> QueuesSomewhere(s, t) || t in s.resting
    ensures !QueuesSomewhere(s, t) && t !in s.resting ==> t in s.ready && t !in s.waiting
    ensures t in s.threadCount && (s.threadCount[t] == 0 <==> !QueuesSomewhere(s, t))
  {
    hide QueuesOK, LocksOK, HeldOK, CountsOK, NoRepeats, QueuesSomewhere;
    CountedSomewhere(s, {}, t);
    assert t in s.held.Keys;
  }

  /** A lock with waiting requests always has an owner. */
  lemma WaitedForIsOwned(s: State, l: LockId, i: nat)
    requires Inv(s) && l in s.locks && i < |s.locks[l].requests|
    ensures s.locks[l].owners != []
    ensures s.locks[l].requests[i].sth in s.threadOf
    ensures s.threadOf[s.locks[l].requests[i].sth] != s.locks[l].owningThread ==>
      forall k :: 0 <= k < |s.locks[l].owners| ==> s.locks[l].owners[k].sth != s.locks[l].requests[i].sth
  {
    assert QueueOK(s.locks[l].requests, s.threadOf, s.clock);
    hide QueuesOK, CountsOK, HeldOK, SchedOK;
  }

  /** The first request is the oldest one that is still queued. */
  lemma FirstIsOldest(s: State, l: LockId, i: nat)
    requires Inv(s) && l in s.locks && 0 < i < |s.locks[l].requests|
    ensures s.locks[l].requests[0].ticket < s.locks[l].requests[i].ticket < s.clock
  {
    assert QueueOK(s.locks[l].requests, s.threadOf, s.clock);
  }
}
