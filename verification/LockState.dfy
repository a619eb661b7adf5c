/** Object locks as a step system: what every step of locking, unlocking, timing out, aborting and
  * destroying sub-threads keeps. */
module LockStates {

  type Thread = nat
  type SubThread = nat
  type LockId = nat

  datatype Owner = Owner(sth: SubThread, recursion: nat)

  /** A queued request; `ticket` is bookkeeping of the proof: the moment the request was made. */
  datatype Request = Request(sth: SubThread, timeExpire: int, ticket: nat)

  /** A lock exists only while somebody owns it; requests queue up behind the owners. */
  datatype Lock = Lock(owningThread: Thread, resource: int, owners: seq<Owner>, requests: seq<Request>)

  /** The state of the engine as far as locks are concerned.  `threadOf` remembers destroyed
    * sub-threads, because an owner or a request may still name one. */
  datatype State = State(
    threadOf: map<SubThread, Thread>,
    locks: map<LockId, Lock>,
    held: map<Thread, seq<LockId>>,       // m_locks of each thread
    subCount: map<SubThread, int>,        // m_lockRequestsCount of each sub-thread
    threadCount: map<Thread, int>,        // and of each thread
    waiting: set<Thread>,                 // m_status is TH_S_Waiting
    resting: set<Thread>,                 // waits for events, a time or an object
    ready: seq<Thread>,                   // m_threadsReady
    asleep: seq<Thread>,                  // m_threadsWaiting
    counter: map<Thread, int>,            // m_executionCounter
    clock: nat)

  predicate DistinctOwners(owners: seq<Owner>) {
    forall i, j :: 0 <= i < j < |owners| ==> owners[i].sth != owners[j].sth
  }

  predicate NoRepeats(s: seq<nat>) {
    forall i, j :: 0 <= i < j < |s| ==> s[i] != s[j]
  }

  /** All owners are distinct sub-threads of the owning thread, with recursion at least one. */
  predicate OwnersFit(threadOf: map<SubThread, Thread>, th: Thread, owners: seq<Owner>) {
    && DistinctOwners(owners)
    && (forall i :: 0 <= i < |owners| ==>
          && owners[i].recursion >= 1 && owners[i].sth in threadOf && threadOf[owners[i].sth] == th)
  }

  /** The locks in `except` are those whose last owner just went away. */
  ghost predicate LocksOK(s: State, except: set<LockId>) {
    && (forall l :: l in s.locks ==>
          OwnersFit(s.threadOf, s.locks[l].owningThread, s.locks[l].owners) && s.locks[l].owningThread in s.held)
    && (forall l :: l in s.locks && l !in except ==> s.locks[l].owners != [])
    && (forall l, m :: l in s.locks && m in s.locks && s.locks[l].resource == s.locks[m].resource ==> l == m)
  }

  /** Every lock is on the list of its owning thread, once, and on no other. */
  ghost predicate HeldOK(locks: map<LockId, Lock>, held: map<Thread, seq<LockId>>) {
    && (forall t, l :: t in held && l in held[t] ==> l in locks && locks[l].owningThread == t)
    && (forall l :: l in locks && locks[l].owningThread in held ==> l in held[locks[l].owningThread])
    && (forall t :: t in held ==> NoRepeats(held[t]))
  }

  /** A queue is in order of arrival. */
  ghost predicate QueueOK(q: seq<Request>, threadOf: map<SubThread, Thread>, clock: nat) {
    && (forall i :: 0 <= i < |q| ==> q[i].sth in threadOf && q[i].ticket < clock)
    && (forall i, j :: 0 <= i < j < |q| ==> q[i].ticket < q[j].ticket)
  }

  /** No two queues hold the same request. */
  ghost predicate Apart(locks: map<LockId, Lock>) {
    forall l, m, r :: l in locks && m in locks && r in locks[l].requests && r in locks[m].requests ==> l == m
  }

  ghost predicate QueuesOK(locks: map<LockId, Lock>, threadOf: map<SubThread, Thread>, clock: nat) {
    && (forall l :: l in locks ==> QueueOK(locks[l].requests, threadOf, clock))
    && Apart(locks)
  }

  /** Everything that is queued anywhere. */
  ghost function Queued(locks: map<LockId, Lock>): set<Request> {
    set l, i: nat | l in locks && i < |locks[l].requests| :: locks[l].requests[i]
  }

  ghost function OfSub(q: set<Request>, sth: SubThread): set<Request> {
    set r | r in q && r.sth == sth
  }

  ghost function OfThread(q: set<Request>, threadOf: map<SubThread, Thread>, t: Thread): set<Request> {
    set r | r in q && r.sth in threadOf && threadOf[r.sth] == t
  }

  /** A sub-thread counts its queued requests, however many; a thread those of its sub-threads. */
  ghost predicate CountsOK(q: set<Request>, threadOf: map<SubThread, Thread>, subCount: map<SubThread, int>,
                           threadCount: map<Thread, int>) {
    && (forall sth :: sth in threadOf ==>
          sth in subCount && subCount[sth] == |OfSub(q, sth)| && threadOf[sth] in threadCount)
    && (forall t :: t in threadCount ==> threadCount[t] == |OfThread(q, threadOf, t)|)
  }

  /** Every thread is on one of the two lists, once. */
  ghost predicate ListsOK(ready: seq<Thread>, asleep: seq<Thread>, threads: set<Thread>) {
    && NoRepeats(ready) && NoRepeats(asleep) && (forall t :: t in ready ==> t !in asleep)
    && (forall t :: t in threads <==> t in ready || t in asleep)
  }

  /** Only waiting threads sleep, and a thread waits only while it has a request queued, or for
    * something other than a lock. */
  ghost predicate WaitingOK(asleep: seq<Thread>, waiting: set<Thread>, resting: set<Thread>, threadCount: map<Thread, int>) {
    && (forall t :: t in asleep ==> t in waiting)
    && (forall t :: t in waiting ==> t in resting || (t in threadCount && threadCount[t] > 0))
  }

  ghost predicate SchedOK(s: State) {
    && ListsOK(s.ready, s.asleep, s.held.Keys) && WaitingOK(s.asleep, s.waiting, s.resting, s.threadCount)
    && s.threadCount.Keys == s.held.Keys
  }

  /** The protocol invariant. */
  ghost predicate InvExcept(s: State, except: set<LockId>) {
    && LocksOK(s, except) && HeldOK(s.locks, s.held) && QueuesOK(s.locks, s.threadOf, s.clock)
    && CountsOK(Queued(s.locks), s.threadOf, s.subCount, s.threadCount) && SchedOK(s)
  }

  ghost predicate Inv(s: State) {
    InvExcept(s, {})
  }

  lemma InvIs(s: State)
    ensures Inv(s) <==> InvExcept(s, {})
  {
  }

  /** A sub-thread with all its records. */
  predicate Known(s: State, sth: SubThread) {
    sth in s.threadOf && sth in s.subCount && s.threadOf[sth] in s.threadCount && s.threadOf[sth] in s.held
  }

  lemma AllKnown(s: State, sth: SubThread, except: set<LockId>)
    requires InvExcept(s, except) && sth in s.threadOf
    ensures Known(s, sth)
  {
  }

  lemma QueuedKnown(s: State, l: LockId, i: nat, except: set<LockId>)
    requires InvExcept(s, except) && l in s.locks && i < |s.locks[l].requests|
    ensures Known(s, s.locks[l].requests[i].sth)
  {
    assert QueueOK(s.locks[l].requests, s.threadOf, s.clock);
  }

  // ----- Lists of threads and locks

  function Unlinked(list: seq<nat>, x: nat): seq<nat> {
    if list == [] then [] else if list[0] == x then Unlinked(list[1..], x) else [list[0]] + Unlinked(list[1..], x)
  }

  lemma {:induction false} UnlinkedMembers(list: seq<nat>, x: nat)
    ensures forall m :: m in Unlinked(list, x) <==> m in list && m != x
    ensures NoRepeats(list) ==> NoRepeats(Unlinked(list, x))
  {
    if list != [] {
      UnlinkedMembers(list[1..], x);
      assert list == [list[0]] + list[1..];
      if NoRepeats(list) {
        assert NoRepeats(list[1..]);
        assert list[0] !in list[1..];
      }
    }
  }

  function CounterOf(counter: map<Thread, int>, t: Thread): int {
    if t in counter then counter[t] else 0
  }

  /** InsertThreadRoundRobin: in front of the first thread that has less credit. */
  function Slot(list: seq<Thread>, counter: map<Thread, int>, t: Thread): (k: nat)
    ensures k <= |list|
    ensures forall i :: 0 <= i < k ==> CounterOf(counter, list[i]) >= CounterOf(counter, t)
    ensures k < |list| ==> CounterOf(counter, list[k]) < CounterOf(counter, t)
  {
    if list == [] || CounterOf(counter, list[0]) < CounterOf(counter, t) then 0 else 1 + Slot(list[1..], counter, t)
  }

  function Inserted(list: seq<Thread>, counter: map<Thread, int>, t: Thread): seq<Thread> {
    var k := Slot(list, counter, t);
    list[..k] + [t] + list[k..]
  }

  lemma InsertedMembers(list: seq<Thread>, counter: map<Thread, int>, t: Thread)
    requires NoRepeats(list) && t !in list
    ensures NoRepeats(Inserted(list, counter, t))
    ensures forall m :: m in Inserted(list, counter, t) <==> m in list || m == t
  {
    var k := Slot(list, counter, t);
    var r := Inserted(list, counter, t);
    forall i, j | 0 <= i < j < |r| ensures r[i] != r[j] {
      assert i != k ==> r[i] == list[if i < k then i else i - 1];
      assert j != k ==> r[j] == list[if j < k then j else j - 1];
    }
    forall m | m in list ensures m in r {
      var i :| 0 <= i < |list| && list[i] == m;
      assert r[if i < k then i else i + 1] == m;
    }
    forall m | m in r ensures m in list || m == t {
      var i :| 0 <= i < |r| && r[i] == m;
      assert i != k ==> m == list[if i < k then i else i - 1];
    }
  }

  // ----- Steps: running and waiting

  /** Restart: the thread may run, whatever it waited for, and queues up by its credit. */
  function Restarted(s: State, t: Thread): State {
    s.(waiting := s.waiting - {t}, resting := s.resting - {t},
       ready := Inserted(Unlinked(s.ready, t), s.counter, t), asleep := Unlinked(s.asleep, t))
  }

  /** PutInProperList at the end of a run. */
  function Listed(s: State, t: Thread): State {
    if t in s.waiting then s.(ready := Unlinked(s.ready, t), asleep := Unlinked(s.asleep, t) + [t])
    else s.(ready := Inserted(Unlinked(s.ready, t), s.counter, t), asleep := Unlinked(s.asleep, t), resting := s.resting - {t})
  }

  /** Sleep and the waits for events and objects: the thread stops, but not for a lock. */
  function Rested(s: State, t: Thread): State {
    s.(waiting := s.waiting + {t}, resting := s.resting + {t})
  }

  lemma Woken(ready: seq<Thread>, asleep: seq<Thread>, threads: set<Thread>, counter: map<Thread, int>, t: Thread)
    requires ListsOK(ready, asleep, threads) && t in threads
    ensures ListsOK(Inserted(Unlinked(ready, t), counter, t), Unlinked(asleep, t), threads)
  {
    UnlinkedMembers(ready, t);
    UnlinkedMembers(asleep, t);
    InsertedMembers(Unlinked(ready, t), counter, t);
    hide NoRepeats, Inserted, Unlinked;
  }

  lemma PutToSleep(ready: seq<Thread>, asleep: seq<Thread>, threads: set<Thread>, t: Thread)
    requires ListsOK(ready, asleep, threads) && t in threads
    ensures ListsOK(Unlinked(ready, t), Unlinked(asleep, t) + [t], threads)
    ensures forall m :: m in Unlinked(asleep, t) + [t] ==> m in asleep || m == t
  {
    UnlinkedMembers(ready, t);
    UnlinkedMembers(asleep, t);
    var a := Unlinked(asleep, t);
    hide Unlinked;
    assert NoRepeats(a + [t]);
    hide NoRepeats;
    assert forall m :: m in a + [t] <==> m in a || m == t;
  }

  lemma RestartedSched(s: State, t: Thread)
    requires SchedOK(s) && t in s.held
    ensures SchedOK(Restarted(s, t))
  {
    hide ListsOK, Inserted, Unlinked;
    Woken(s.ready, s.asleep, s.held.Keys, s.counter, t);
    UnlinkedMembers(s.asleep, t);
  }

  lemma ListedSched(s: State, t: Thread)
    requires SchedOK(s) && t in s.held
    ensures SchedOK(Listed(s, t))
  {
    hide ListsOK, Inserted, Unlinked;
    if t in s.waiting {
      PutToSleep(s.ready, s.asleep, s.held.Keys, t);
    } else {
      Woken(s.ready, s.asleep, s.held.Keys, s.counter, t);
      UnlinkedMembers(s.asleep, t);
    }
  }

  lemma LocksToo(s: State, s': State, except: set<LockId>)
    requires LocksOK(s, except) && s'.locks == s.locks && s'.threadOf == s.threadOf && s'.held == s.held
    ensures LocksOK(s', except)
  {
  }

  lemma RestartedKeeps(s: State, t: Thread, except: set<LockId>)
    requires InvExcept(s, except) && t in s.held
    ensures InvExcept(Restarted(s, t), except)
  {
    hide LocksOK, SchedOK, QueuesOK, CountsOK, HeldOK, Queued, Inserted, Unlinked;
    RestartedSched(s, t);
    LocksToo(s, Restarted(s, t), except);
  }

  lemma RestedKeeps(s: State, t: Thread)
    requires Inv(s) && t in s.held
    ensures Inv(Rested(s, t))
  {
    hide LocksOK, QueuesOK, CountsOK, HeldOK, Queued, ListsOK;
    LocksToo(s, Rested(s, t), {});
  }

  lemma ListedKeeps(s: State, t: Thread)
    requires Inv(s) && t in s.held
    ensures Inv(Listed(s, t))
  {
    hide LocksOK, SchedOK, QueuesOK, CountsOK, HeldOK, Queued, Inserted, Unlinked;
    ListedSched(s, t);
    LocksToo(s, Listed(s, t), {});
  }

  /** ChangeLockRequestCount: the thread runs again exactly if nothing is counted any more. */
  function Recounted(s: State, sth: SubThread, diff: int): State
    requires Known(s, sth)
  {
    var t := s.threadOf[sth];
    var s1 := s.(subCount := s.subCount[sth := s.subCount[sth] + diff],
                 threadCount := s.threadCount[t := s.threadCount[t] + diff]);
    if s1.threadCount[t] == 0 then Restarted(s1, t) else s1.(waiting := s.waiting + {t})
  }

  lemma RecountedSched(s: State, sth: SubThread, diff: int)
    requires SchedOK(s) && Known(s, sth) && s.threadCount[s.threadOf[sth]] + diff >= 0
    ensures SchedOK(Recounted(s, sth, diff))
  {
    hide ListsOK, Inserted, Unlinked;
    var t := s.threadOf[sth];
    if s.threadCount[t] + diff == 0 {
      Woken(s.ready, s.asleep, s.held.Keys, s.counter, t);
      UnlinkedMembers(s.asleep, t);
    }
  }

  // ----- Steps: requests

  function Remove<T>(s: seq<T>, i: nat): seq<T>
    requires i < |s|
  {
    s[..i] + s[i + 1..]
  }

  /** The lock without its `i`-th request. */
  function WithoutAt(locks: map<LockId, Lock>, l: LockId, i: nat): map<LockId, Lock>
    requires l in locks && i < |locks[l].requests|
  {
    locks[l := locks[l].(requests := Remove(locks[l].requests, i))]
  }

  /** A request leaves its queue. */
  function RequestGone(s: State, l: LockId, i: nat): State
    requires l in s.locks && i < |s.locks[l].requests| && Known(s, s.locks[l].requests[i].sth)
  {
    Recounted(s.(locks := WithoutAt(s.locks, l, i)), s.locks[l].requests[i].sth, -1)
  }

  lemma RemovedAt<T>(q: seq<T>, i: nat)
    requires i < |q|
    ensures |Remove(q, i)| == |q| - 1
    ensures forall j :: 0 <= j < |q| - 1 ==> Remove(q, i)[j] == q[if j < i then j else j + 1]
    ensures forall r :: r in Remove(q, i) ==> r in q
    ensures forall r :: r in q && r != q[i] ==> r in Remove(q, i)
  {
    forall r | r in q && r != q[i] ensures r in Remove(q, i) {
      var j :| 0 <= j < |q| && q[j] == r;
      assert Remove(q, i)[if j < i then j else j - 1] == r;
    }
  }

  lemma InQueued(locks: map<LockId, Lock>)
    ensures forall r :: r in Queued(locks) <==> exists l :: l in locks && r in locks[l].requests
  {
    forall r | exists l :: l in locks && r in locks[l].requests ensures r in Queued(locks) {
      var l :| l in locks && r in locks[l].requests;
      var i: nat :| i < |locks[l].requests| && locks[l].requests[i] == r;
    }
  }

  /** One request fewer is queued, namely that one. */
  lemma QueuedWithout(locks: map<LockId, Lock>, threadOf: map<SubThread, Thread>, clock: nat, l: LockId, i: nat)
    requires QueuesOK(locks, threadOf, clock) && l in locks && i < |locks[l].requests|
    ensures locks[l].requests[i] in Queued(locks)
    ensures Queued(WithoutAt(locks, l, i)) == Queued(locks) - {locks[l].requests[i]}
  {
    var q, r := locks[l].requests, locks[l].requests[i];
    var locks' := WithoutAt(locks, l, i);
    RemovedAt(q, i);
    assert QueueOK(q, threadOf, clock);
    forall j | 0 <= j < |q| - 1 ensures Remove(q, i)[j] != r {
    }
    InQueued(locks);
    InQueued(locks');
    hide QueueOK, Queued;
    forall x | x in Queued(locks) && x != r ensures x in Queued(locks') {
      var m :| m in locks && x in locks[m].requests;
      assert m in locks' && x in locks'[m].requests;
    }
    forall x | x in Queued(locks') ensures x in Queued(locks) && x != r {
      var m :| m in locks' && x in locks'[m].requests;
      assert m in locks && x in locks[m].requests;
    }
  }

  lemma QueuesWithout(locks: map<LockId, Lock>, threadOf: map<SubThread, Thread>, clock: nat, l: LockId, i: nat)
    requires QueuesOK(locks, threadOf, clock) && l in locks && i < |locks[l].requests|
    ensures QueuesOK(WithoutAt(locks, l, i), threadOf, clock)
  {
    hide Apart;
    var locks' := WithoutAt(locks, l, i);
    assert QueueOK(Remove(locks[l].requests, i), threadOf, clock) by {
      RemovedAt(locks[l].requests, i);
      assert QueueOK(locks[l].requests, threadOf, clock);
    }
    hide QueueOK;
    RemovedAt(locks[l].requests, i);
    ApartStill(locks, locks');
  }

  lemma ApartStill(locks: map<LockId, Lock>, locks': map<LockId, Lock>)
    requires Apart(locks)
    requires forall l, r :: l in locks' && r in locks'[l].requests ==> l in locks && r in locks[l].requests
    ensures Apart(locks')
  {
  }

  lemma OfWithout(q: set<Request>, r: Request, threadOf: map<SubThread, Thread>)
    requires r in q && r.sth in threadOf
    ensures r in OfThread(q, threadOf, threadOf[r.sth])
    ensures forall sth :: |OfSub(q - {r}, sth)| == if r.sth == sth then |OfSub(q, sth)| - 1 else |OfSub(q, sth)|
    ensures forall u ::
      |OfThread(q - {r}, threadOf, u)|
        == if u == threadOf[r.sth] then |OfThread(q, threadOf, u)| - 1 else |OfThread(q, threadOf, u)|
  {
    forall sth ensures OfSub(q - {r}, sth) == if r.sth == sth then OfSub(q, sth) - {r} else OfSub(q, sth) {
    }
    forall u
      ensures OfThread(q - {r}, threadOf, u)
        == if u == threadOf[r.sth] then OfThread(q, threadOf, u) - {r} else OfThread(q, threadOf, u)
    {
    }
  }

  /** Counting one request less, or one more, keeps the counters right. */
  lemma CountsWithout(q: set<Request>, r: Request, s: State)
    requires CountsOK(q, s.threadOf, s.subCount, s.threadCount) && r in q && Known(s, r.sth)
    ensures s.threadCount[s.threadOf[r.sth]] >= 1
    ensures var s' := Recounted(s, r.sth, -1); CountsOK(q - {r}, s'.threadOf, s'.subCount, s'.threadCount)
  {
    hide Recounted, OfSub, OfThread;
    OfWithout(q, r, s.threadOf);
    RecountedCounts(s, r.sth, -1);
  }

  lemma CountsWith(q: set<Request>, r: Request, s: State)
    requires CountsOK(q, s.threadOf, s.subCount, s.threadCount) && r !in q && Known(s, r.sth)
    ensures s.threadCount[s.threadOf[r.sth]] >= 0
    ensures var s' := Recounted(s, r.sth, 1); CountsOK(q + {r}, s'.threadOf, s'.subCount, s'.threadCount)
  {
    hide Recounted, OfSub, OfThread;
    OfWithout(q + {r}, r, s.threadOf);
    assert q + {r} - {r} == q;
    RecountedCounts(s, r.sth, 1);
  }

  lemma RecountedCounts(s: State, sth: SubThread, diff: int)
    requires Known(s, sth)
    ensures var s', t := Recounted(s, sth, diff), s.threadOf[sth];
      && s'.threadOf == s.threadOf && s'.held == s.held && s'.locks == s.locks && s'.clock == s.clock && s'.counter == s.counter
      && s'.subCount == s.subCount[sth := s.subCount[sth] + diff]
      && s'.threadCount == s.threadCount[t := s.threadCount[t] + diff]
  {
  }

  /** Owners and threads as before, whatever happens to the queues. */
  lemma SameOwners(s: State, s': State, except: set<LockId>)
    requires LocksOK(s, except) && HeldOK(s.locks, s.held) && s'.threadOf == s.threadOf && s'.held == s.held
    requires s'.locks.Keys == s.locks.Keys
    requires forall l :: l in s'.locks && l in s.locks ==> s'.locks[l].(requests := s.locks[l].requests) == s.locks[l]
    ensures LocksOK(s', except) && HeldOK(s'.locks, s'.held)
  {
    hide OwnersFit;
    assert forall l :: l in s.locks <==> l in s.locks.Keys;
    assert forall l :: l in s'.locks <==> l in s'.locks.Keys;
    forall l | l in s'.locks
      ensures l in s.locks && s'.locks[l].owners == s.locks[l].owners
      ensures s'.locks[l].owningThread == s.locks[l].owningThread && s'.locks[l].resource == s.locks[l].resource
    {
      assert s'.locks[l].(requests := s.locks[l].requests) == s.locks[l];
    }
  }

  /** A request that leaves its queue keeps the invariant. */
  lemma RequestGoneKeeps(s: State, l: LockId, i: nat, except: set<LockId>)
    requires InvExcept(s, except) && l in s.locks && i < |s.locks[l].requests|
    ensures Known(s, s.locks[l].requests[i].sth)
    ensures InvExcept(RequestGone(s, l, i), except)
  {
    QueuedKnown(s, l, i, except);
    hide QueuesOK, CountsOK, Queued, SchedOK, LocksOK, HeldOK, Recounted, Known;
    var r := s.locks[l].requests[i];
    var s1 := s.(locks := WithoutAt(s.locks, l, i));
    QueuedWithout(s.locks, s.threadOf, s.clock, l, i);
    QueuesWithout(s.locks, s.threadOf, s.clock, l, i);
    KnownToo(s, s1, r.sth);
    SchedToo(s, s1);
    CountsWithout(Queued(s.locks), r, s1);
    RecountedSched(s1, r.sth, -1);
    RecountedCounts(s1, r.sth, -1);
    WithoutAtOwners(s.locks, l, i);
    SameOwners(s, RequestGone(s, l, i), except);
  }

  lemma WithoutAtOwners(locks: map<LockId, Lock>, l: LockId, i: nat)
    requires l in locks && i < |locks[l].requests|
    ensures WithoutAt(locks, l, i).Keys == locks.Keys
    ensures forall m :: m in locks ==> WithoutAt(locks, l, i)[m].(requests := locks[m].requests) == locks[m]
  {
  }

  lemma KnownToo(s: State, s': State, sth: SubThread)
    requires Known(s, sth) && s'.threadOf == s.threadOf && s'.held == s.held
    requires s'.subCount == s.subCount && s'.threadCount == s.threadCount
    ensures Known(s', sth) && s'.threadOf[sth] == s.threadOf[sth]
  {
  }

  lemma SchedToo(s: State, s': State)
    requires SchedOK(s) && s'.ready == s.ready && s'.asleep == s.asleep && s'.held.Keys == s.held.Keys
    requires s'.waiting == s.waiting && s'.resting == s.resting && s'.threadCount == s.threadCount
    ensures SchedOK(s')
  {
  }

  /** A new request at the end of the queue. */
  function WithRequest(locks: map<LockId, Lock>, l: LockId, r: Request): map<LockId, Lock>
    requires l in locks
  {
    locks[l := locks[l].(requests := locks[l].requests + [r])]
  }

  function RequestAdded(s: State, l: LockId, sth: SubThread, timeExpire: int): State
    requires l in s.locks && Known(s, sth)
  {
    Recounted(s.(locks := WithRequest(s.locks, l, Request(sth, timeExpire, s.clock)), clock := s.clock + 1), sth, 1)
  }

  /** One request more is queued, and it is new. */
  lemma QueuedWith(locks: map<LockId, Lock>, threadOf: map<SubThread, Thread>, clock: nat, l: LockId, r: Request)
    requires QueuesOK(locks, threadOf, clock) && l in locks && r.ticket == clock
    ensures r !in Queued(locks) && Queued(WithRequest(locks, l, r)) == Queued(locks) + {r}
  {
    var locks' := WithRequest(locks, l, r);
    InQueued(locks);
    InQueued(locks');
    NewTicket(locks, threadOf, clock);
    hide QueuesOK, Queued;
    assert forall x :: x in locks'[l].requests <==> x in locks[l].requests || x == r;
    forall x | x in Queued(locks) + {r} ensures x in Queued(locks') {
      if x == r {
        assert l in locks' && x in locks'[l].requests;
      } else {
        var m :| m in locks && x in locks[m].requests;
        assert m in locks' && x in locks'[m].requests;
      }
    }
    forall x | x in Queued(locks') ensures x in Queued(locks) + {r} {
      var m :| m in locks' && x in locks'[m].requests;
      assert m in locks;
    }
  }

  lemma NewTicket(locks: map<LockId, Lock>, threadOf: map<SubThread, Thread>, clock: nat)
    requires QueuesOK(locks, threadOf, clock)
    ensures forall m, x :: m in locks && x in locks[m].requests ==> x.ticket < clock && x.sth in threadOf
  {
    forall m, x | m in locks && x in locks[m].requests ensures x.ticket < clock && x.sth in threadOf {
      assert QueueOK(locks[m].requests, threadOf, clock);
    }
  }

  lemma QueuesWith(locks: map<LockId, Lock>, threadOf: map<SubThread, Thread>, clock: nat, l: LockId, r: Request)
    requires QueuesOK(locks, threadOf, clock) && l in locks && r.sth in threadOf && r.ticket == clock
    ensures QueuesOK(WithRequest(locks, l, r), threadOf, clock + 1)
  {
    var locks' := WithRequest(locks, l, r);
    assert forall m :: m in locks' ==> QueueOK(locks'[m].requests, threadOf, clock + 1) by {
      hide Apart;
      forall m | m in locks' ensures QueueOK(locks'[m].requests, threadOf, clock + 1) {
        assert QueueOK(locks[m].requests, threadOf, clock);
      }
    }
    NewTicket(locks, threadOf, clock);
    hide QueueOK;
    assert forall x :: x in locks'[l].requests <==> x in locks[l].requests || x == r;
    forall m, k, x | m in locks' && k in locks' && x in locks'[m].requests && x in locks'[k].requests ensures m == k {
      if x == r {
        assert m == l && k == l;
      } else {
        assert x in locks[m].requests && x in locks[k].requests;
      }
    }
  }

  /** A new request keeps the invariant, whoever makes it and whatever else the thread has queued. */
  lemma RequestAddedKeeps(s: State, l: LockId, sth: SubThread, timeExpire: int)
    requires Inv(s) && l in s.locks && Known(s, sth)
    ensures Inv(RequestAdded(s, l, sth, timeExpire))
  {
    hide QueuesOK, CountsOK, Queued, SchedOK, LocksOK, HeldOK, Recounted;
    var r := Request(sth, timeExpire, s.clock);
    var s1 := s.(locks := WithRequest(s.locks, l, r), clock := s.clock + 1);
    QueuedWith(s.locks, s.threadOf, s.clock, l, r);
    QueuesWith(s.locks, s.threadOf, s.clock, l, r);
    SchedToo(s, s1);
    CountsWith(Queued(s.locks), r, s1);
    RecountedSched(s1, sth, 1);
    RecountedCounts(s1, sth, 1);
    WithRequestOwners(s.locks, l, r);
    SameOwners(s, RequestAdded(s, l, sth, timeExpire), {});
  }

  lemma WithRequestOwners(locks: map<LockId, Lock>, l: LockId, r: Request)
    requires l in locks
    ensures WithRequest(locks, l, r).Keys == locks.Keys
    ensures forall m :: m in locks ==> WithRequest(locks, l, r)[m].(requests := locks[m].requests) == locks[m]
  {
  }

  // ----- Steps: owners

  /** Queues as before; locks without requests come and go. */
  lemma SameQueues(s: State, s': State)
    requires QueuesOK(s.locks, s.threadOf, s.clock) && s'.clock == s.clock
    requires forall sth :: sth in s.threadOf ==> sth in s'.threadOf
    requires forall l :: l in s'.locks && s'.locks[l].requests != [] ==>
      l in s.locks && s'.locks[l].requests == s.locks[l].requests
    requires forall l :: l in s.locks && s.locks[l].requests != [] ==>
      l in s'.locks && s'.locks[l].requests == s.locks[l].requests
    ensures QueuesOK(s'.locks, s'.threadOf, s'.clock) && Queued(s'.locks) == Queued(s.locks)
  {
    InQueued(s.locks);
    InQueued(s'.locks);
    assert forall l :: l in s'.locks ==> QueueOK(s'.locks[l].requests, s'.threadOf, s'.clock) by {
      hide Apart, Queued;
      forall l | l in s'.locks ensures QueueOK(s'.locks[l].requests, s'.threadOf, s'.clock) {
        if s'.locks[l].requests != [] {
          assert QueueOK(s.locks[l].requests, s.threadOf, s.clock);
        }
      }
    }
    hide QueueOK, Queued, Apart;
    ApartStill(s.locks, s'.locks);
    hide QueuesOK;
    forall r ensures r in Queued(s.locks) <==> r in Queued(s'.locks) {
      if r in Queued(s.locks) {
        var l :| l in s.locks && r in s.locks[l].requests;
        assert l in s'.locks && r in s'.locks[l].requests;
      }
      if r in Queued(s'.locks) {
        var l :| l in s'.locks && r in s'.locks[l].requests;
        assert l in s.locks && r in s.locks[l].requests;
      }
    }
  }

  /** Locks as before, except one. */
  lemma SameLocks(s: State, s': State, l: LockId, except: set<LockId>, except': set<LockId>)
    requires LocksOK(s, except) && s'.threadOf == s.threadOf && (forall t :: t in s.held ==> t in s'.held)
    requires forall m :: m in s'.locks && m != l ==>
      && m in s.locks
      && s'.locks[m].owningThread == s.locks[m].owningThread && s'.locks[m].owners == s.locks[m].owners
      && s'.locks[m].resource == s.locks[m].resource
    requires l in s'.locks ==>
      && OwnersFit(s'.threadOf, s'.locks[l].owningThread, s'.locks[l].owners) && s'.locks[l].owningThread in s'.held
      && (s'.locks[l].owners == [] ==> l in except')
      && (forall m :: m in s.locks && m != l ==> s.locks[m].resource != s'.locks[l].resource)
    requires except <= except' + {l}
    ensures LocksOK(s', except')
  {
    hide OwnersFit;
  }

  /** Lists of held locks as before. */
  lemma SameHeld(s: State, s': State)
    requires HeldOK(s.locks, s.held) && s'.held == s.held && forall m :: m in s.locks <==> m in s'.locks
    requires forall m :: m in s.locks && m in s'.locks ==> s'.locks[m].owningThread == s.locks[m].owningThread
    ensures HeldOK(s'.locks, s'.held)
  {
  }

  lemma OtherResources(s: State, l: LockId, except: set<LockId>)
    requires LocksOK(s, except) && l in s.locks
    ensures s.locks[l].owningThread in s.held && OwnersFit(s.threadOf, s.locks[l].owningThread, s.locks[l].owners)
    ensures forall m :: m in s.locks && m != l ==> s.locks[m].resource != s.locks[l].resource
  {
  }

  /** The owners of a lock change, its thread does not. */
  function OwnersSet(s: State, l: LockId, owners: seq<Owner>): State
    requires l in s.locks
  {
    s.(locks := s.locks[l := s.locks[l].(owners := owners)])
  }

  lemma OwnersSetKeeps(s: State, l: LockId, owners: seq<Owner>, except: set<LockId>)
    requires InvExcept(s, except) && l in s.locks && OwnersFit(s.threadOf, s.locks[l].owningThread, owners)
    ensures InvExcept(OwnersSet(s, l, owners), if owners == [] then except + {l} else except - {l})
  {
    hide LocksOK, HeldOK, QueuesOK, CountsOK, SchedOK, Queued, OwnersFit;
    var s' := OwnersSet(s, l, owners);
    OtherResources(s, l, except);
    SameQueues(s, s');
    SchedToo(s, s');
    SameHeld(s, s');
    SameLocks(s, s', l, except, if owners == [] then except + {l} else except - {l});
  }

  /** A new lock, held by its first owner. */
  function LockCreated(s: State, l: LockId, resource: int, sth: SubThread): State
    requires Known(s, sth)
  {
    var t := s.threadOf[sth];
    s.(locks := s.locks[l := Lock(t, resource, [Owner(sth, 1)], [])], held := s.held[t := s.held[t] + [l]])
  }

  lemma LockCreatedKeeps(s: State, l: LockId, resource: int, sth: SubThread)
    requires Inv(s) && l !in s.locks && Known(s, sth)
    requires forall m :: m in s.locks ==> s.locks[m].resource != resource
    ensures Inv(LockCreated(s, l, resource, sth))
  {
    hide LocksOK, QueuesOK, CountsOK, HeldOK, SchedOK, Queued;
    var s' := LockCreated(s, l, resource, sth);
    SameQueues(s, s');
    SchedToo(s, s');
    SameLocks(s, s', l, {}, {});
    NotHeld(s, l);
    HeldAppend(s, s', l, s.threadOf[sth]);
  }

  lemma NotHeld(s: State, l: LockId)
    requires HeldOK(s.locks, s.held) && l !in s.locks
    ensures forall u :: u in s.held ==> l !in s.held[u]
  {
  }

  lemma HeldAppend(s: State, s': State, l: LockId, t: Thread)
    requires HeldOK(s.locks, s.held) && t in s.held && s'.held == s.held[t := s.held[t] + [l]]
    requires l in s'.locks && s'.locks[l].owningThread == t && (forall u :: u in s.held ==> l !in s.held[u])
    requires forall m :: m != l ==> (m in s.locks <==> m in s'.locks)
    requires forall m :: m != l && m in s.locks ==> s'.locks[m].owningThread == s.locks[m].owningThread
    ensures HeldOK(s'.locks, s'.held)
  {
    forall u, m | u in s'.held && m in s'.held[u] ensures m in s'.locks && s'.locks[m].owningThread == u {
      if m != l { assert m in s.held[u]; }
    }
    forall m | m in s'.locks && s'.locks[m].owningThread in s'.held ensures m in s'.held[s'.locks[m].owningThread] {
      if m == l {
        assert (s.held[t] + [l])[|s.held[t]|] == l;
      } else {
        assert m in s.held[s.locks[m].owningThread];
      }
    }
  }

  /** Nobody waits for an abandoned lock: it goes away. */
  function LockFreed(s: State, l: LockId): State
    requires l in s.locks && s.locks[l].owningThread in s.held
  {
    var t := s.locks[l].owningThread;
    s.(locks := s.locks - {l}, held := s.held[t := Unlinked(s.held[t], l)])
  }

  lemma LockFreedKeeps(s: State, l: LockId)
    requires InvExcept(s, {l}) && l in s.locks && s.locks[l].requests == [] && s.locks[l].owningThread in s.held
    ensures Inv(LockFreed(s, l))
  {
    hide LocksOK, QueuesOK, CountsOK, HeldOK, SchedOK, Queued;
    var s' := LockFreed(s, l);
    SameQueues(s, s');
    SchedToo(s, s');
    FreedHeld(s, l);
    SameLocks(s, s', l, {l}, {});
  }

  lemma FreedHeld(s: State, l: LockId)
    requires HeldOK(s.locks, s.held) && l in s.locks && s.locks[l].owningThread in s.held
    ensures HeldOK(LockFreed(s, l).locks, LockFreed(s, l).held)
  {
    var s' := LockFreed(s, l);
    UnlinkedMembers(s.held[s.locks[l].owningThread], l);
    assert forall t :: t in s.held && l in s.held[t] ==> t == s.locks[l].owningThread;
    assert forall t, m :: t in s'.held && m in s'.held[t] ==> m in s.held[t] && m != l;
    forall m | m in s'.locks && s'.locks[m].owningThread in s'.held ensures m in s'.held[s'.locks[m].owningThread] {
      assert m in s.locks && m in s.held[s.locks[m].owningThread];
    }
  }

  /** The oldest request takes an abandoned lock over. */
  function HandedOver(s: State, l: LockId): State
    requires l in s.locks && s.locks[l].requests != [] && s.locks[l].owningThread in s.held
    requires Known(s, s.locks[l].requests[0].sth)
  {
    var t := s.locks[l].owningThread;
    var sth := s.locks[l].requests[0].sth;
    var u := s.threadOf[sth];
    var g := RequestGone(s, l, 0);
    var held := s.held[t := Unlinked(s.held[t], l)];
    g.(held := held[u := held[u] + [l]],
       locks := g.locks[l := g.locks[l].(owningThread := u, owners := [Owner(sth, 1)])])
  }

  lemma HandedOverKeeps(s: State, l: LockId)
    requires InvExcept(s, {l}) && l in s.locks && s.locks[l].requests != []
    ensures s.locks[l].owningThread in s.held && Known(s, s.locks[l].requests[0].sth)
    ensures Inv(HandedOver(s, l))
  {
    QueuedKnown(s, l, 0, {l});
    hide OwnersFit, LocksOK, HeldOK, CountsOK, QueuesOK, SchedOK, Queued, Recounted, Unlinked;
    RequestGoneKeeps(s, l, 0, {l});
    OtherResources(s, l, {l});
    GoneSame(s, l, 0);
    hide RequestGone;
    TakeOver(RequestGone(s, l, 0), HandedOver(s, l), l, s.locks[l].requests[0].sth);
  }

  /** Given up by one thread, a lock is owned by a sub-thread of another or of the same one. */
  lemma TakeOver(g: State, s': State, l: LockId, sth: SubThread)
    requires InvExcept(g, {l}) && l in g.locks && g.locks[l].owningThread in g.held && Known(g, sth)
    requires var t, u := g.locks[l].owningThread, g.threadOf[sth];
      var held := g.held[t := Unlinked(g.held[t], l)];
      s' == g.(held := held[u := held[u] + [l]],
               locks := g.locks[l := g.locks[l].(owningThread := u, owners := [Owner(sth, 1)])])
    ensures Inv(s')
  {
    hide OwnersFit, LocksOK, HeldOK, CountsOK, QueuesOK, SchedOK, Queued, Unlinked;
    assert s'.held.Keys == g.held.Keys;
    HandedLocks(g, s', l, sth);
    assert s'.locks - {l} == g.locks - {l};
    HandedHeld(g, s', l, g.threadOf[sth]);
    SameQueues(g, s');
    SchedToo(g, s');
  }

  lemma GoneSame(s: State, l: LockId, i: nat)
    requires l in s.locks && i < |s.locks[l].requests| && Known(s, s.locks[l].requests[i].sth)
    ensures var s' := RequestGone(s, l, i);
      && s'.threadOf == s.threadOf && s'.held == s.held && s'.locks == WithoutAt(s.locks, l, i) && s'.clock == s.clock
      && s'.counter == s.counter
  {
    RecountedCounts(s.(locks := WithoutAt(s.locks, l, i)), s.locks[l].requests[i].sth, -1);
  }

  lemma HandedLocks(g: State, s': State, l: LockId, sth: SubThread)
    requires LocksOK(g, {l}) && l in g.locks && sth in g.threadOf && g.threadOf[sth] in g.held && s'.threadOf == g.threadOf
    requires s'.locks == g.locks[l := g.locks[l].(owningThread := g.threadOf[sth], owners := [Owner(sth, 1)])]
    requires forall t :: t in g.held ==> t in s'.held
    ensures LocksOK(s', {})
  {
    OtherResources(g, l, {l});
    hide LocksOK;
    SameLocks(g, s', l, {l}, {});
  }

  lemma HandedHeld(g: State, s': State, l: LockId, u: Thread)
    requires HeldOK(g.locks, g.held) && l in g.locks && g.locks[l].owningThread in g.held && u in g.held
    requires var held := g.held[g.locks[l].owningThread := Unlinked(g.held[g.locks[l].owningThread], l)];
      s'.held == held[u := held[u] + [l]]
    requires l in s'.locks && s'.locks[l].owningThread == u && s'.locks - {l} == g.locks - {l}
    ensures HeldOK(s'.locks, s'.held)
  {
    var h := LockFreed(g, l);
    FreedHeld(g, l);
    hide HeldOK;
    forall m | m != l ensures m in h.locks <==> m in s'.locks {
      assert m in h.locks <==> m in s'.locks - {l};
    }
    forall m | m != l && m in h.locks ensures s'.locks[m].owningThread == h.locks[m].owningThread {
      assert (s'.locks - {l})[m] == h.locks[m];
    }
    FreshlyHeld(g, l);
    HeldAppend(h, s', l, u);
  }

  lemma FreshlyHeld(g: State, l: LockId)
    requires HeldOK(g.locks, g.held) && l in g.locks && g.locks[l].owningThread in g.held
    ensures forall u :: u in LockFreed(g, l).held ==> l !in LockFreed(g, l).held[u]
  {
    FreedHeld(g, l);
    NotHeld(LockFreed(g, l), l);
  }

  // ----- Steps: threads and sub-threads come into being

  /** CreateInstance of a sub-thread. */
  function SubThreadCreated(s: State, sth: SubThread, t: Thread): State {
    s.(threadOf := s.threadOf[sth := t], subCount := s.subCount[sth := 0])
  }

  lemma SubThreadCreatedKeeps(s: State, sth: SubThread, t: Thread)
    requires Inv(s) && sth !in s.threadOf && t in s.held
    ensures Inv(SubThreadCreated(s, sth, t))
  {
    hide LocksOK, HeldOK, Queued, QueuesOK, SchedOK;
    var s' := SubThreadCreated(s, sth, t);
    SchedToo(s, s');
    assert LocksOK(s', {}) by {
      SubThreadCreatedLocks(s, sth, t);
    }
    SameQueues(s, s');
    QueuedAreKnown(s);
    NewSubThreadCounts(Queued(s.locks), s, sth, t);
  }

  lemma SubThreadCreatedLocks(s: State, sth: SubThread, t: Thread)
    requires LocksOK(s, {}) && sth !in s.threadOf
    ensures LocksOK(SubThreadCreated(s, sth, t), {})
  {
  }

  lemma NewSubThreadCounts(q: set<Request>, s: State, sth: SubThread, t: Thread)
    requires CountsOK(q, s.threadOf, s.subCount, s.threadCount) && t in s.threadCount && sth !in s.threadOf
    requires forall r :: r in q ==> r.sth in s.threadOf
    ensures var s' := SubThreadCreated(s, sth, t); CountsOK(q, s'.threadOf, s'.subCount, s'.threadCount)
  {
    assert OfSub(q, sth) == {};
    forall u ensures OfThread(q, s.threadOf[sth := t], u) == OfThread(q, s.threadOf, u) {
    }
  }

  lemma QueuedAreKnown(s: State)
    requires QueuesOK(s.locks, s.threadOf, s.clock)
    ensures forall r :: r in Queued(s.locks) ==> r.sth in s.threadOf
  {
    InQueued(s.locks);
    forall l, r | l in s.locks && r in s.locks[l].requests ensures r.sth in s.threadOf {
      assert QueueOK(s.locks[l].requests, s.threadOf, s.clock);
    }
  }

  /** CreateInstance of a thread that NewThread starts: it queues up with no credit. */
  function ThreadCreated(s: State, t: Thread): State {
    s.(held := s.held[t := []], threadCount := s.threadCount[t := 0], counter := s.counter[t := 0],
       ready := Inserted(s.ready, s.counter[t := 0], t))
  }

  lemma ThreadCreatedKeeps(s: State, t: Thread)
    requires Inv(s) && t !in s.held
    ensures Inv(ThreadCreated(s, t))
  {
    hide LocksOK, HeldOK, Queued, QueuesOK, SchedOK, CountsOK;
    ThreadCreatedSched(s, t);
    ThreadCreatedLocks(s, t);
    ThreadCreatedCounts(Queued(s.locks), s, t);
  }

  lemma ThreadCreatedSched(s: State, t: Thread)
    requires SchedOK(s) && t !in s.held
    ensures SchedOK(ThreadCreated(s, t)) && t !in s.threadCount
  {
    InsertedMembers(s.ready, s.counter[t := 0], t);
    hide NoRepeats, Inserted;
  }

  lemma ThreadCreatedLocks(s: State, t: Thread)
    requires LocksOK(s, {}) && HeldOK(s.locks, s.held) && t !in s.held
    ensures LocksOK(ThreadCreated(s, t), {}) && HeldOK(ThreadCreated(s, t).locks, ThreadCreated(s, t).held)
  {
    hide Inserted, OwnersFit;
  }

  lemma ThreadCreatedCounts(q: set<Request>, s: State, t: Thread)
    requires CountsOK(q, s.threadOf, s.subCount, s.threadCount) && t !in s.threadCount
    ensures var s' := ThreadCreated(s, t); CountsOK(q, s'.threadOf, s'.subCount, s'.threadCount)
  {
    assert OfThread(q, s.threadOf, t) == {};
  }
}
