/** Which threads a pass of CheckThreads reaches, and when it reaches all of them. */
module PassReaches {
  import opened LockStates
  import opened LockFacts
  import opened TimeoutPasses

  // ----- The pass

  lemma HeldAt(s: State, t: Thread)
    requires Inv(s) && t in s.held
    ensures At(s, s.held[t], 0) && NoRepeats(s.held[t])
    ensures forall m :: m in s.locks ==> (m in s.held[t] <==> s.locks[m].owningThread == t)
  {
    hide QueuesOK, CountsOK, SchedOK;
  }

  /** All locks of one thread are gone through. */
  ghost function Visited(s: State, t: Thread, now: int): State
    requires Inv(s) && t in s.held
  {
    HeldAt(s, t);
    Purged(s, s.held[t], 0, now)
  }

  function Expired(lock: Lock, now: int): Lock {
    lock.(requests := Unexpired(lock.requests, now))
  }

  /** The queues of the locks of some threads were purged, and nothing else happened to locks. */
  ghost predicate PurgedBy(s: State, s': State, holders: set<Thread>, now: int) {
    && s'.locks.Keys == s.locks.Keys && s'.threadOf == s.threadOf && s'.held == s.held && s'.counter == s.counter
    && (forall m :: m in s.locks ==>
          s'.locks[m] == if s.locks[m].owningThread in holders then Expired(s.locks[m], now) else s.locks[m])
  }

  lemma VisitedIs(s: State, t: Thread, now: int)
    requires Inv(s) && t in s.held
    ensures Inv(Visited(s, t, now)) && PurgedBy(s, Visited(s, t, now), {t}, now)
  {
    HeldAt(s, t);
    hide Inv, Purged, At;
    PurgedLocks(s, s.held[t], 0, now);
    AllExpired(s, Purged(s, s.held[t], 0, now), s.held[t], t, now);
  }

  lemma AllExpired(s: State, s': State, list: seq<LockId>, t: Thread, now: int)
    requires s'.locks.Keys == s.locks.Keys && s'.threadOf == s.threadOf && s'.held == s.held && s'.counter == s.counter
    requires forall m :: m in s.locks ==> (m in list <==> s.locks[m].owningThread == t)
    requires forall m :: m in s.locks && m !in list ==> s'.locks[m] == s.locks[m]
    requires forall m :: m in s.locks && m in list ==> s'.locks[m] == PurgedFrom(s.locks[m], 0, now)
    ensures PurgedBy(s, s', {t}, now)
  {
    hide PurgedFrom;
    forall m ensures m in s.locks ==> PurgedFrom(s.locks[m], 0, now) == Expired(s.locks[m], now) {
      if m in s.locks {
        PurgedEnd(s.locks[m], now);
      }
    }
    hide Expired;
  }

  lemma PurgedMore(s: State, s1: State, s2: State, h1: set<Thread>, h2: set<Thread>, now: int)
    requires PurgedBy(s, s1, h1, now) && PurgedBy(s1, s2, h2, now)
    ensures PurgedBy(s, s2, h1 + h2, now)
  {
    forall m | m in s.locks ensures Expired(Expired(s.locks[m], now), now) == Expired(s.locks[m], now) {
      UnexpiredTwice(s.locks[m].requests, now);
    }
    assert forall m :: m in s.locks <==> m in s1.locks.Keys;
  }

  /** Where the list goes on after `t`, on whichever list it is. */
  function NextThread(s: State, t: Thread): Option<Thread> {
    if t in s.ready then Follower(s.ready, t) else Follower(s.asleep, t)
  }

  function StepsLeft(s: State, cur: Option<Thread>): nat {
    if cur.None? then 0 else 1 + Behind(if cur.value in s.ready then s.ready else s.asleep, cur.value)
  }

  lemma {:induction false} PurgedFewer(s: State, list: seq<LockId>, i: nat, now: int)
    requires Inv(s) && At(s, list, i)
    ensures var s' := Purged(s, list, i, now); s' == s || |Queued(s'.locks)| < |Queued(s.locks)|
    decreases |list|, if list == [] then 0 else |s.locks[list[0]].requests| - i
  {
    hide Inv, RequestGone, Queued;
    if list != [] {
      if i == |s.locks[list[0]].requests| {
        PurgedFewer(s, list[1..], 0, now);
      } else if s.locks[list[0]].requests[i].timeExpire > now {
        PurgedFewer(s, list, i + 1, now);
      } else {
        GoneAt(s, list, i);
        OneFewer(s, list[0], i);
        PurgedFewer(RequestGone(s, list[0], i), list, i, now);
      }
    }
  }

  lemma OneFewer(s: State, l: LockId, i: nat)
    requires Inv(s) && l in s.locks && i < |s.locks[l].requests|
    ensures |Queued(WithoutAt(s.locks, l, i))| == |Queued(s.locks)| - 1
  {
    hide Queued, LocksOK, HeldOK, QueuesOK, CountsOK, SchedOK;
    QueuedWithout(s.locks, s.threadOf, s.clock, l, i);
  }

  /** A visit leaves a next thread, and less to do. */
  lemma VisitStep(s: State, t: Thread, now: int)
    requires Inv(s) && t in s.held
    ensures var s1, next := Visited(s, t, now), NextThread(s, t);
      && Inv(s1) && (next.Some? ==> next.value in s1.held && next.value != t)
      && (s1 == s || |Queued(s1.locks)| < |Queued(s.locks)|) && StepsLeft(s, next) < StepsLeft(s, Some(t))
  {
    HeldAt(s, t);
    PurgedFewer(s, s.held[t], 0, now);
    ThreadsOf(s);
    hide Inv, Purged, Queued;
    assert t in s.held.Keys;
    if NextThread(s, t).Some? {
      var list := if t in s.ready then s.ready else s.asleep;
      FollowerIsBehind(list, t);
      assert NextThread(s, t).value in s.held.Keys;
    }
  }

  /** The walk from thread `cur` on: the thread after it is looked up before its locks are gone through,
    * and is the next one even if it has been moved to the other list meanwhile. */
  ghost function Pass(s: State, cur: Option<Thread>, now: int): (r: (State, set<Thread>))
    requires Inv(s) && (cur.Some? ==> cur.value in s.held)
    ensures Inv(r.0)
    decreases |Queued(s.locks)|, StepsLeft(s, cur)
  {
    if cur.None? then (s, {})
    else
      VisitStep(s, cur.value, now);
      var r := Pass(Visited(s, cur.value, now), NextThread(s, cur.value), now);
      (r.0, r.1 + {cur.value})
  }

  /** A pass purges exactly the queues of the locks held by the threads it visits. */
  lemma {:induction false} PassPurges(s: State, cur: Option<Thread>, now: int)
    requires Inv(s) && (cur.Some? ==> cur.value in s.held)
    ensures var r := Pass(s, cur, now); PurgedBy(s, r.0, r.1, now)
    decreases |Queued(s.locks)|, StepsLeft(s, cur)
  {
    hide Inv, Queued, StepsLeft, NextThread, PurgedBy, Visited;
    if cur.None? {
      PurgedByNone(s, now);
    } else {
      VisitStep(s, cur.value, now);
      VisitedIs(s, cur.value, now);
      var s1, next := Visited(s, cur.value, now), NextThread(s, cur.value);
      PassPurges(s1, next, now);
      var r := Pass(s1, next, now);
      PurgedMore(s, s1, r.0, {cur.value}, r.1, now);
      assert {cur.value} + r.1 == r.1 + {cur.value};
    }
  }

  lemma PurgedByNone(s: State, now: int)
    ensures PurgedBy(s, s, {}, now)
  {
  }

  // ----- When the pass reaches everybody

  /** The thread queues somewhere, and all its requests are over and queue for locks of `holders`. */
  ghost predicate RunsDry(s: State, t: Thread, holders: set<Thread>, now: int) {
    && QueuesSomewhere(s, t)
    && (forall l, i: nat :: RequestOf(s, t, l, i) ==>
          s.locks[l].requests[i].timeExpire <= now && s.locks[l].owningThread in holders)
  }

  function SetOf(s: seq<nat>): set<nat> {
    set x | x in s
  }

  /** No sleeper's requests all run out in queues of the sleepers before it, except that the last sleeper
    * may be freed by the one right before it. */
  ghost predicate Orderly(s: State, now: int) {
    var w := s.asleep;
    forall j :: 0 < j < |w| ==> !RunsDry(s, w[j], SetOf(w[..if j == |w| - 1 then j - 1 else j]), now)
  }

  ghost predicate Covers(s: State, now: int)
    requires Inv(s)
  {
    s.asleep != [] ==>
      s.asleep[0] in s.held && forall t :: t in s.asleep ==> t in Pass(s, Some(s.asleep[0]), now).1
  }

  /** After purging, a thread queues somewhere exactly if it did before and has not run dry. */
  lemma StillQueues(s0: State, s: State, holders: set<Thread>, now: int, t: Thread)
    requires PurgedBy(s0, s, holders, now)
    ensures QueuesSomewhere(s, t) <==> QueuesSomewhere(s0, t) && !RunsDry(s0, t, holders, now)
  {
    if QueuesSomewhere(s, t) {
      var l, i: nat :| RequestOf(s, t, l, i);
      WasQueued(s0, s, holders, now, l, i, t);
    }
    if QueuesSomewhere(s0, t) && !RunsDry(s0, t, holders, now) {
      var l, i: nat :| RequestOf(s0, t, l, i)
        && !(s0.locks[l].requests[i].timeExpire <= now && s0.locks[l].owningThread in holders);
      IsQueued(s0, s, holders, now, l, i, t);
    }
  }

  lemma WasQueued(s0: State, s: State, holders: set<Thread>, now: int, l: LockId, i: nat, t: Thread)
    requires PurgedBy(s0, s, holders, now) && RequestOf(s, t, l, i)
    ensures QueuesSomewhere(s0, t) && !RunsDry(s0, t, holders, now)
  {
    assert l in s0.locks.Keys;
    UnexpiredMembers(s0.locks[l].requests, now);
    assert s.locks[l].requests[i] in s0.locks[l].requests;
    var j: nat :| j < |s0.locks[l].requests| && s0.locks[l].requests[j] == s.locks[l].requests[i];
    assert RequestOf(s0, t, l, j);
  }

  lemma IsQueued(s0: State, s: State, holders: set<Thread>, now: int, l: LockId, i: nat, t: Thread)
    requires PurgedBy(s0, s, holders, now) && RequestOf(s0, t, l, i)
    requires !(s0.locks[l].requests[i].timeExpire <= now && s0.locks[l].owningThread in holders)
    ensures QueuesSomewhere(s, t)
  {
    assert l in s.locks.Keys;
    UnexpiredMembers(s0.locks[l].requests, now);
    assert s0.locks[l].requests[i] in s.locks[l].requests;
    var j: nat :| j < |s.locks[l].requests| && s.locks[l].requests[j] == s0.locks[l].requests[i];
    assert RequestOf(s, t, l, j);
  }

  lemma CountsQueue(s: State, t: Thread)
    requires Inv(s) && t in s.held
    ensures t in s.threadCount && s.threadCount[t] >= 0 && (s.threadCount[t] > 0 <==> QueuesSomewhere(s, t))
  {
    hide Inv, QueuesSomewhere;
    InvIs(s);
    CountedSomewhere(s, {}, t);
    ThreadsOf(s);
  }

  /** A visit resumes exactly the threads that it makes run dry. */
  lemma ResumedIfDry(s0: State, s: State, s1: State, h: set<Thread>, h1: set<Thread>, now: int, t: Thread)
    requires Inv(s) && Inv(s1) && PurgedBy(s0, s, h, now) && PurgedBy(s0, s1, h1, now) && h <= h1 && t in s0.held
    ensures Resumed(s, s1, t) <==> RunsDry(s0, t, h1, now) && !RunsDry(s0, t, h, now)
  {
    hide Inv;
    CountsQueue(s, t);
    CountsQueue(s1, t);
    StillQueues(s0, s, h, now, t);
    StillQueues(s0, s1, h1, now, t);
  }

  /** Visiting thread `k` of the sleepers frees a thread behind it, other than the last one next. */
  ghost predicate Frees(s: State, now: int, k: nat, j: nat) {
    var w := s.asleep;
    k < j < |w| && RunsDry(s, w[j], SetOf(w[..k + 1]), now) && !(j == k + 1 && j == |w| - 1)
  }

  lemma NotDrySooner(s: State, t: Thread, h: set<Thread>, h1: set<Thread>, now: int)
    requires !RunsDry(s, t, h1, now) && h <= h1
    ensures !RunsDry(s, t, h, now)
  {
  }

  lemma NeverDry(s: State, t: Thread, now: int)
    ensures !RunsDry(s, t, {}, now)
  {
    if QueuesSomewhere(s, t) {
      var l, i: nat :| RequestOf(s, t, l, i);
    }
  }

  lemma OrderlyFreesNobody(s: State, now: int, k: nat, j: nat)
    requires Orderly(s, now)
    ensures !Frees(s, now, k, j)
  {
    var w := s.asleep;
    if k < j < |w| && !(j == k + 1 && j == |w| - 1) {
      NotDrySooner(s, w[j], SetOf(w[..k + 1]), SetOf(w[..if j == |w| - 1 then j - 1 else j]), now);
    }
  }

  lemma DisorderlyFrees(s: State, now: int) returns (k: nat, j: nat)
    requires !Orderly(s, now)
    ensures Frees(s, now, k, j)
  {
    var w := s.asleep;
    j :| 0 < j < |w| && RunsDry(s, w[j], SetOf(w[..if j == |w| - 1 then j - 1 else j]), now);
    if j == |w| - 1 {
      assert j != 1 by {
        NeverDry(s, w[j], now);
        assert SetOf(w[..0]) == {};
      }
      k := j - 2;
    } else {
      k := j - 1;
    }
  }

  /** The first visit that frees a thread behind it. */
  lemma FirstFrees(s: State, now: int, k0: nat, j0: nat) returns (k: nat, j: nat)
    requires Frees(s, now, k0, j0)
    ensures Frees(s, now, k, j) && forall m: nat, n: nat :: m < k ==> !Frees(s, now, m, n)
    decreases k0
  {
    if m: nat, n: nat :| m < k0 && Frees(s, now, m, n) {
      k, j := FirstFrees(s, now, m, n);
    } else {
      k, j := k0, j0;
    }
  }

  /** Up to the `k`-th sleeper the pass went down the list, and purged the queues of those before it. */
  ghost predicate Reached(s0: State, s: State, k: nat, now: int) {
    && k <= |s0.asleep| && Inv(s) && EndsWith(s.asleep, s0.asleep[k..]) && PurgedBy(s0, s, SetOf(s0.asleep[..k]), now)
  }

  lemma NextPrefix(w: seq<Thread>, k: nat)
    requires k < |w|
    ensures SetOf(w[..k + 1]) == SetOf(w[..k]) + {w[k]} && w[k..] == [w[k]] + w[k + 1..] && w[k] in w[k..]
  {
    assert w[..k + 1] == w[..k] + [w[k]];
  }

  lemma SleeperHeld(s: State, t: Thread)
    requires Inv(s) && t in s.asleep
    ensures t in s.held
  {
    ThreadsOf(s);
    assert t in s.held.Keys;
  }

  lemma TailMembers(list: seq<Thread>, tail: seq<Thread>)
    requires EndsWith(list, tail)
    ensures forall t :: t in tail ==> t in list
  {
    assert list == list[..|list| - |tail|] + tail;
  }

  /** Visiting the `k`-th sleeper: the next one is next, and if nobody behind runs dry the pass goes on
    * down the list. */
  lemma ReachNext(s0: State, s: State, k: nat, now: int)
    requires Inv(s0) && Reached(s0, s, k, now) && k < |s0.asleep|
    ensures var w := s0.asleep;
      && Inv(s) && w[k] in s.held
      && NextThread(s, w[k]) == (if k + 1 < |w| then Some(w[k + 1]) else None)
      && PurgedBy(s0, Visited(s, w[k], now), SetOf(w[..k + 1]), now) && Inv(Visited(s, w[k], now))
      && ((forall j :: k < j < |w| ==> !RunsDry(s0, w[j], SetOf(w[..k + 1]), now)) ==>
            Reached(s0, Visited(s, w[k], now), k + 1, now))
  {
    hide Inv, RunsDry, EndsWith, Visited;
    var w := s0.asleep;
    NextPrefix(w, k);
    TailMembers(s.asleep, w[k..]);
    SleeperHeld(s, w[k]);
    ThreadsOf(s);
    FollowerInTail(s.asleep, w[k..]);
    VisitedIs(s, w[k], now);
    var s1 := Visited(s, w[k], now);
    PurgedMore(s0, s, s1, SetOf(w[..k]), {w[k]}, now);
    if forall j :: k < j < |w| ==> !RunsDry(s0, w[j], SetOf(w[..k + 1]), now) {
      TailReached(s0, s, k, now);
    }
  }

  lemma TailReached(s0: State, s: State, k: nat, now: int)
    requires Inv(s0) && Reached(s0, s, k, now) && k < |s0.asleep| && s0.asleep[k] in s.held
    requires Inv(Visited(s, s0.asleep[k], now))
    requires PurgedBy(s0, Visited(s, s0.asleep[k], now), SetOf(s0.asleep[..k + 1]), now)
    requires forall j :: k < j < |s0.asleep| ==> !RunsDry(s0, s0.asleep[j], SetOf(s0.asleep[..k + 1]), now)
    ensures EndsWith(Visited(s, s0.asleep[k], now).asleep, s0.asleep[k + 1..])
  {
    hide Inv, RunsDry;
    var w := s0.asleep;
    var s1 := Visited(s, w[k], now);
    NextPrefix(w, k);
    forall t | t in w[k + 1..] ensures !Resumed(s, s1, t) {
      var j :| 0 <= j < |w[k + 1..]| && w[k + 1..][j] == t;
      assert w[k + 1 + j] == t;
      SleeperHeld(s0, t);
      ResumedIfDry(s0, s, s1, SetOf(w[..k]), SetOf(w[..k + 1]), now, t);
    }
    HeldAt(s, w[k]);
    assert EndsWith(s.asleep, w[k + 1..]) by {
      assert s.asleep[|s.asleep| - |w[k..]|..][1..] == w[k..][1..];
    }
    PurgedTail(s, s.held[w[k]], 0, now, w[k + 1..]);
  }

  /** In an orderly list the pass visits every sleeper. */
  lemma {:induction false} ReachesAll(s0: State, s: State, k: nat, now: int)
    requires Inv(s0) && Orderly(s0, now) && Reached(s0, s, k, now) && k < |s0.asleep|
    ensures Inv(s) && s0.asleep[k] in s.held
    ensures forall j :: k <= j < |s0.asleep| ==> s0.asleep[j] in Pass(s, Some(s0.asleep[k]), now).1
    decreases |s0.asleep| - k
  {
    hide Inv, Orderly, RunsDry, Reached, Visited;
    var w := s0.asleep;
    ReachNext(s0, s, k, now);
    if k + 1 < |w| {
      VisitStep(s, w[k], now);
      var s1 := Visited(s, w[k], now);
      if k + 1 == |w| - 1 {
        assert w[k + 1] in Pass(s1, Some(w[k + 1]), now).1;
      } else {
        forall j | k < j < |w| ensures !RunsDry(s0, w[j], SetOf(w[..k + 1]), now) {
          OrderlyFreesNobody(s0, now, k, j);
        }
        ReachesAll(s0, s1, k + 1, now);
      }
    }
  }

  // ----- When it misses somebody

  /** A thread the walk has passed is not visited any more. */
  lemma {:induction false} PassedIsMissed(s: State, x: Thread, v: Thread, now: int)
    requires Inv(s) && x in s.held && v in s.held && Passed(s, v, x) && Unlucky(s, v)
    ensures v !in Pass(s, Some(x), now).1
    decreases |Queued(s.locks)|, StepsLeft(s, Some(x))
  {
    hide Inv, Queued, StepsLeft, Unlucky, Before, Follower;
    VisitStep(s, x, now);
    var next := NextThread(s, x);
    var s1 := Visited(s, x, now);
    if next.Some? {
      assert Passed(s, v, next.value) by {
        NextPassed(s, x, v);
      }
      HeldAt(s, x);
      PurgedPassed(s, s.held[x], 0, now, v, next.value);
      hide Passed, Visited, NextThread;
      VisitedIs(s, x, now);
      PassedIsMissed(s1, next.value, v, now);
    }
  }

  lemma NextPassed(s: State, x: Thread, v: Thread)
    requires Inv(s) && x in s.held && v in s.held && Passed(s, v, x) && NextThread(s, x).Some?
    ensures Passed(s, v, NextThread(s, x).value)
  {
    hide Inv;
    ThreadsOf(s);
    assert x in s.held.Keys && v in s.held.Keys;
    var list := if x in s.ready then s.ready else s.asleep;
    FollowerIsBehind(list, x);
    if v in list {
      BeforeFollower(list, v, x);
    } else {
      assert NextThread(s, x).value in list;
    }
  }

  /** The thread a pass will miss: one that visit `k` frees and that is not the next, or the one behind
    * the next. */
  function Victim(w: seq<Thread>, k: nat, j: nat): Thread
    requires k < j < |w| && !(j == k + 1 && j == |w| - 1)
  {
    if j > k + 1 then w[j] else w[k + 2]
  }

  /** With the victim in front of the ready list the visit leaves it behind. */
  lemma {:induction false} VictimMissed(s0: State, s: State, k: nat, j: nat, v: Thread, now: int)
    requires Inv(s0) && Reached(s0, s, k, now) && Frees(s0, now, k, j) && s0.counter == map[v := 1]
    requires v == Victim(s0.asleep, k, j)
    requires forall m: nat, n: nat :: m < k ==> !Frees(s0, now, m, n)
    requires j == k + 1 ==> forall n: nat :: n > k + 1 ==> !Frees(s0, now, k, n)
    ensures Inv(s) && s0.asleep[k] in s.held && v !in Pass(s, Some(s0.asleep[k]), now).1
  {
    hide Inv, RunsDry, EndsWith, Visited, QueuesSomewhere;
    var w := s0.asleep;
    ReachNext(s0, s, k, now);
    VisitStep(s, w[k], now);
    var s1 := Visited(s, w[k], now);
    SleeperHeld(s0, v);
    SleeperHeld(s0, w[k + 1]);
    SleeperDistinct(s0, k, if j > k + 1 then j else k + 2);
    assert Passed(s1, v, w[k + 1]) && Unlucky(s1, v) by {
      NotDryBefore(s0, k, j, now);
      if j > k + 1 {
        VictimInFront(s0, s, k, j, now);
      } else {
        VictimBehind(s0, s, k, now);
      }
    }
    hide Frees;
    PassedIsMissed(s1, w[k + 1], v, now);
  }

  lemma SleeperDistinct(s: State, k: nat, j: nat)
    requires Inv(s) && k + 1 < j < |s.asleep|
    ensures s.asleep[j] != s.asleep[k] && s.asleep[j] != s.asleep[k + 1]
    ensures s.asleep[j] in s.asleep && s.asleep[k + 1] in s.asleep
  {
    ThreadsOf(s);
  }

  lemma VictimInFront(s0: State, s: State, k: nat, j: nat, now: int)
    requires Inv(s0) && Reached(s0, s, k, now) && Frees(s0, now, k, j) && j > k + 1 && s0.asleep[k] in s.held
    requires s0.counter == map[s0.asleep[j] := 1]
    requires !RunsDry(s0, s0.asleep[j], SetOf(s0.asleep[..k]), now)
    ensures var s1, v := Visited(s, s0.asleep[k], now), s0.asleep[j];
      Passed(s1, v, s0.asleep[k + 1]) && Unlucky(s1, v)
  {
    hide Inv, RunsDry, EndsWith, Passed;
    var w := s0.asleep;
    var v := w[j];
    NextPrefix(w, k);
    SleeperDistinct(s0, k, j);
    SleeperHeld(s0, v);
    VisitedIs(s, w[k], now);
    assert PurgedBy(s0, Visited(s, w[k], now), SetOf(w[..k + 1]), now) by {
      PurgedMore(s0, s, Visited(s, w[k], now), SetOf(w[..k]), {w[k]}, now);
    }
    ResumedIfDry(s0, s, Visited(s, w[k], now), SetOf(w[..k]), SetOf(w[..k + 1]), now, v);
    HeldAt(s, w[k]);
    PurgedPassed(s, s.held[w[k]], 0, now, v, w[k + 1]);
  }

  lemma NotDryBefore(s: State, k: nat, j: nat, now: int)
    requires k < j < |s.asleep| && forall m: nat, n: nat :: m < k ==> !Frees(s, now, m, n)
    requires !(j == k + 1 && j == |s.asleep| - 1)
    ensures !RunsDry(s, s.asleep[j], SetOf(s.asleep[..k]), now)
  {
    if k == 0 {
      assert SetOf(s.asleep[..0]) == {};
      NeverDry(s, s.asleep[j], now);
    } else {
      assert !Frees(s, now, k - 1, j);
    }
  }

  lemma VictimBehind(s0: State, s: State, k: nat, now: int)
    requires Inv(s0) && Reached(s0, s, k, now) && Frees(s0, now, k, k + 1) && s0.asleep[k] in s.held
    requires s0.counter == map[s0.asleep[k + 2] := 1]
    requires forall n: nat :: n > k + 1 ==> !Frees(s0, now, k, n)
    requires !RunsDry(s0, s0.asleep[k + 1], SetOf(s0.asleep[..k]), now)
    ensures var s1, v := Visited(s, s0.asleep[k], now), s0.asleep[k + 2];
      Passed(s1, v, s0.asleep[k + 1]) && Unlucky(s1, v)
  {
    hide Inv, RunsDry, EndsWith;
    var w := s0.asleep;
    var s1 := Visited(s, w[k], now);
    NextPrefix(w, k);
    NextPrefix(w, k + 1);
    VisitedIs(s, w[k], now);
    assert PurgedBy(s0, s1, SetOf(w[..k + 1]), now) by {
      PurgedMore(s0, s, s1, SetOf(w[..k]), {w[k]}, now);
    }
    forall t | t in w[k + 2..] ensures !Resumed(s, s1, t) {
      var n :| 0 <= n < |w[k + 2..]| && w[k + 2..][n] == t;
      assert w[k + 2 + n] == t && !Frees(s0, now, k, k + 2 + n);
      SleeperHeld(s0, t);
      ResumedIfDry(s0, s, s1, SetOf(w[..k]), SetOf(w[..k + 1]), now, t);
    }
    SleeperHeld(s0, w[k + 1]);
    ResumedIfDry(s0, s, s1, SetOf(w[..k]), SetOf(w[..k + 1]), now, w[k + 1]);
    HeldAt(s, w[k]);
    EndsSooner(s.asleep, w, k);
    PurgedTail(s, s.held[w[k]], 0, now, w[k + 2..]);
    PurgedThreads(s, s.held[w[k]], 0, now);
    TailMembers(s1.asleep, w[k + 2..]);
    assert w[k + 2] == w[k + 2..][0];
    ThreadsOf(s1);
    SleeperDistinct(s0, k, k + 2);
    hide Visited, Before, NoRepeats;
  }

  lemma EndsSooner(list: seq<Thread>, w: seq<Thread>, k: nat)
    requires k + 2 < |w| && EndsWith(list, w[k..])
    ensures EndsWith(list, w[k + 2..])
  {
    assert list[|list| - |w[k..]|..][2..] == w[k..][2..];
  }

  /** Down to the visit that frees somebody the pass goes on as planned, and then misses the victim. */
  lemma {:induction false} MissedFrom(s0: State, s: State, i: nat, k: nat, j: nat, v: Thread, now: int)
    requires Inv(s0) && i <= k && Reached(s0, s, i, now) && Frees(s0, now, k, j) && s0.counter == map[v := 1]
    requires v == Victim(s0.asleep, k, j)
    requires forall m: nat, n: nat :: m < k ==> !Frees(s0, now, m, n)
    requires j == k + 1 ==> forall n: nat :: n > k + 1 ==> !Frees(s0, now, k, n)
    ensures Inv(s) && s0.asleep[i] in s.held && v !in Pass(s, Some(s0.asleep[i]), now).1
    decreases k - i
  {
    if i == k {
      VictimMissed(s0, s, k, j, v, now);
    } else {
      hide Inv, RunsDry, Reached, Visited;
      var w := s0.asleep;
      ReachNext(s0, s, i, now);
      VisitStep(s, w[i], now);
      FreesNobody(s0, i, k, j, now);
      hide Frees, Inv, Victim;
      MissedFrom(s0, Visited(s, w[i], now), i + 1, k, j, v, now);
      VictimElsewhere(s0, i, k, j);
    }
  }

  lemma FreesNobody(s: State, i: nat, k: nat, j: nat, now: int)
    requires i < k < j < |s.asleep| && forall m: nat, n: nat :: m < k ==> !Frees(s, now, m, n)
    ensures forall n :: i < n < |s.asleep| ==> !RunsDry(s, s.asleep[n], SetOf(s.asleep[..i + 1]), now)
  {
    forall n | i < n < |s.asleep| ensures !RunsDry(s, s.asleep[n], SetOf(s.asleep[..i + 1]), now) {
      assert !Frees(s, now, i, n);
    }
  }

  lemma VictimElsewhere(s: State, i: nat, k: nat, j: nat)
    requires Inv(s) && i < k < j < |s.asleep| && !(j == k + 1 && j == |s.asleep| - 1)
    ensures Victim(s.asleep, k, j) != s.asleep[i]
  {
    ThreadsOf(s);
  }

  /** Some thread is missed for some order of the ready list unless the list is orderly. */
  lemma DisorderMisses(s: State, now: int) returns (v: Thread)
    requires Inv(s) && !Orderly(s, now)
    ensures v in s.asleep && Inv(s.(counter := map[v := 1])) && !Covers(s.(counter := map[v := 1]), now)
  {
    hide InvExcept, RunsDry, QueuesSomewhere;
    var k0, j0 := DisorderlyFrees(s, now);
    var k, j := FirstFrees(s, now, k0, j0);
    if j == k + 1 && exists n: nat :: n > k + 1 && Frees(s, now, k, n) {
      j :| j > k + 1 && Frees(s, now, k, j);
    }
    v := Victim(s.asleep, k, j);
    var s0 := s.(counter := map[v := 1]);
    OtherCredit(s, map[v := 1]);
    OtherCreditFrees(s, map[v := 1], now);
    hide Inv;
    StartReached(s0, now);
    hide Frees, Reached;
    MissedFrom(s0, s0, 0, k, j, v, now);
  }

  lemma OtherCredit(s: State, counter: map<Thread, int>)
    requires Inv(s)
    ensures Inv(s.(counter := counter))
  {
    hide QueuesOK, CountsOK, HeldOK, Queued;
    SchedToo(s, s.(counter := counter));
    LocksToo(s, s.(counter := counter), {});
  }

  lemma OtherCreditFrees(s: State, counter: map<Thread, int>, now: int)
    ensures forall t, h :: RunsDry(s.(counter := counter), t, h, now) <==> RunsDry(s, t, h, now)
    ensures forall k, j :: Frees(s.(counter := counter), now, k, j) <==> Frees(s, now, k, j)
  {
    forall t, h ensures RunsDry(s.(counter := counter), t, h, now) <==> RunsDry(s, t, h, now) {
      var s' := s.(counter := counter);
      assert forall l, i: nat :: RequestOf(s', t, l, i) <==> RequestOf(s, t, l, i);
      assert QueuesSomewhere(s', t) <==> QueuesSomewhere(s, t);
    }
    hide RunsDry;
  }

  lemma StartReached(s: State, now: int)
    requires Inv(s)
    ensures Reached(s, s, 0, now)
  {
    hide Inv;
    assert SetOf(s.asleep[..0]) == {};
    assert s.asleep[0..] == s.asleep;
    PurgedByNone(s, now);
  }

  /** A pass over the sleepers visits all of them, whatever credit the threads have, if and only if their
    * list is orderly. */
  lemma CoversIfOrderly(s: State, now: int)
    requires Inv(s)
    ensures forall c: map<Thread, int> :: Inv(s.(counter := c))
    ensures Orderly(s, now) <==> forall c: map<Thread, int> :: Covers(s.(counter := c), now)
  {
    forall c: map<Thread, int> ensures Inv(s.(counter := c)) {
      OtherCredit(s, c);
    }
    hide Inv, Covers, Orderly;
    if Orderly(s, now) {
      forall c: map<Thread, int> ensures Covers(s.(counter := c), now) {
        OtherCreditOrderly(s, c, now);
        OrderlyCovers(s.(counter := c), now);
      }
    } else {
      var v := DisorderMisses(s, now);
    }
  }

  lemma OtherCreditOrderly(s: State, counter: map<Thread, int>, now: int)
    ensures Orderly(s.(counter := counter), now) <==> Orderly(s, now)
  {
    OtherCreditFrees(s, counter, now);
  }

  lemma OrderlyCovers(s: State, now: int)
    requires Inv(s) && Orderly(s, now)
    ensures Covers(s, now)
  {
    hide Inv, Orderly, Reached;
    if s.asleep != [] {
      StartReached(s, now);
      ReachesAll(s, s, 0, now);
    }
  }

  /** After a pass over an orderly list no request whose time is up is left in a sleeper's lock. */
  lemma OrderlyPassPurges(s: State, now: int)
    requires Inv(s) && Orderly(s, now) && s.asleep != []
    ensures s.asleep[0] in s.held
    ensures var s' := Pass(s, Some(s.asleep[0]), now).0;
      && s'.locks.Keys == s.locks.Keys
      && (forall l :: l in s.locks && s.locks[l].owningThread in s.asleep ==> s'.locks[l] == Expired(s.locks[l], now))
      && (forall l, r :: l in s.locks && s.locks[l].owningThread in s.asleep && r in s'.locks[l].requests ==> r.timeExpire > now)
  {
    OrderlyCovers(s, now);
    hide Inv, Orderly;
    PassPurges(s, Some(s.asleep[0]), now);
    forall l | l in s.locks {
      UnexpiredMembers(s.locks[l].requests, now);
    }
  }

  /** What goes wrong otherwise: if the first sleeper's visit frees the second one, the walk goes on down
    * the ready list, and a third one that waits for something else is missed with all its locks. */
  lemma ThirdIsMissed(s: State, now: int)
    requires Inv(s) && Frees(s, now, 0, 1) && s.asleep[2] in s.threadCount && s.threadCount[s.asleep[2]] == 0
    ensures s.asleep[0] in s.held
    ensures var r := Pass(s, Some(s.asleep[0]), now);
      && s.asleep[2] !in r.1 && r.0.locks.Keys == s.locks.Keys
      && (forall l :: l in s.locks && s.locks[l].owningThread == s.asleep[2] ==> r.0.locks[l] == s.locks[l])
  {
    var w := s.asleep;
    SleeperDistinct(s, 0, 2);
    SleeperHeld(s, w[0]);
    SleeperHeld(s, w[1]);
    SleeperHeld(s, w[2]);
    hide Inv, RunsDry, QueuesSomewhere;
    StartReached(s, now);
    ReachNext(s, s, 0, now);
    SecondFreed(s, now);
    VisitStep(s, w[0], now);
    hide Visited, Frees, Reached;
    PassedIsMissed(Visited(s, w[0], now), w[1], w[2], now);
    PassPurges(s, Some(w[0]), now);
  }

  lemma SecondFreed(s: State, now: int)
    requires Inv(s) && Frees(s, now, 0, 1) && s.asleep[2] in s.threadCount && s.threadCount[s.asleep[2]] == 0
    requires s.asleep[0] in s.held && s.asleep[1] in s.held
    ensures var s1 := Visited(s, s.asleep[0], now); Passed(s1, s.asleep[2], s.asleep[1]) && Unlucky(s1, s.asleep[2])
  {
    hide Inv, RunsDry, QueuesSomewhere;
    var w := s.asleep;
    var s1 := Visited(s, w[0], now);
    VisitedIs(s, w[0], now);
    PurgedByNone(s, now);
    assert w[..1] == [w[0]] && SetOf(w[..1]) == {w[0]};
    NeverDry(s, w[1], now);
    ResumedIfDry(s, s, s1, {}, {w[0]}, now, w[1]);
    HeldAt(s, w[0]);
    PurgedThreads(s, s.held[w[0]], 0, now);
    ThreadsOf(s1);
    OneStays(s, now);
    SleeperDistinct(s, 0, 2);
    hide Visited, Before;
  }

  /** A sleeper without requests sleeps on. */
  lemma OneStays(s: State, now: int)
    requires Inv(s) && |s.asleep| > 2 && s.asleep[0] in s.held
    requires s.asleep[2] in s.threadCount && s.threadCount[s.asleep[2]] == 0
    ensures var s1 := Visited(s, s.asleep[0], now);
      s.asleep[2] in s1.asleep && s.asleep[2] in s1.threadCount && s1.threadCount[s.asleep[2]] == 0
  {
    hide Inv;
    HeldAt(s, s.asleep[0]);
    SleeperHeld(s, s.asleep[2]);
    PurgedSleeper(s, s.held[s.asleep[0]], 0, now, s.asleep[2]);
  }

  lemma {:induction false} PurgedSleeper(s: State, list: seq<LockId>, i: nat, now: int, v: Thread)
    requires Inv(s) && At(s, list, i) && v in s.asleep && v in s.held && v in s.threadCount && s.threadCount[v] == 0
    ensures var s' := Purged(s, list, i, now); v in s'.asleep && v in s'.threadCount && s'.threadCount[v] == 0
    decreases |list|, if list == [] then 0 else |s.locks[list[0]].requests| - i
  {
    hide Inv, RequestGone;
    if list != [] {
      if i == |s.locks[list[0]].requests| {
        PurgedSleeper(s, list[1..], 0, now, v);
      } else if s.locks[list[0]].requests[i].timeExpire > now {
        PurgedSleeper(s, list, i + 1, now, v);
      } else {
        GoneAt(s, list, i);
        GoneThreads(s, list[0], i);
        ThreadsOf(RequestGone(s, list[0], i));
        UnlinkedMembers(s.asleep, s.threadOf[s.locks[list[0]].requests[i].sth]);
        hide Unlinked, Inserted;
        PurgedSleeper(RequestGone(s, list[0], i), list, i, now, v);
      }
    }
  }
}
