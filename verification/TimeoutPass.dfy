/** CheckThreads: a pass over a list of threads that purges expired lock requests and, by restarting
  * threads, changes the very list it walks. */
module TimeoutPasses {
  import opened LockStates
  import opened LockFacts

  datatype Option<T> = None | Some(value: T)

  // ----- One queue, one thread

  /** The requests whose time is not up, in order. */
  function Unexpired(q: seq<Request>, now: int): seq<Request> {
    if q == [] then [] else (if q[0].timeExpire <= now then [] else [q[0]]) + Unexpired(q[1..], now)
  }

  lemma {:induction false} UnexpiredMembers(q: seq<Request>, now: int)
    ensures forall r :: r in Unexpired(q, now) <==> r in q && r.timeExpire > now
  {
    if q != [] {
      UnexpiredMembers(q[1..], now);
      assert q == [q[0]] + q[1..];
    }
  }

  lemma {:induction false} UnexpiredTwice(q: seq<Request>, now: int)
    ensures Unexpired(Unexpired(q, now), now) == Unexpired(q, now)
  {
    if q != [] {
      UnexpiredTwice(q[1..], now);
      if q[0].timeExpire > now {
        assert Unexpired(q, now)[1..] == Unexpired(q[1..], now);
      } else {
        assert Unexpired(q, now) == Unexpired(q[1..], now);
      }
    }
  }

  lemma UnexpiredStep(q: seq<Request>, i: nat, now: int)
    requires i < |q|
    ensures q[i].timeExpire <= now ==>
      Unexpired(q[i..], now) == Unexpired(q[i + 1..], now) && Remove(q, i)[i..] == q[i + 1..] && Remove(q, i)[..i] == q[..i]
    ensures q[i].timeExpire > now ==> Unexpired(q[i..], now) == [q[i]] + Unexpired(q[i + 1..], now)
    ensures q[..i + 1] == q[..i] + [q[i]]
  {
    assert q[i..][1..] == q[i + 1..];
  }

  ghost predicate At(s: State, list: seq<LockId>, i: nat) {
    (forall l :: l in list ==> l in s.locks) && (list != [] ==> i <= |s.locks[list[0]].requests|)
  }

  /** The queues of several locks are gone through, the first one from position `i` on: requests whose time
    * is up leave, one by one. */
  ghost function Purged(s: State, list: seq<LockId>, i: nat, now: int): (s': State)
    requires Inv(s) && At(s, list, i)
    ensures Inv(s') && s'.held == s.held && s'.threadOf == s.threadOf && s'.counter == s.counter
    decreases |list|, if list == [] then 0 else |s.locks[list[0]].requests| - i
  {
    if list == [] then s
    else if i == |s.locks[list[0]].requests| then Purged(s, list[1..], 0, now)
    else if s.locks[list[0]].requests[i].timeExpire <= now then
      GoneAt(s, list, i);
      Purged(RequestGone(s, list[0], i), list, i, now)
    else Purged(s, list, i + 1, now)
  }

  lemma GoneAt(s: State, list: seq<LockId>, i: nat)
    requires Inv(s) && At(s, list, i) && list != [] && i < |s.locks[list[0]].requests|
    ensures Known(s, s.locks[list[0]].requests[i].sth)
    ensures var s1 := RequestGone(s, list[0], i);
      && Inv(s1) && At(s1, list, i) && s1.locks == WithoutAt(s.locks, list[0], i)
      && s1.threadOf == s.threadOf && s1.counter == s.counter && s1.held == s.held
  {
    hide InvExcept, Recounted;
    RequestGoneKeeps(s, list[0], i, {});
    GoneSame(s, list[0], i);
  }

  /** What remains of a lock that was gone through from position `i` on. */
  function PurgedFrom(lock: Lock, i: nat, now: int): Lock
    requires i <= |lock.requests|
  {
    lock.(requests := lock.requests[..i] + Unexpired(lock.requests[i..], now))
  }

  lemma PurgedEnd(lock: Lock, now: int)
    ensures PurgedFrom(lock, |lock.requests|, now) == lock
    ensures PurgedFrom(lock, 0, now) == lock.(requests := Unexpired(lock.requests, now))
  {
    var q := lock.requests;
    assert q[..|q|] + Unexpired(q[|q|..], now) == q;
    assert q[0..] == q && q[..0] + Unexpired(q, now) == Unexpired(q, now);
  }

  lemma PurgedOn(lock: Lock, i: nat, now: int)
    requires i < |lock.requests|
    ensures lock.requests[i].timeExpire <= now ==>
      && i <= |Remove(lock.requests, i)|
      && PurgedFrom(lock.(requests := Remove(lock.requests, i)), i, now) == PurgedFrom(lock, i, now)
    ensures lock.requests[i].timeExpire > now ==> PurgedFrom(lock, i + 1, now) == PurgedFrom(lock, i, now)
  {
    var q := lock.requests;
    UnexpiredStep(q, i, now);
    assert q[..i] + ([q[i]] + Unexpired(q[i + 1..], now)) == q[..i + 1] + Unexpired(q[i + 1..], now);
  }

  /** Purging touches the queues of the listed locks and nothing else about locks. */
  lemma {:induction false} PurgedLocks(s: State, list: seq<LockId>, i: nat, now: int)
    requires Inv(s) && At(s, list, i) && NoRepeats(list)
    ensures var s' := Purged(s, list, i, now);
      && s'.locks.Keys == s.locks.Keys
      && (forall m :: m in s.locks && m !in list ==> s'.locks[m] == s.locks[m])
      && (forall m :: m in list ==> s'.locks[m] == PurgedFrom(s.locks[m], if m == list[0] then i else 0, now))
    decreases |list|, if list == [] then 0 else |s.locks[list[0]].requests| - i
  {
    hide Inv, RequestGone, Known, PurgedFrom;
    if list != [] {
      var l := list[0];
      var lock := s.locks[l];
      assert list == [l] + list[1..] && NoRepeats(list[1..]) && l !in list[1..];
      PurgedEnd(lock, now);
      if i == |lock.requests| {
        PurgedLocks(s, list[1..], 0, now);
      } else {
        PurgedOn(lock, i, now);
        if lock.requests[i].timeExpire <= now {
          GoneAt(s, list, i);
          PurgedLocks(RequestGone(s, l, i), list, i, now);
        } else {
          PurgedLocks(s, list, i + 1, now);
        }
      }
    }
  }

  // ----- Threads in lists

  /** The element after `t`. */
  function Follower(list: seq<Thread>, t: Thread): Option<Thread> {
    if list == [] then None
    else if list[0] == t then (if |list| > 1 then Some(list[1]) else None)
    else Follower(list[1..], t)
  }

  /** How many elements come after `t`. */
  function Behind(list: seq<Thread>, t: Thread): nat {
    if list == [] then 0 else if list[0] == t then |list| - 1 else Behind(list[1..], t)
  }

  lemma {:induction false} FollowerIsBehind(list: seq<Thread>, t: Thread)
    requires NoRepeats(list) && Follower(list, t).Some?
    ensures var u := Follower(list, t).value; u in list && u != t && Behind(list, u) == Behind(list, t) - 1
  {
    assert NoRepeats(list[1..]);
    if list[0] == t {
      assert list[1] == list[1..][0];
    } else {
      FollowerIsBehind(list[1..], t);
    }
  }

  /** `v` comes before `x`. */
  predicate Before(list: seq<Thread>, v: Thread, x: Thread) {
    list != [] && if list[0] == v then x in list[1..] else Before(list[1..], v, x)
  }

  lemma {:induction false} BeforeMembers(list: seq<Thread>, v: Thread, x: Thread)
    requires Before(list, v, x)
    ensures v in list && x in list[1..]
  {
    if list[0] != v {
      BeforeMembers(list[1..], v, x);
    }
  }

  lemma {:induction false} BeforeFollower(list: seq<Thread>, v: Thread, x: Thread)
    requires NoRepeats(list) && Before(list, v, x) && Follower(list, x).Some?
    ensures Before(list, v, Follower(list, x).value) && Follower(list, x).value != v
  {
    assert NoRepeats(list[1..]);
    if list[0] == v {
      FollowerIsBehind(list[1..], x);
    } else {
      BeforeMembers(list[1..], v, x);
      if list[0] != x {
        BeforeFollower(list[1..], v, x);
      }
    }
  }

  lemma {:induction false} BeforeUnlinked(list: seq<Thread>, t: Thread, v: Thread, x: Thread)
    requires Before(list, v, x) && t != v && t != x
    ensures Before(Unlinked(list, t), v, x)
  {
    if list[0] == v {
      UnlinkedMembers(list[1..], t);
    } else {
      BeforeUnlinked(list[1..], t, v, x);
      if list[0] != t {
        assert Unlinked(list, t)[1..] == Unlinked(list[1..], t);
      }
    }
  }

  lemma {:induction false} BeforeAppend(list: seq<Thread>, t: Thread, v: Thread, x: Thread)
    requires v in list
    ensures Before(list, v, x) ==> Before(list + [t], v, x)
    ensures Before(list + [t], v, t)
  {
    assert (list + [t])[1..] == list[1..] + [t];
    if list[0] != v {
      BeforeAppend(list[1..], t, v, x);
    }
  }

  predicate EndsWith(list: seq<Thread>, tail: seq<Thread>) {
    |tail| <= |list| && list[|list| - |tail|..] == tail
  }

  lemma {:induction false} UnlinkedEnd(list: seq<Thread>, tail: seq<Thread>, t: Thread)
    requires EndsWith(list, tail) && t !in tail
    ensures EndsWith(Unlinked(list, t), tail)
  {
    if |tail| == |list| {
      assert list == tail;
      UnlinkedNothing(list, t);
    } else {
      assert list[1..][|list| - 1 - |tail|..] == list[|list| - |tail|..];
      UnlinkedEnd(list[1..], tail, t);
      var u := Unlinked(list[1..], t);
      assert ([list[0]] + u)[|u| + 1 - |tail|..] == u[|u| - |tail|..];
    }
  }

  lemma {:induction false} UnlinkedNothing(list: seq<Thread>, t: Thread)
    requires t !in list
    ensures Unlinked(list, t) == list
  {
    if list != [] {
      UnlinkedNothing(list[1..], t);
    }
  }

  /** In a list that ends with `tail`, the first of `tail` is followed by the second. */
  lemma {:induction false} FollowerInTail(list: seq<Thread>, tail: seq<Thread>)
    requires NoRepeats(list) && EndsWith(list, tail) && tail != []
    ensures Follower(list, tail[0]) == if |tail| > 1 then Some(tail[1]) else None
  {
    if |tail| == |list| {
      assert list == tail;
    } else {
      assert NoRepeats(list[1..]);
      assert tail[0] == list[|list| - |tail|];
      assert list[1..][|list| - 1 - |tail|..] == list[|list| - |tail|..];
      FollowerInTail(list[1..], tail);
    }
  }

  // ----- What purging does to the threads

  /** The thread had something queued, and has nothing any more. */
  predicate Resumed(s: State, s': State, t: Thread) {
    t in s.threadCount && t in s'.threadCount && s.threadCount[t] > 0 && s'.threadCount[t] == 0
  }

  lemma GoneThreads(s: State, l: LockId, i: nat)
    requires l in s.locks && i < |s.locks[l].requests| && Known(s, s.locks[l].requests[i].sth)
    ensures var s', t := RequestGone(s, l, i), s.threadOf[s.locks[l].requests[i].sth];
      && s'.threadCount == s.threadCount[t := s.threadCount[t] - 1] && s'.counter == s.counter
      && s'.ready == (if s.threadCount[t] == 1 then Inserted(Unlinked(s.ready, t), s.counter, t) else s.ready)
      && s'.asleep == (if s.threadCount[t] == 1 then Unlinked(s.asleep, t) else s.asleep)
  {
    hide Inserted, Unlinked;
  }

  lemma ThreadsOf(s: State)
    requires Inv(s)
    ensures ListsOK(s.ready, s.asleep, s.held.Keys) && s.threadCount.Keys == s.held.Keys
    ensures forall t :: t in s.threadCount ==> s.threadCount[t] >= 0
  {
    hide LocksOK, HeldOK, QueuesOK, Queued;
  }

  /** Counters only go down, and a thread that is resumed leaves the list of sleepers for good. */
  lemma {:induction false} PurgedThreads(s: State, list: seq<LockId>, i: nat, now: int)
    requires Inv(s) && At(s, list, i)
    ensures var s' := Purged(s, list, i, now);
      && s'.threadCount.Keys == s.threadCount.Keys
      && (forall t :: t in s.threadCount && t in s'.threadCount ==> s'.threadCount[t] <= s.threadCount[t])
      && (forall t :: t in s'.asleep ==> t in s.asleep && !Resumed(s, s', t))
    decreases |list|, if list == [] then 0 else |s.locks[list[0]].requests| - i
  {
    hide Inv, RequestGone;
    if list != [] {
      if i == |s.locks[list[0]].requests| {
        PurgedThreads(s, list[1..], 0, now);
      } else if s.locks[list[0]].requests[i].timeExpire > now {
        PurgedThreads(s, list, i + 1, now);
      } else {
        GoneAt(s, list, i);
        GoneThreads(s, list[0], i);
        UnlinkedMembers(s.asleep, s.threadOf[s.locks[list[0]].requests[i].sth]);
        hide Unlinked, Inserted;
        PurgedThreads(RequestGone(s, list[0], i), list, i, now);
      }
    }
  }

  /** The end of the list of sleepers stays as long as none of its threads is resumed. */
  lemma {:induction false} PurgedTail(s: State, list: seq<LockId>, i: nat, now: int, tail: seq<Thread>)
    requires Inv(s) && At(s, list, i) && EndsWith(s.asleep, tail)
    requires forall t :: t in tail ==> !Resumed(s, Purged(s, list, i, now), t)
    ensures EndsWith(Purged(s, list, i, now).asleep, tail)
    decreases |list|, if list == [] then 0 else |s.locks[list[0]].requests| - i
  {
    hide Inv, RequestGone, EndsWith;
    if list != [] {
      if i == |s.locks[list[0]].requests| {
        PurgedTail(s, list[1..], 0, now, tail);
      } else if s.locks[list[0]].requests[i].timeExpire > now {
        PurgedTail(s, list, i + 1, now, tail);
      } else {
        GoneAt(s, list, i);
        GoneThreads(s, list[0], i);
        var s1, t := RequestGone(s, list[0], i), s.threadOf[s.locks[list[0]].requests[i].sth];
        PurgedThreads(s1, list, i, now);
        ThreadsOf(s);
        ThreadsOf(s1);
        ThreadsOf(Purged(s1, list, i, now));
        hide Unlinked, Inserted, ListsOK;
        if s.threadCount[t] == 1 && t !in tail {
          UnlinkedEnd(s.asleep, tail, t);
        }
        PurgedTail(s1, list, i, now, tail);
      }
    }
  }

  /** `v` is in front of `x` if both are on the same list. */
  predicate Passed(s: State, v: Thread, x: Thread) {
    && v != x
    && (v in s.ready && x in s.ready ==> Before(s.ready, v, x))
    && (v in s.asleep && x in s.asleep ==> Before(s.asleep, v, x))
  }

  /** `v` goes to the front when it is resumed and all others to the back, or it sleeps on. */
  predicate Unlucky(s: State, v: Thread) {
    s.counter == map[v := 1] || (v in s.asleep && v in s.threadCount && s.threadCount[v] == 0)
  }

  lemma SlotFirst(list: seq<Thread>, v: Thread, t: Thread)
    requires v !in list || v != t
    ensures Inserted(list, map[v := 1], t) == if v == t then [v] + list else list + [t]
  {
    var k := Slot(list, map[v := 1], t);
  }

  /** Sleepers keep their order. */
  lemma AsleepPassed(asleep: seq<Thread>, t: Thread, v: Thread, x: Thread)
    requires v in asleep && x in asleep ==> Before(asleep, v, x)
    ensures v in Unlinked(asleep, t) && x in Unlinked(asleep, t) ==> Before(Unlinked(asleep, t), v, x)
  {
    UnlinkedMembers(asleep, t);
    if v in asleep && x in asleep && v != t && x != t {
      BeforeUnlinked(asleep, t, v, x);
    }
  }

  /** The unlucky thread goes to the front of the ready list and everybody else to its back. */
  lemma ReadyPassed(ready: seq<Thread>, t: Thread, v: Thread, x: Thread)
    requires v != x && (v != t && v in ready && x in ready ==> Before(ready, v, x))
    ensures var r := Inserted(Unlinked(ready, t), map[v := 1], t);
      v in r && x in r ==> Before(r, v, x)
  {
    UnlinkedMembers(ready, t);
    var u := Unlinked(ready, t);
    SlotFirst(u, v, t);
    var r := Inserted(u, map[v := 1], t);
    hide Inserted, Unlinked, Slot;
    if v in r && x in r {
      if v == t {
        assert r == [v] + u && r[1..] == u;
        assert x in u;
      } else {
        assert r == u + [t];
        assert v in u;
        BeforeAppend(u, t, v, x);
        if x != t {
          assert x in ready && v in ready;
          BeforeUnlinked(ready, t, v, x);
        }
      }
    }
  }

  /** One step of a purge keeps what is passed, passed. */
  lemma GonePassed(s: State, l: LockId, i: nat, v: Thread, x: Thread)
    requires Inv(s) && l in s.locks && i < |s.locks[l].requests| && Known(s, s.locks[l].requests[i].sth)
    requires Inv(RequestGone(s, l, i)) && v in s.held && v != x && Unlucky(s, v)
    requires Passed(s, v, x) || Resumed(s, RequestGone(s, l, i), v)
    ensures Passed(RequestGone(s, l, i), v, x) && Unlucky(RequestGone(s, l, i), v)
  {
    hide Inv, RequestGone;
    GoneThreads(s, l, i);
    var s', t := RequestGone(s, l, i), s.threadOf[s.locks[l].requests[i].sth];
    ThreadsOf(s);
    ThreadsOf(s');
    UnlinkedMembers(s.asleep, t);
    hide Inserted, Unlinked, Before;
    assert v in s.held.Keys;
    if s.threadCount[t] == 1 {
      if v != t {
        AsleepPassed(s.asleep, t, v, x);
      }
      if s.counter == map[v := 1] {
        ReadyPassed(s.ready, t, v, x);
      }
    }
  }

  /** So does a whole purge; and a thread it resumes ends up in front of everybody else. */
  lemma {:induction false} PurgedPassed(s: State, list: seq<LockId>, i: nat, now: int, v: Thread, x: Thread)
    requires Inv(s) && At(s, list, i) && v in s.held && v != x && Unlucky(s, v)
    requires Passed(s, v, x) || Resumed(s, Purged(s, list, i, now), v)
    ensures Passed(Purged(s, list, i, now), v, x) && Unlucky(Purged(s, list, i, now), v)
    decreases |list|, if list == [] then 0 else |s.locks[list[0]].requests| - i
  {
    hide Inv, RequestGone, Passed, Unlucky;
    if list != [] {
      if i == |s.locks[list[0]].requests| {
        PurgedPassed(s, list[1..], 0, now, v, x);
      } else if s.locks[list[0]].requests[i].timeExpire > now {
        PurgedPassed(s, list, i + 1, now, v, x);
      } else {
        GoneAt(s, list, i);
        var s1 := RequestGone(s, list[0], i);
        ThreadsOf(s);
        ThreadsOf(s1);
        assert v in s.held.Keys;
        if Passed(s, v, x) || Resumed(s, s1, v) {
          GonePassed(s, list[0], i, v, x);
        } else {
          UnluckyStays(s, list[0], i, v);
        }
        hide ListsOK;
        PurgedPassed(s1, list, i, now, v, x);
      }
    }
  }

  lemma UnluckyStays(s: State, l: LockId, i: nat, v: Thread)
    requires Inv(s) && l in s.locks && i < |s.locks[l].requests| && Known(s, s.locks[l].requests[i].sth)
    requires Inv(RequestGone(s, l, i)) && v in s.held && Unlucky(s, v)
    ensures Unlucky(RequestGone(s, l, i), v)
  {
    hide Inv, RequestGone;
    GoneThreads(s, l, i);
    ThreadsOf(RequestGone(s, l, i));
    UnlinkedMembers(s.asleep, s.threadOf[s.locks[l].requests[i].sth]);
  }
}
