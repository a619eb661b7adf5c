/** A pass of CheckThreads over the threads that may run: it meets threads that it moves there itself. */
module ReadyPasses {
  import opened LockStates
  import opened LockFacts
  import opened TimeoutPasses
  import opened PassReaches

  /** No thread that may run has requests that all run out now. */
  ghost predicate Calm(s: State, now: int) {
    forall t :: t in s.ready ==> !RunsDry(s, t, s.held.Keys, now)
  }

  /** `v` is still ahead of the walk, or just there. */
  predicate Ahead(s: State, x: Thread, v: Thread) {
    x in s.ready && v in s.ready && (x == v || Before(s.ready, x, v))
  }

  lemma {:induction false} BeforeInserted(list: seq<Thread>, k: nat, t: Thread, a: Thread, b: Thread)
    requires Before(list, a, b) && k <= |list| && t != a
    ensures Before(list[..k] + [t] + list[k..], a, b)
  {
    var r := list[..k] + [t] + list[k..];
    if k == 0 {
      assert r[1..] == list;
    } else {
      assert r[1..] == list[1..][..k - 1] + [t] + list[1..][k - 1..];
      if list[0] == a {
        assert b in list[1..];
        var i :| 0 <= i < |list[1..]| && list[1..][i] == b;
        assert r[1..][if i < k - 1 then i else i + 1] == b;
      } else {
        BeforeInserted(list[1..], k - 1, t, a, b);
      }
    }
  }

  /** Two threads that are not resumed keep their order in the ready list. */
  lemma {:induction false} PurgedOrder(s: State, list: seq<LockId>, i: nat, now: int, a: Thread, b: Thread)
    requires Inv(s) && At(s, list, i) && a in s.ready && b in s.ready && (a == b || Before(s.ready, a, b))
    requires !Resumed(s, Purged(s, list, i, now), a) && !Resumed(s, Purged(s, list, i, now), b)
    ensures var s' := Purged(s, list, i, now); a in s'.ready && b in s'.ready && (a == b || Before(s'.ready, a, b))
    decreases |list|, if list == [] then 0 else |s.locks[list[0]].requests| - i
  {
    hide Inv, RequestGone, Before;
    if list != [] {
      if i == |s.locks[list[0]].requests| {
        PurgedOrder(s, list[1..], 0, now, a, b);
      } else if s.locks[list[0]].requests[i].timeExpire > now {
        PurgedOrder(s, list, i + 1, now, a, b);
      } else {
        GoneAt(s, list, i);
        GoneThreads(s, list[0], i);
        var s1, t := RequestGone(s, list[0], i), s.threadOf[s.locks[list[0]].requests[i].sth];
        PurgedThreads(s1, list, i, now);
        ThreadsOf(s);
        ThreadsOf(s1);
        ThreadsOf(Purged(s1, list, i, now));
        assert a in s.held.Keys && b in s.held.Keys;
        hide ListsOK;
        if s.threadCount[t] == 1 {
          assert t != a && t != b;
          OrderKept(s.ready, s.counter, t, a, b);
        }
        hide Inserted, Unlinked;
        PurgedOrder(s1, list, i, now, a, b);
      }
    }
  }

  lemma OrderKept(ready: seq<Thread>, counter: map<Thread, int>, t: Thread, a: Thread, b: Thread)
    requires a in ready && b in ready && (a == b || Before(ready, a, b)) && t != a && t != b && NoRepeats(ready)
    ensures var r := Inserted(Unlinked(ready, t), counter, t); a in r && b in r && (a == b || Before(r, a, b))
  {
    UnlinkedMembers(ready, t);
    InsertedMembers(Unlinked(ready, t), counter, t);
    if a != b {
      BeforeUnlinked(ready, t, a, b);
      BeforeInserted(Unlinked(ready, t), Slot(Unlinked(ready, t), counter, t), t, a, b);
    }
  }

  /** A thread that comes to the ready list was resumed. */
  lemma {:induction false} PurgedNewcomers(s: State, list: seq<LockId>, i: nat, now: int)
    requires Inv(s) && At(s, list, i)
    ensures var s' := Purged(s, list, i, now);
      forall t :: t in s'.ready ==> t in s.ready || (t in s'.threadCount && s'.threadCount[t] == 0)
    decreases |list|, if list == [] then 0 else |s.locks[list[0]].requests| - i
  {
    hide Inv, RequestGone;
    if list != [] {
      if i == |s.locks[list[0]].requests| {
        PurgedNewcomers(s, list[1..], 0, now);
      } else if s.locks[list[0]].requests[i].timeExpire > now {
        PurgedNewcomers(s, list, i + 1, now);
      } else {
        GoneAt(s, list, i);
        GoneThreads(s, list[0], i);
        var s1, t := RequestGone(s, list[0], i), s.threadOf[s.locks[list[0]].requests[i].sth];
        ThreadsOf(s);
        UnlinkedMembers(s.ready, t);
        InsertedMembers(Unlinked(s.ready, t), s.counter, t);
        hide Inserted, Unlinked;
        PurgedThreads(s1, list, i, now);
        ThreadsOf(s1);
        ThreadsOf(Purged(s1, list, i, now));
        hide ListsOK;
        PurgedNewcomers(s1, list, i, now);
      }
    }
  }

  /** Every thread on the ready list will stay where it is. */
  ghost predicate Settled(s0: State, s: State, now: int) {
    forall t :: t in s.ready ==>
      t in s.held && t in s.threadCount && (s.threadCount[t] == 0 || !RunsDry(s0, t, s0.held.Keys, now))
  }

  lemma CalmIsSettled(s: State, now: int)
    requires Inv(s) && Calm(s, now)
    ensures Settled(s, s, now)
  {
    hide Inv, RunsDry;
    ThreadsOf(s);
    forall t | t in s.ready ensures t in s.held && t in s.threadCount {
      assert t in s.held.Keys && t in s.threadCount.Keys;
    }
  }

  /** A visit in a settled list moves none of its threads, and settles the newcomers. */
  lemma VisitSettles(s0: State, s: State, x: Thread, h: set<Thread>, now: int)
    requires Inv(s0) && Inv(s) && x in s.held && PurgedBy(s0, s, h, now) && Settled(s0, s, now) && h <= s0.held.Keys
    ensures var s1 := Visited(s, x, now);
      && Inv(s1) && PurgedBy(s0, s1, h + {x}, now) && h + {x} <= s0.held.Keys && Settled(s0, s1, now)
      && forall t :: t in s.ready ==> !Resumed(s, s1, t)
  {
    hide Inv, RunsDry;
    VisitedIs(s, x, now);
    var s1 := Visited(s, x, now);
    PurgedMore(s0, s, s1, h, {x}, now);
    assert x in s.held.Keys;
    forall t | t in s.ready ensures !Resumed(s, s1, t) {
      if s.threadCount[t] != 0 {
        ResumedIfDry(s0, s, s1, h, h + {x}, now, t);
        NotDrySooner(s0, t, h + {x}, s0.held.Keys, now);
      }
    }
    HeldAt(s, x);
    PurgedNewcomers(s, s.held[x], 0, now);
    PurgedThreads(s, s.held[x], 0, now);
    ThreadsOf(s1);
    ThreadsOf(s);
    SettledNow(s0, s, s1, now);
  }

  lemma SettledNow(s0: State, s: State, s1: State, now: int)
    requires Settled(s0, s, now) && ListsOK(s1.ready, s1.asleep, s1.held.Keys) && s1.threadCount.Keys == s1.held.Keys
    requires forall t :: t in s1.threadCount ==> s1.threadCount[t] >= 0
    requires forall t :: t in s1.ready ==> t in s.ready || (t in s1.threadCount && s1.threadCount[t] == 0)
    requires forall t :: t in s.threadCount && t in s1.threadCount ==> s1.threadCount[t] <= s.threadCount[t]
    ensures Settled(s0, s1, now)
  {
    hide RunsDry;
    forall t | t in s1.ready
      ensures t in s1.held && t in s1.threadCount && (s1.threadCount[t] == 0 || !RunsDry(s0, t, s0.held.Keys, now))
    {
      assert t in s1.held.Keys && t in s1.threadCount.Keys;
    }
  }

  /** What is ahead of the walk in a settled list is visited. */
  lemma {:induction false} VisitsAhead(s0: State, s: State, x: Thread, v: Thread, h: set<Thread>, now: int)
    requires Inv(s0) && Inv(s) && x in s.held && PurgedBy(s0, s, h, now) && Settled(s0, s, now) && h <= s0.held.Keys
    requires Ahead(s, x, v)
    ensures v in Pass(s, Some(x), now).1
    decreases |Queued(s.locks)|, StepsLeft(s, Some(x))
  {
    hide Inv, Queued, StepsLeft, PurgedBy, Settled, Before, Follower, NextThread;
    VisitStep(s, x, now);
    if x != v {
      var s1 := Visited(s, x, now);
      VisitSettles(s0, s, x, h, now);
      ThreadsOf(s);
      NextIsAhead(s, x, v);
      var y := NextThread(s, x).value;
      HeldAt(s, x);
      PurgedOrder(s, s.held[x], 0, now, y, v);
      hide Visited;
      VisitsAhead(s0, s1, y, v, h + {x}, now);
    }
  }

  lemma NextIsAhead(s: State, x: Thread, v: Thread)
    requires Ahead(s, x, v) && x != v && NoRepeats(s.ready)
    ensures NextThread(s, x).Some? && Ahead(s, NextThread(s, x).value, v)
  {
    FollowerAhead(s.ready, x, v);
    BeforeMembers(s.ready, x, v);
  }

  lemma {:induction false} FollowerAhead(list: seq<Thread>, x: Thread, v: Thread)
    requires Before(list, x, v) && NoRepeats(list)
    ensures Follower(list, x).Some?
    ensures var y := Follower(list, x).value; y in list && (y == v || Before(list, y, v))
  {
    assert NoRepeats(list[1..]);
    if list[0] == x {
      assert list[1] == list[1..][0];
      if list[1] != v {
        assert v in list[2..] by {
          assert list[1..] == [list[1]] + list[2..];
        }
        assert list[1..][1..] == list[2..];
      }
    } else {
      FollowerAhead(list[1..], x, v);
      var y := Follower(list[1..], x).value;
      assert y != list[0];
    }
  }

  /** As long as no thread that may run is freed itself, a pass over their list visits all that were on it,
    * whatever threads it wakes up and wherever they come to stand. */
  lemma CalmPassVisitsAll(s: State, now: int)
    requires Inv(s) && Calm(s, now) && s.ready != []
    ensures s.ready[0] in s.held
    ensures forall v :: v in s.ready ==> v in Pass(s, Some(s.ready[0]), now).1
  {
    hide Inv, Calm, Settled;
    CalmIsSettled(s, now);
    PurgedByNone(s, now);
    ThreadsOf(s);
    assert s.ready[0] in s.held.Keys;
    forall v | v in s.ready ensures v in Pass(s, Some(s.ready[0]), now).1 {
      FirstAhead(s.ready, v);
      VisitsAhead(s, s, s.ready[0], v, {}, now);
    }
  }

  lemma FirstAhead(list: seq<Thread>, v: Thread)
    requires v in list
    ensures list[0] == v || Before(list, list[0], v)
  {
    assert list == [list[0]] + list[1..];
  }
}
