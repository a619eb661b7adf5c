/** The execution engine's lock operations, in place. */
module LockEngines {
  import opened LockStates
  import opened LockOwners
  import opened LockFacts
  import opened LockSteps
  import opened ReleaseWalks
  import opened TimeoutPasses
  import opened PassReaches
  import opened RequestDeletions

  datatype Outcome = Done | ThreadWaiting | SynchronizationError

  /** The lists of live sub-threads agree with the maps, and new records get new names. */
  ghost predicate Lists(s: State, subThreads: map<Thread, seq<SubThread>>, nextLock: LockId, nextThread: Thread,
                        nextSub: SubThread)
  {
    && (forall l :: l in s.locks ==> l < nextLock) && (forall t :: t in s.held ==> t < nextThread)
    && (forall x :: x in s.threadOf ==> x < nextSub) && subThreads.Keys == s.held.Keys
    && (forall t, x :: t in subThreads && x in subThreads[t] ==> x in s.threadOf && s.threadOf[x] == t)
    && (forall t :: t in subThreads ==> NoRepeats(subThreads[t]))
  }

  lemma ListsKept(s: State, s': State, subThreads: map<Thread, seq<SubThread>>, nextLock: LockId, nextThread: Thread,
                  nextSub: SubThread)
    requires Lists(s, subThreads, nextLock, nextThread, nextSub) && s'.threadOf == s.threadOf && s'.held.Keys == s.held.Keys
    requires forall l :: l in s'.locks ==> l in s.locks
    ensures Lists(s', subThreads, nextLock, nextThread, nextSub)
  {
    assert forall t :: t in s'.held ==> t in s'.held.Keys;
  }

  class LockEngine {
    var threadOf: map<SubThread, Thread>
    var locks: map<LockId, Lock>
    var held: map<Thread, seq<LockId>>
    var subCount: map<SubThread, int>
    var threadCount: map<Thread, int>
    var waiting: set<Thread>
    var resting: set<Thread>
    var ready: seq<Thread>
    var asleep: seq<Thread>
    var counter: map<Thread, int>
    var subThreads: map<Thread, seq<SubThread>>    // m_subThreads of each thread
    var clock: nat
    var nextLock: LockId
    var nextThread: Thread
    var nextSub: SubThread

    ghost function Now(): State
      reads this
    {
      State(threadOf, locks, held, subCount, threadCount, waiting, resting, ready, asleep, counter, clock)
    }

    ghost predicate Valid()
      reads this
    {
      Inv(Now()) && Lists(Now(), subThreads, nextLock, nextThread, nextSub)
    }

    constructor ()
      ensures Valid() && locks == map[] && held == map[] && threadOf == map[]
    {
      threadOf, locks, held, subCount, threadCount := map[], map[], map[], map[], map[];
      waiting, resting, ready, asleep, counter := {}, {}, [], [], map[];
      subThreads, clock, nextLock, nextThread, nextSub := map[], 0, 0, 0, 0;
      new;
      NothingYet(Now());
    }

    // ----- Threads

    /** InsertThreadRoundRobin. */
    method InsertRoundRobin(list: seq<Thread>, th: Thread) returns (r: seq<Thread>)
      ensures r == Inserted(list, counter, th)
    {
      var k := 0;
      while k < |list| && CounterOf(counter, list[k]) >= CounterOf(counter, th)
        invariant 0 <= k <= |list| && forall i :: 0 <= i < k ==> CounterOf(counter, list[i]) >= CounterOf(counter, th)
      {
        k := k + 1;
      }
      r := list[..k] + [th] + list[k..];
      ghost var n := Slot(list, counter, th);
      assert n == k;
    }

    method PutInProperList(th: Thread)
      modifies this`ready, this`asleep, this`resting
      ensures Now() == Listed(old(Now()), th)
    {
      if th in waiting {
        ready, asleep := Unlinked(ready, th), Unlinked(asleep, th) + [th];
      } else {
        ready := InsertRoundRobin(Unlinked(ready, th), th);
        asleep, resting := Unlinked(asleep, th), resting - {th};
      }
    }

    method Restart(th: Thread)
      modifies this`waiting, this`ready, this`asleep, this`resting
      ensures Now() == Restarted(old(Now()), th)
    {
      waiting := waiting - {th};
      PutInProperList(th);
    }

    /** Abort of a thread that has not terminated: it runs again, its requests stay queued. */
    method Abort(th: Thread)
      requires Valid() && th in held
      modifies this`waiting, this`ready, this`asleep, this`resting
      ensures Valid() && Now() == Restarted(old(Now()), th)
    {
      hide Inv, InvExcept, Lists;
      InvIs(Now());
      RestartedKeeps(Now(), th, {});
      InvIs(Restarted(Now(), th));
      Restart(th);
      ListsKept(old(Now()), Now(), subThreads, nextLock, nextThread, nextSub);
    }

    /** Sleep, WaitEvents and the like. */
    method Sleep(th: Thread)
      requires Valid() && th in held
      modifies this`waiting, this`resting
      ensures Valid() && Now() == Rested(old(Now()), th)
    {
      hide Inv, Lists;
      RestedKeeps(Now(), th);
      waiting, resting := waiting + {th}, resting + {th};
      ListsKept(old(Now()), Now(), subThreads, nextLock, nextThread, nextSub);
    }

    /** A thread has run: it goes to the list it belongs to. */
    method EndRun(th: Thread)
      requires Valid() && th in held
      modifies this`ready, this`asleep, this`resting
      ensures Valid() && Now() == Listed(old(Now()), th)
    {
      hide Inv, Lists;
      ListedKeeps(Now(), th);
      PutInProperList(th);
      ListsKept(old(Now()), Now(), subThreads, nextLock, nextThread, nextSub);
    }

    /** CreateInstance of a sub-thread. */
    method CreateSubThread(th: Thread) returns (sth: SubThread)
      requires Valid() && th in held
      modifies this`threadOf, this`subCount, this`subThreads, this`nextSub
      ensures Valid() && sth !in old(threadOf) && Now() == SubThreadCreated(old(Now()), sth, th)
      ensures th in old(subThreads) && subThreads == old(subThreads)[th := old(subThreads)[th] + [sth]]
    {
      hide Inv, Lists;
      sth := nextSub;
      NewSubThread(Now(), subThreads, nextLock, nextThread, nextSub, th);
      SubThreadCreatedKeeps(Now(), sth, th);
      threadOf, subCount := threadOf[sth := th], subCount[sth := 0];
      subThreads := subThreads[th := subThreads[th] + [sth]];
      nextSub := nextSub + 1;
      assert Now() == SubThreadCreated(old(Now()), sth, th);
    }

    /** NewThread: a thread with one sub-thread that may run. */
    method CreateThread() returns (th: Thread, sth: SubThread)
      requires Valid()
      modifies this
      ensures Valid() && th !in old(held) && sth !in old(threadOf)
      ensures Now() == SubThreadCreated(ThreadCreated(old(Now()), th), sth, th)
      ensures subThreads == old(subThreads)[th := [sth]]
    {
      hide Inv, Lists, ThreadCreated, SubThreadCreated;
      th := StartThread();
      sth := CreateSubThread(th);
      assert [] + [sth] == [sth];
    }

    /** The thread itself, still without sub-threads. */
    method StartThread() returns (th: Thread)
      requires Valid()
      modifies this`held, this`threadCount, this`counter, this`ready, this`subThreads, this`nextThread
      ensures Valid() && th !in old(held) && th in held && Now() == ThreadCreated(old(Now()), th)
      ensures subThreads == old(subThreads)[th := []]
    {
      hide Inv, Inserted, Lists;
      th := nextThread;
      NewThread(Now(), subThreads, nextLock, nextThread, nextSub);
      ThreadCreatedKeeps(Now(), th);
      held, threadCount, counter := held[th := []], threadCount[th := 0], counter[th := 0];
      ready := InsertRoundRobin(ready, th);
      subThreads, nextThread := subThreads[th := []], nextThread + 1;
      assert Now() == ThreadCreated(old(Now()), th);
    }

    /** ChangeLockRequestCount: the thread waits until nothing is counted any more. */
    method ChangeLockRequestCount(sth: SubThread, diff: int) returns (resumed: bool)
      requires Known(Now(), sth)
      modifies this`subCount, this`threadCount, this`waiting, this`ready, this`asleep, this`resting
      ensures Now() == Recounted(old(Now()), sth, diff)
      ensures resumed <==> threadOf[sth] in threadCount && threadCount[threadOf[sth]] == 0
    {
      hide Inserted, Unlinked;
      var th := threadOf[sth];
      subCount := subCount[sth := subCount[sth] + diff];
      threadCount := threadCount[th := threadCount[th] + diff];
      if threadCount[th] == 0 {
        Restart(th);
        resumed := true;
      } else {
        waiting := waiting + {th};
        resumed := false;
      }
    }

    // ----- Requests and owners

    /** A request leaves its queue. */
    method DropRequest(l: LockId, i: nat, ghost except: set<LockId>) returns (resumed: bool)
      requires InvExcept(Now(), except) && l in locks && i < |locks[l].requests|
      modifies this`locks, this`subCount, this`threadCount, this`waiting, this`ready, this`asleep, this`resting
      ensures InvExcept(Now(), except)
      ensures Known(old(Now()), old(locks)[l].requests[i].sth) && Now() == RequestGone(old(Now()), l, i)
      ensures var th := threadOf[old(locks)[l].requests[i].sth];
        resumed <==> th in threadCount && threadCount[th] == 0
    {
      hide InvExcept, Recounted;
      RequestGoneKeeps(Now(), l, i, except);
      var req := locks[l].requests[i];
      locks := locks[l := locks[l].(requests := Remove(locks[l].requests, i))];
      resumed := ChangeLockRequestCount(req.sth, -1);
    }

    /** ChangeOwner: the longest waiting request takes over, or the lock is given up. */
    method ChangeOwner(l: LockId)
      requires InvExcept(Now(), {l}) && l in locks && locks[l].owners == []
      modifies this`locks, this`held, this`subCount, this`threadCount, this`waiting, this`ready, this`asleep, this`resting
      ensures Now() == OwnerChanged(old(Now()), l) && Inv(Now())
    {
      hide InvExcept, Inv, OwnerChanged, RequestGone;
      ghost var s := Now();
      OwnerChangedKeeps(s, l);
      ChangeSteps(s, l);
      var th0 := locks[l].owningThread;
      if locks[l].requests != [] {
        GoneSame(s, l, 0);
        var sth := locks[l].requests[0].sth;
        var th := threadOf[sth];
        var resumed := DropRequest(l, 0, {l});
        held := held[th0 := Unlinked(held[th0], l)];
        held := held[th := held[th] + [l]];
        locks := locks[l := locks[l].(owningThread := th)];
        locks := locks[l := locks[l].(owners := [Owner(sth, 1)])];
        assert Now() == HandedOver(s, l);
      } else {
        held := held[th0 := Unlinked(held[th0], l)];
        locks := locks - {l};
        assert Now() == LockFreed(s, l);
      }
    }

    /** The lock on an object, if it is locked. */
    method FindLockObject(resource: int) returns (found: bool, l: LockId)
      requires Valid()
      ensures found ==> l in locks && locks[l].resource == resource
      ensures !found ==> forall m :: m in locks ==> locks[m].resource != resource
    {
      found, l := false, 0;
      var left := locks.Keys;
      while left != {}
        invariant left <= locks.Keys
        invariant forall m :: m in locks && m !in left ==> locks[m].resource != resource
      {
        l :| l in left;
        if locks[l].resource == resource {
          return true, l;
        }
        left := left - {l};
      }
    }

    /** LockObject: an unlocked object is locked, a sub-thread of the owning thread enters, anybody else
      * queues up and stops, whatever it has queued before. */
    method LockObject(resource: int, sth: SubThread, timeExpire: int) returns (hr: Outcome, ghost l: LockId)
      requires Valid() && sth in threadOf
      modifies this`locks, this`held, this`nextLock, this`subCount, this`threadCount, this`waiting, this`ready, this`asleep,
        this`resting, this`clock
      ensures Valid() && l in locks && locks[l].resource == resource && hr != SynchronizationError
      ensures Known(old(Now()), sth)
      ensures l !in old(locks) ==>
        && (forall m :: m in old(locks) ==> old(locks)[m].resource != resource)
        && Now() == LockCreated(old(Now()), l, resource, sth) && hr == Done
      ensures l in old(locks) ==>
        && Now() == Asked(old(Now()), l, sth, timeExpire)
        && hr == if old(locks)[l].owningThread == threadOf[sth] then Done else ThreadWaiting
    {
      hide Inv, Lists, Asked, LockCreated;
      InvIs(Now());
      SubThreadKnown(Now(), sth);
      var found, lock := FindLockObject(resource);
      if !found {
        l := CreateLock(resource, sth);
        return Done, l;
      }
      l := lock;
      hr := IncrementOwnership(lock, sth, timeExpire);
    }

    /** CreateInstance of a lock, which its first owner enters. */
    method CreateLock(resource: int, sth: SubThread) returns (l: LockId)
      requires Valid() && Known(Now(), sth) && forall m :: m in locks ==> locks[m].resource != resource
      modifies this`locks, this`held, this`nextLock
      ensures Valid() && l !in old(locks) && l in locks && locks[l].resource == resource
      ensures Now() == LockCreated(old(Now()), l, resource, sth)
    {
      hide Inv, Lists;
      l := nextLock;
      NewLock(Now(), subThreads, nextLock, nextThread, nextSub, LockCreated(Now(), l, resource, sth));
      LockCreatedKeeps(Now(), l, resource, sth);
      nextLock := nextLock + 1;
      var th := threadOf[sth];
      locks := locks[l := Lock(th, resource, [Owner(sth, 1)], [])];
      held := held[th := held[th] + [l]];
      assert Now() == LockCreated(old(Now()), l, resource, sth);
    }

    method IncrementOwnership(l: LockId, sth: SubThread, timeExpire: int) returns (hr: Outcome)
      requires Valid() && l in locks && Known(Now(), sth)
      modifies this`locks, this`subCount, this`threadCount, this`waiting, this`ready, this`asleep, this`resting, this`clock
      ensures Valid() && l in locks && locks[l].resource == old(locks)[l].resource
      ensures Now() == Asked(old(Now()), l, sth, timeExpire)
      ensures hr == if old(locks)[l].owningThread == threadOf[sth] then Done else ThreadWaiting
    {
      hide Inv, Lists, RequestAdded, Entered;
      if locks[l].owningThread == threadOf[sth] {
        EnterAgain(l, sth);
        return Done;
      }
      Enqueue(l, sth, timeExpire);
      return ThreadWaiting;
    }

    /** A sub-thread of the owning thread enters. */
    method EnterAgain(l: LockId, sth: SubThread)
      requires Valid() && l in locks && sth in threadOf && locks[l].owningThread == threadOf[sth]
      modifies this`locks
      ensures Valid() && Now() == OwnersSet(old(Now()), l, Entered(old(locks)[l].owners, sth))
    {
      hide Inv, InvExcept, OwnersFit, Lists;
      ghost var s := Now();
      InvIs(s);
      OwnersOfLock(s, l);
      EnteredFits(threadOf, threadOf[sth], locks[l].owners, sth);
      OwnersSetKeeps(s, l, Entered(locks[l].owners, sth), {});
      assert {} - {l} == {};
      InvIs(OwnersSet(s, l, Entered(locks[l].owners, sth)));
      var k := FindOwner(locks[l].owners, sth);
      var owners := locks[l].owners;
      if k < |owners| {
        owners := owners[k := Owner(sth, owners[k].recursion + 1)];
      } else {
        owners := [Owner(sth, 1)] + owners;
      }
      locks := locks[l := locks[l].(owners := owners)];
      ListsKept(s, Now(), subThreads, nextLock, nextThread, nextSub);
    }

    /** CreateInstance of a lock request: it goes to the end of the queue, and the thread stops. */
    method Enqueue(l: LockId, sth: SubThread, timeExpire: int)
      requires Valid() && l in locks && Known(Now(), sth)
      modifies this`locks, this`subCount, this`threadCount, this`waiting, this`ready, this`asleep, this`resting, this`clock
      ensures Valid() && Now() == RequestAdded(old(Now()), l, sth, timeExpire)
      ensures l in locks && locks[l].resource == old(locks)[l].resource
    {
      hide Inv, Lists, Recounted;
      ghost var s := Now();
      RequestAddedKeeps(s, l, sth, timeExpire);
      AddedIs(s, l, sth, timeExpire);
      locks := locks[l := locks[l].(requests := locks[l].requests + [Request(sth, timeExpire, clock)])];
      clock := clock + 1;
      var resumed := ChangeLockRequestCount(sth, 1);
      ListsKept(s, Now(), subThreads, nextLock, nextThread, nextSub);
    }

    method FindOwner(owners: seq<Owner>, sth: SubThread) returns (k: nat)
      ensures k == IndexOf(owners, sth)
    {
      k := 0;
      while k < |owners| && owners[k].sth != sth
        invariant k <= |owners| && forall j :: 0 <= j < k ==> owners[j].sth != sth
      {
        k := k + 1;
      }
    }

    /** UnlockObject: only an owner may unlock; the last one to leave hands the lock over. */
    method UnlockObject(resource: int, sth: SubThread) returns (hr: Outcome, ghost l: LockId)
      requires Valid() && sth in threadOf
      modifies this`locks, this`held, this`subCount, this`threadCount, this`waiting, this`ready, this`asleep, this`resting
      ensures Valid()
      ensures hr == SynchronizationError ==>
        && Now() == old(Now())
        && forall m :: m in locks && locks[m].resource == resource ==> !Owns(locks[m], sth)
      ensures hr == Done ==>
        && l in old(locks) && old(locks)[l].resource == resource && Owns(old(locks)[l], sth)
        && LeftOK(old(Now()), l, sth) && Now() == LeftBy(old(Now()), l, sth)
      ensures hr != ThreadWaiting && Shrinks(old(Now()), Now())
    {
      hide Inv, InvExcept, OwnersFit, Lists, LeftBy, Shrinks;
      ghost var s := Now();
      ShrinksStart(s);
      var found, lock := FindLockObject(resource);
      l := lock;
      if found {
        OwnersOfLock(s, l);
        if locks[lock].owningThread == threadOf[sth] {
          var k := FindOwner(locks[lock].owners, sth);
          if k < |locks[lock].owners| {
            LeaveLock(lock, sth, k);
            return Done, l;
          }
        }
        OnlyItsLock(s, l, sth);
      }
      return SynchronizationError, l;
    }

    /** DecrementOwnership by an owner: leaving once, and the last one hands the lock over. */
    method LeaveLock(l: LockId, sth: SubThread, k: nat)
      requires Valid() && l in locks && k == IndexOf(locks[l].owners, sth) < |locks[l].owners|
      modifies this`locks, this`held, this`subCount, this`threadCount, this`waiting, this`ready, this`asleep, this`resting
      ensures Valid()
      ensures LeftOK(old(Now()), l, sth) && Now() == LeftBy(old(Now()), l, sth) && Shrinks(old(Now()), Now())
    {
      hide Inv, InvExcept, OwnersFit, Lists, Released, Shrinks, Left, IndexOf;
      ghost var s := Now();
      LeaveFits(s, l, sth);
      LeftShrinks(s, l, sth);
      ReleasedIs(s, l, Left(locks[l].owners, sth));
      ReleasedFrame(s, l, Left(locks[l].owners, sth));
      var owners := LeaveOnce(locks[l].owners, sth, k);
      locks := locks[l := locks[l].(owners := owners)];
      if owners == [] {
        ChangeOwner(l);
      }
      ListsKept(s, Now(), subThreads, nextLock, nextThread, nextSub);
    }

    method LeaveOnce(owners: seq<Owner>, sth: SubThread, k: nat) returns (r: seq<Owner>)
      requires k == IndexOf(owners, sth) < |owners| && owners[k].recursion > 0
      ensures r == Left(owners, sth)
    {
      if owners[k].recursion > 1 {
        r := owners[k := Owner(sth, owners[k].recursion - 1)];
      } else {
        r := Remove(owners, k);
      }
    }

    /** DestroyOwner: a sub-thread gives up a lock however often it entered it. */
    method DestroyOwner(l: LockId, sth: SubThread)
      requires Valid() && l in locks
      modifies this`locks, this`held, this`subCount, this`threadCount, this`waiting, this`ready, this`asleep, this`resting
      ensures Valid() && Inv(old(Now())) && Now() == GivenUp(old(Now()), l, sth)
    {
      hide Inv, InvExcept, OwnersFit, Lists, Released;
      ghost var s := Now();
      EvictedOK(s, l, sth);
      ReleasedIs(s, l, Evicted(locks[l].owners, sth));
      ReleasedFrame(s, l, Evicted(locks[l].owners, sth));
      locks := locks[l := locks[l].(owners := Evicted(locks[l].owners, sth))];
      if locks[l].owners == [] {
        ChangeOwner(l);
      }
      ListsKept(s, Now(), subThreads, nextLock, nextThread, nextSub);
    }

    /** The walk over the thread's locks: a sub-thread gives all of them up, the next one being looked up
      * before a lock changes hands.  Afterwards each lock has met its fate, except one at most, that the
      * sub-thread got back when nothing else was left to visit. */
    method ReleaseLocks(th: Thread, sth: SubThread)
      requires Valid() && th in held && OfThisThread(threadOf, sth, th)
      modifies this`locks, this`held, this`subCount, this`threadCount, this`waiting, this`ready, this`asleep, this`resting
      ensures Valid() && Walked(old(Now()), Now(), th, sth) && Shrinks(old(Now()), Now())
      ensures forall l :: l in old(held)[th] ==> l in old(locks)
      ensures OwnsOnly(Now(), [], sth) <==> AllAccompanied(Visits(old(Now()), old(held)[th], th, sth))
      ensures exists last :: OwnsOnly(Now(), [last], sth)
    {
      hide Inv, InvExcept, Lists, Visits, AllAccompanied, GivenUp, Walked, OwnsOnly, Owns, Shrinks;
      ghost var s0 := Now();
      ShrinksStart(Now());
      ghost var goal := WalkStarts(s0, th, sth);
      ghost var last := 0;
      var i, more := 0, held[th] != [];
      while more
        invariant Valid() && th in held && Walked(s0, Now(), th, sth) && threadOf == s0.threadOf
        invariant Shrinks(s0, Now())
        invariant more ==> WalkAhead(Now(), th, sth, i) && OwnsOnly(Now(), held[th][i..], sth)
        invariant more ==> (goal <==> AllAccompanied(Visits(Now(), held[th][i..], th, sth)))
        invariant !more ==> OwnsOnly(Now(), [last], sth) && (goal <==> OwnsOnly(Now(), [], sth))
        decreases more, if more then VisitsLeft(Visits(Now(), held[th][i..], th, sth)) else 0
      {
        ghost var s := Now();
        var l := held[th][i];
        more := i + 1 < |held[th]|;
        DestroyOwner(l, sth);
        GivenUpShrinks(s, l, sth);
        ShrinksMore(s0, s, Now());
        GoesOn(s0, s, th, sth, i, more);
        if more && held[th][i] == l {
          i := i + 1;
        }
        last := l;
      }
    }

    /** DeleteLockRequests: a sub-thread stops waiting; all its requests leave their queues. */
    method DeleteLockRequests(sth: SubThread)
      requires Valid() && sth in threadOf
      modifies this`locks, this`subCount, this`threadCount, this`waiting, this`ready, this`asleep, this`resting
      ensures Valid() && sth in subCount && subCount[sth] == 0 && locks.Keys == old(locks).Keys
      ensures forall l :: l in old(locks) ==>
        locks[l] == old(locks)[l].(requests := WithoutRequests(old(locks)[l].requests, sth))
      ensures Shrinks(old(Now()), Now())
    {
      hide Inv, InvExcept, Lists, Thinned, NoneQueued, Shrinks, WithoutRequests;
      ghost var s0 := Now();
      InvIs(s0);
      SubThreadKnown(s0, sth);
      ShrinksStart(Now());
      ThinnedStart(s0, sth);
      if subCount[sth] != 0 {
        ListedHeld(s0);
        var resumed := DeleteInThreads(ready, sth);
        ghost var s1 := Now();
        ListedHeld(s1);
        var resumed' := DeleteInThreads(asleep, sth);
        ShrinksMore(s0, s1, Now());
        ThinnedMore(s0, s1, Now(), sth);
        BothLists(s0, s1, Now(), resumed, resumed', sth);
      } else {
        NothingQueued(s0, sth);
      }
      KnownStill(s0, Now(), sth);
      NothingLeft(Now(), sth);
      AllThinned(s0, Now(), sth);
    }

    /** The loops of DeleteLockRequests over the threads of a list and over their locks; they end once the
      * waiting thread runs again. */
    method DeleteInThreads(list: seq<Thread>, sth: SubThread) returns (resumed: bool)
      requires Valid() && sth in threadOf && forall t :: t in list ==> t in held
      modifies this`locks, this`subCount, this`threadCount, this`waiting, this`ready, this`asleep, this`resting
      ensures Valid() && Thinned(old(Now()), Now(), sth) && Shrinks(old(Now()), Now())
      ensures resumed ==> forall l :: NoneQueued(Now(), l, sth)
      ensures !resumed ==> ready == old(ready) && asleep == old(asleep)
      ensures !resumed ==> forall t, l :: t in list && t in held && l in held[t] ==> NoneQueued(Now(), l, sth)
    {
      hide Inv, InvExcept, Lists, Thinned, NoneQueued, Shrinks;
      ghost var s0 := Now();
      ShrinksStart(Now());
      ThinnedStart(s0, sth);
      var t := 0;
      while t < |list|
        invariant 0 <= t <= |list| && Valid() && Thinned(s0, Now(), sth) && Shrinks(s0, Now())
        invariant ready == s0.ready && asleep == s0.asleep
        invariant forall u, l :: u in list[..t] && u in held && l in held[u] ==> NoneQueued(Now(), l, sth)
      {
        ghost var s1 := Now();
        assert list[t] in held;
        resumed := DeleteInLocks(held[list[t]], sth) by {
          HeldLocks(s1, list[t]);
        }
        ShrinksMore(s0, s1, Now());
        ThinnedMore(s0, s1, Now(), sth);
        if resumed {
          return;
        }
        NoneStays(s1, Now(), sth);
        assert list[..t + 1] == list[..t] + [list[t]];
        t := t + 1;
      }
      assert list[..t] == list;
      resumed := false;
    }

    method DeleteInLocks(list: seq<LockId>, sth: SubThread) returns (resumed: bool)
      requires Valid() && sth in threadOf && forall l :: l in list ==> l in locks
      modifies this`locks, this`subCount, this`threadCount, this`waiting, this`ready, this`asleep, this`resting
      ensures Valid() && Thinned(old(Now()), Now(), sth) && Shrinks(old(Now()), Now())
      ensures resumed ==> forall l :: NoneQueued(Now(), l, sth)
      ensures !resumed ==> ready == old(ready) && asleep == old(asleep) && forall l :: l in list ==> NoneQueued(Now(), l, sth)
    {
      hide Inv, InvExcept, Lists, Thinned, NoneQueued, Shrinks;
      ghost var s0 := Now();
      ShrinksStart(Now());
      ThinnedStart(s0, sth);
      var k := 0;
      while k < |list|
        invariant 0 <= k <= |list| && Valid() && Thinned(s0, Now(), sth) && Shrinks(s0, Now())
        invariant ready == s0.ready && asleep == s0.asleep
        invariant forall l :: l in list[..k] ==> NoneQueued(Now(), l, sth)
      {
        ghost var s1 := Now();
        SameKeys(s0, s1, sth, list[k]);
        resumed := DeleteInQueue(list[k], sth);
        ShrinksMore(s0, s1, Now());
        ThinnedMore(s0, s1, Now(), sth);
        if resumed {
          return;
        }
        NoneStays(s1, Now(), sth);
        assert list[..k + 1] == list[..k] + [list[k]];
        k := k + 1;
      }
      assert list[..k] == list;
      resumed := false;
    }

    /** One queue. */
    method DeleteInQueue(l: LockId, sth: SubThread) returns (resumed: bool)
      requires Valid() && sth in threadOf && l in locks
      modifies this`locks, this`subCount, this`threadCount, this`waiting, this`ready, this`asleep, this`resting
      ensures Valid() && Thinned(old(Now()), Now(), sth) && Shrinks(old(Now()), Now())
      ensures resumed ==> forall m :: NoneQueued(Now(), m, sth)
      ensures !resumed ==> ready == old(ready) && asleep == old(asleep) && NoneQueued(Now(), l, sth)
    {
      hide Inv, InvExcept, Lists, Thinned, Shrinks, RequestGone;
      ghost var s0 := Now();
      ShrinksStart(Now());
      ThinnedStart(s0, sth);
      var i := 0;
      while i < |locks[l].requests|
        invariant l in locks && 0 <= i <= |locks[l].requests|
        invariant Valid() && Thinned(s0, Now(), sth) && Shrinks(s0, Now())
        invariant ready == s0.ready && asleep == s0.asleep
        invariant forall j :: 0 <= j < i ==> locks[l].requests[j].sth != sth
        decreases |locks[l].requests| - i
      {
        if locks[l].requests[i].sth == sth {
          resumed := DeleteOne(l, i, sth, s0);
          if resumed {
            return;
          }
        } else {
          i := i + 1;
        }
      }
      resumed := false;
    }

    /** One request. */
    method DeleteOne(l: LockId, i: nat, sth: SubThread, ghost s0: State) returns (resumed: bool)
      requires Valid() && sth in threadOf && l in locks && i < |locks[l].requests| && locks[l].requests[i].sth == sth
      requires Thinned(s0, Now(), sth) && Shrinks(s0, Now())
      modifies this`locks, this`subCount, this`threadCount, this`waiting, this`ready, this`asleep, this`resting
      ensures Valid() && Thinned(s0, Now(), sth) && Shrinks(s0, Now())
      ensures l in locks && locks[l].requests == Remove(old(locks)[l].requests, i)
      ensures resumed ==> forall m :: NoneQueued(Now(), m, sth)
      ensures !resumed ==> ready == old(ready) && asleep == old(asleep)
    {
      hide Inv, InvExcept, Lists, Thinned, Shrinks, NoneQueued, RequestGone;
      ghost var s := Now();
      InvIs(s);
      SubThreadKnown(s, sth);
      resumed := DropRequest(l, i, {});
      InvIs(Now());
      GoneSame(s, l, i);
      GoneThins(s, l, i, sth);
      GoneThreads(s, l, i);
      ThinnedMore(s0, s, Now(), sth);
      GoneShrinks(s, l, i);
      ShrinksMore(s0, s, Now());
      KnownStill(s, Now(), sth);
      if resumed {
        NothingCounted(Now(), sth);
      }
      ListsKept(s, Now(), subThreads, nextLock, nextThread, nextSub);
    }

    // ----- Time

    /** The lock part of CheckThreads over one of the two lists: the next thread is looked up before the
      * requests for a thread's locks are checked, which may move it. */
    method CheckThreads(first: Option<Thread>, now: int) returns (ghost visited: set<Thread>)
      requires Valid() && (first.Some? ==> first.value in held)
      modifies this`locks, this`subCount, this`threadCount, this`waiting, this`ready, this`asleep, this`resting
      ensures Valid() && Inv(old(Now())) && (Now(), visited) == Pass(old(Now()), first, now)
      ensures forall l :: l in locks ==>
        && l in old(locks)
        && locks[l] == if old(locks)[l].owningThread in visited then Expired(old(locks)[l], now) else old(locks)[l]
    {
      hide Inv, InvExcept, Lists, Pass, Visited, NextThread, StepsLeft, Queued;
      ghost var s0 := Now();
      var cur := first;
      visited := {};
      assert Pass(s0, first, now).1 + visited == Pass(s0, first, now).1;
      while cur.Some?
        invariant Valid() && (cur.Some? ==> cur.value in held)
        invariant Pass(s0, first, now) == (Pass(Now(), cur, now).0, Pass(Now(), cur, now).1 + visited)
        decreases |Queued(locks)|, StepsLeft(Now(), cur)
      {
        ghost var s := Now();
        VisitStep(s, cur.value, now);
        PassStep(s, cur, visited, now);
        var next := Next(cur.value);
        visited := visited + {cur.value};
        CheckLocks(cur.value, now);
        cur := next;
      }
      PassEnds(Now(), visited, now);
      PassChanges(s0, first, now);
    }

    method Next(th: Thread) returns (next: Option<Thread>)
      ensures next == NextThread(Now(), th)
    {
      next := if th in ready then Follower(ready, th) else Follower(asleep, th);
    }

    /** The queues of all locks of one thread: requests whose time is up leave. */
    method CheckLocks(th: Thread, now: int)
      requires Valid() && th in held
      modifies this`locks, this`subCount, this`threadCount, this`waiting, this`ready, this`asleep, this`resting
      ensures Valid() && Inv(old(Now())) && Now() == Visited(old(Now()), th, now)
    {
      hide Inv, InvExcept, Lists, RequestGone, At;
      ghost var s0 := Now();
      HeldAt(s0, th);
      var list := held[th];
      var k := 0;
      assert list[0..] == list;
      while k < |list|
        invariant 0 <= k <= |list| && Valid() && At(Now(), list[k..], 0)
        invariant Purged(s0, list, 0, now) == Purged(Now(), list[k..], 0, now)
      {
        var i := 0;
        PurgedHead(Now(), list, k);
        while i < |locks[list[k]].requests|
          invariant Valid() && k < |list| && list[k] in locks && i <= |locks[list[k]].requests| && At(Now(), list[k..], i)
          invariant Purged(s0, list, 0, now) == Purged(Now(), list[k..], i, now)
          decreases |locks[list[k]].requests| - i
        {
          ghost var s := Now();
          PurgedInside(s, list, k, i, now);
          if locks[list[k]].requests[i].timeExpire <= now {
            InvIs(s);
            var resumed := DropRequest(list[k], i, {});
            InvIs(Now());
            GoneSame(s, list[k], i);
            ListsKept(s, Now(), subThreads, nextLock, nextThread, nextSub);
          } else {
            i := i + 1;
          }
        }
        PurgedNext(Now(), list, k, now);
        k := k + 1;
      }
      PurgedOut(Now(), list[k..], now);
    }

    // ----- Destroying sub-threads

    /** DestroyInstance of a sub-thread: from the top of its thread down to it, every sub-thread pops its
      * frames, gives up its locks and its requests, and goes away; the lowest one may stay.  `frames` names
      * the objects that the frames of each sub-thread had synchronized on. */
    method DestroySubThreads(th: Thread, base: SubThread, includeSelf: bool, frames: map<SubThread, seq<int>>, ghost b: nat)
      requires Valid() && th in subThreads && b < |subThreads[th]| && subThreads[th][b] == base
      modifies this`locks, this`held, this`subCount, this`threadCount, this`waiting, this`ready, this`asleep, this`resting,
        this`subThreads
      ensures Valid() && th in old(subThreads) && Shrinks(old(Now()), Now())
      ensures subThreads == old(subThreads)[th := old(subThreads)[th][..if includeSelf then b else b + 1]]
      ensures forall x :: x in old(subThreads)[th][b..] ==> LetGo(old(Now()), Now(), x)
      ensures TornDown(old(Now()), Now(), th, old(subThreads)[th][b..], frames)
    {
      hide Inv, InvExcept, Lists, Shrinks, LetGo, TornDown, Destroyed;
      ghost var s0, list := Now(), subThreads[th];
      ShrinksStart(s0);
      assert list[..|list|] == list && list[|list|..] == [];
      NoneTornDown(s0, th, frames);
      Distinct(s0, subThreads, nextLock, nextThread, nextSub, th);
      while true
        invariant Valid() && th in subThreads && b < |subThreads[th]| <= |list| && Shrinks(s0, Now())
        invariant subThreads == old(subThreads)[th := list[..|subThreads[th]|]]
        invariant forall x :: x in list[|subThreads[th]|..] ==> LetGo(s0, Now(), x)
        invariant TornDown(s0, Now(), th, list[|subThreads[th]|..], frames)
        decreases |subThreads[th]|
      {
        ghost var s, n := Now(), |subThreads[th]| - 1;
        var sth := subThreads[th][|subThreads[th]| - 1];
        Topmost(s, subThreads, nextLock, nextThread, nextSub, list, th);
        DestroyOne(th, sth, FramesOf(frames, sth));
        OneTornDown(s0, s, Now(), th, list, n, frames);
        AllLetGo(s0, s, Now(), list, n);
        ShrinksMore(s0, s, Now());
        if sth == base {
          SamePosition(list, n, b);
          if !includeSelf {
            break;
          }
        }
        assert list[..n + 1][..n] == list[..n];
        Forget(th);
        if sth == base {
          break;
        }
      }
    }

    /** One sub-thread: its frames, its locks, its requests. */
    method DestroyOne(th: Thread, sth: SubThread, resources: seq<int>)
      requires Valid() && th in held && OfThisThread(threadOf, sth, th)
      modifies this`locks, this`held, this`subCount, this`threadCount, this`waiting, this`ready, this`asleep, this`resting
      ensures Valid() && Shrinks(old(Now()), Now()) && LetGo(old(Now()), Now(), sth)
      ensures Destroyed(old(Now()), Now(), th, sth, resources)
    {
      hide Inv, InvExcept, Lists, Shrinks, Walked, Visits, AllAccompanied, OwnsOnly, Owns, WithoutRequests, LeftBy, Idle, LetGo,
        Popped, Destroyed;
      ghost var s0 := Now();
      PopFrames(sth, resources);
      ghost var s1 := Now();
      SameHeldThreads(s0, s1, th);
      ReleaseLocks(th, sth);
      ghost var s2 := Now();
      DeleteLockRequests(sth);
      ShrinksMore(s0, s1, s2);
      ShrinksMore(s0, s2, Now());
      ReleasedAll(s0, s1, s2, th, sth);
      LetsGo(s0, s2, Now(), sth);
      IsDestroyed(s0, s1, s2, Now(), th, sth, resources);
    }

    /** Popping the frames of a sub-thread leaves the objects they were synchronized on. */
    method PopFrames(sth: SubThread, resources: seq<int>)
      requires Valid() && sth in threadOf
      modifies this`locks, this`held, this`subCount, this`threadCount, this`waiting, this`ready, this`asleep, this`resting
      ensures Valid() && Shrinks(old(Now()), Now()) && Popped(old(Now()), Now(), sth, resources)
    {
      hide Inv, InvExcept, Lists, Shrinks, LeftBy, LeftOK, Popped, Owns;
      ghost var s0 := Now();
      ShrinksStart(s0);
      NothingPopped(s0, sth);
      assert resources[..0] == [];
      var i := 0;
      while i < |resources|
        invariant 0 <= i <= |resources| && Valid() && Shrinks(s0, Now())
        invariant Popped(s0, Now(), sth, resources[..i])
      {
        ghost var s := Now();
        var hr, l := UnlockObject(resources[i], sth);
        ShrinksMore(s0, s, Now());
        assert SyncLeft(s, Now(), sth, resources[i]) by {
          if hr == Done {
            assert SyncLeftAt(s, Now(), sth, resources[i], l);
          }
        }
        OnePopped(s0, s, Now(), sth, resources, i);
        i := i + 1;
      }
      assert resources[..i] == resources;
    }

    /** The topmost sub-thread's record goes away. */
    method Forget(th: Thread)
      requires Valid() && th in subThreads && subThreads[th] != []
      modifies this`subThreads
      ensures Valid() && subThreads == old(subThreads)[th := old(subThreads)[th][..|old(subThreads)[th]| - 1]]
    {
      hide Inv;
      var n := |subThreads[th]| - 1;
      assert forall x :: x in subThreads[th][..n] ==> x in subThreads[th];
      subThreads := subThreads[th := subThreads[th][..n]];
      assert subThreads.Keys == old(subThreads).Keys;
    }
  }

  // ----- Facts the methods use

  lemma NothingYet(s: State)
    requires s == State(map[], map[], map[], map[], map[], {}, {}, [], [], map[], 0)
    ensures Inv(s) && Lists(s, map[], 0, 0, 0)
  {
    assert Queued(s.locks) == {};
  }

  lemma NewSubThread(s: State, subThreads: map<Thread, seq<SubThread>>, nextLock: LockId, nextThread: Thread,
                     nextSub: SubThread, th: Thread)
    requires Lists(s, subThreads, nextLock, nextThread, nextSub) && th in s.held
    ensures nextSub !in s.threadOf && th in subThreads
    ensures Lists(SubThreadCreated(s, nextSub, th), subThreads[th := subThreads[th] + [nextSub]], nextLock, nextThread,
                  nextSub + 1)
  {
    assert th in subThreads.Keys;
    var list := subThreads[th] + [nextSub];
    assert forall x :: x in list <==> x in subThreads[th] || x == nextSub;
    assert nextSub !in s.threadOf;
    assert nextSub !in subThreads[th];
    assert NoRepeats(list);
    assert subThreads[th := list].Keys == subThreads.Keys;
  }

  lemma NewThread(s: State, subThreads: map<Thread, seq<SubThread>>, nextLock: LockId, nextThread: Thread, nextSub: SubThread)
    requires Lists(s, subThreads, nextLock, nextThread, nextSub)
    ensures nextThread !in s.held
    ensures Lists(ThreadCreated(s, nextThread), subThreads[nextThread := []], nextLock, nextThread + 1, nextSub)
  {
    hide Inserted;
  }

  lemma NewLock(s: State, subThreads: map<Thread, seq<SubThread>>, nextLock: LockId, nextThread: Thread, nextSub: SubThread,
                s': State)
    requires Lists(s, subThreads, nextLock, nextThread, nextSub) && s'.threadOf == s.threadOf && s'.held.Keys == s.held.Keys
    requires forall l :: l in s'.locks ==> l in s.locks || l == nextLock
    ensures nextLock !in s.locks && Lists(s', subThreads, nextLock + 1, nextThread, nextSub)
  {
    assert forall t :: t in s'.held ==> t in s'.held.Keys;
  }

  lemma SubThreadKnown(s: State, sth: SubThread)
    requires InvExcept(s, {}) && sth in s.threadOf
    ensures Known(s, sth)
  {
    AllKnown(s, sth, {});
  }

  lemma OwnersOfLock(s: State, l: LockId)
    requires Inv(s) && l in s.locks
    ensures OwnersFit(s.threadOf, s.locks[l].owningThread, s.locks[l].owners) && s.locks[l].owners != []
    ensures forall m :: m in s.locks && s.locks[m].resource == s.locks[l].resource ==> m == l
  {
    hide QueuesOK, CountsOK, HeldOK, SchedOK, OwnersFit;
  }

  lemma OnlyItsLock(s: State, l: LockId, sth: SubThread)
    requires Inv(s) && l in s.locks && sth in s.threadOf
    requires s.locks[l].owningThread != s.threadOf[sth] || IndexOf(s.locks[l].owners, sth) == |s.locks[l].owners|
    ensures forall m :: m in s.locks && s.locks[m].resource == s.locks[l].resource ==> !Owns(s.locks[m], sth)
  {
    hide QueuesOK, CountsOK, HeldOK, SchedOK;
    OwnersOfLock(s, l);
  }

  /** Leaving once is possible for an owner. */
  ghost predicate LeftOK(s: State, l: LockId, sth: SubThread) {
    && Inv(s) && l in s.locks && Owns(s.locks[l], sth) && s.locks[l].owners[IndexOf(s.locks[l].owners, sth)].recursion > 0
    && OwnersFit(s.threadOf, s.locks[l].owningThread, Left(s.locks[l].owners, sth))
  }

  ghost function LeftBy(s: State, l: LockId, sth: SubThread): State
    requires LeftOK(s, l, sth)
  {
    Released(s, l, Left(s.locks[l].owners, sth))
  }

  lemma LeaveFits(s: State, l: LockId, sth: SubThread)
    requires Inv(s) && l in s.locks && Owns(s.locks[l], sth)
    ensures LeftOK(s, l, sth)
  {
    OwnersOfLock(s, l);
    LeftFits(s.threadOf, s.locks[l].owningThread, s.locks[l].owners, sth);
  }

  /** A release keeps the invariant and brings no locks, threads or sub-threads into being. */
  lemma ReleasedFrame(s: State, l: LockId, owners: seq<Owner>)
    requires Inv(s) && l in s.locks && OwnersFit(s.threadOf, s.locks[l].owningThread, owners)
    ensures var s' := Released(s, l, owners);
      && Inv(s') && s'.threadOf == s.threadOf && s'.held.Keys == s.held.Keys && (forall m :: m in s'.locks ==> m in s.locks)
      && s'.subCount.Keys == s.subCount.Keys
      && (forall x :: x in s.subCount && x in s'.subCount ==> s'.subCount[x] <= s.subCount[x])
  {
    hide Inv, InvExcept, OwnersFit, LockFreed, HandedOver, Released, OwnerChanged;
    ReleasedKeeps(s, l, owners);
    ReleasedIs(s, l, owners);
    if owners == [] {
      var s1 := OwnersSet(s, l, owners);
      ChangeSteps(s1, l);
      if s.locks[l].requests != [] {
        HandedOverIs(s1, l);
        HandedCounts(s1, l);
      } else {
        FreedFrame(s1, l);
      }
    }
  }

  lemma FreedFrame(s: State, l: LockId)
    requires l in s.locks && s.locks[l].owningThread in s.held
    ensures var s' := LockFreed(s, l);
      && s'.threadOf == s.threadOf && s'.held.Keys == s.held.Keys && (forall m :: m in s'.locks ==> m in s.locks)
      && s'.subCount == s.subCount
  {
    hide Unlinked;
  }

  lemma HandedCounts(s: State, l: LockId)
    requires l in s.locks && s.locks[l].requests != [] && s.locks[l].owningThread in s.held
    requires Known(s, s.locks[l].requests[0].sth)
    ensures var s', x := HandedOver(s, l), s.locks[l].requests[0].sth; s'.subCount == s.subCount[x := s.subCount[x] - 1]
  {
    hide Unlinked;
    RecountedCounts(s.(locks := WithoutAt(s.locks, l, 0)), s.locks[l].requests[0].sth, -1);
  }

  /** The sub-thread has no request queued. */
  predicate Idle(s: State, x: SubThread) {
    x in s.threadOf && x in s.subCount && s.subCount[x] <= 0
  }

  /** Nobody queues more than before, and who queues nowhere gains no lock. */
  ghost predicate Shrinks(s0: State, s: State) {
    && s.threadOf == s0.threadOf && s.held.Keys == s0.held.Keys && s.subCount.Keys == s0.subCount.Keys
    && (forall x :: x in s0.subCount && x in s.subCount ==> s.subCount[x] <= s0.subCount[x])
    && (forall x, l :: Idle(s0, x) && l in s.locks && Owns(s.locks[l], x) ==> l in s0.locks && Owns(s0.locks[l], x))
  }

  lemma ShrinksStart(s: State)
    ensures Shrinks(s, s)
  {
  }

  lemma ShrinksMore(s0: State, s1: State, s2: State)
    requires Shrinks(s0, s1) && Shrinks(s1, s2)
    ensures Shrinks(s0, s2)
  {
    hide Owns;
    forall x | Idle(s0, x) ensures Idle(s1, x) {
      assert x in s1.subCount.Keys;
    }
    assert forall x :: x in s0.subCount ==> x in s1.subCount.Keys;
  }

  lemma GivenUpShrinks(s: State, l: LockId, sth: SubThread)
    requires Inv(s) && l in s.locks
    ensures Shrinks(s, GivenUp(s, l, sth))
  {
    EvictedOK(s, l, sth);
    ReleasedFrame(s, l, Evicted(s.locks[l].owners, sth));
    forall x | IndexOf(Evicted(s.locks[l].owners, sth), x) < |Evicted(s.locks[l].owners, sth)| ensures Owns(s.locks[l], x) {
      IndexFound(s.locks[l].owners, Evicted(s.locks[l].owners, sth)[IndexOf(Evicted(s.locks[l].owners, sth), x)], x);
    }
    ReleasedShrinks(s, l, Evicted(s.locks[l].owners, sth));
  }

  lemma IndexFound(owners: seq<Owner>, o: Owner, x: SubThread)
    requires o in owners && o.sth == x
    ensures IndexOf(owners, x) < |owners|
  {
  }

  lemma GoneShrinks(s: State, l: LockId, i: nat)
    requires l in s.locks && i < |s.locks[l].requests| && Known(s, s.locks[l].requests[i].sth)
    ensures Shrinks(s, RequestGone(s, l, i))
  {
    hide Recounted;
    GoneSame(s, l, i);
    RecountedCounts(s.(locks := WithoutAt(s.locks, l, i)), s.locks[l].requests[i].sth, -1);
  }

  lemma KnownStill(s: State, s': State, sth: SubThread)
    requires Inv(s') && Known(s, sth) && s'.threadOf == s.threadOf
    ensures Known(s', sth)
  {
    AllKnown(s', sth, {});
  }

  lemma SameKeys(s0: State, s: State, sth: SubThread, l: LockId)
    requires Thinned(s0, s, sth) && l in s0.locks
    ensures l in s.locks
  {
  }

  lemma BothLists(s0: State, s1: State, s2: State, resumed: bool, resumed': bool, sth: SubThread)
    requires Inv(s2) && Thinned(s1, s2, sth) && s1.held == s0.held && s2.held == s0.held
    requires resumed ==> forall l :: NoneQueued(s1, l, sth)
    requires !resumed ==> s1.ready == s0.ready && s1.asleep == s0.asleep
    requires !resumed ==> forall t, l :: t in s0.ready && t in s1.held && l in s1.held[t] ==> NoneQueued(s1, l, sth)
    requires resumed' ==> forall l :: NoneQueued(s2, l, sth)
    requires !resumed' ==> s2.ready == s1.ready && s2.asleep == s1.asleep
    requires !resumed' ==> forall t, l :: t in s1.asleep && t in s2.held && l in s2.held[t] ==> NoneQueued(s2, l, sth)
    ensures forall l :: NoneQueued(s2, l, sth)
  {
    hide Inv, Thinned, NoneQueued;
    NoneStays(s1, s2, sth);
    if !resumed && !resumed' {
      EverywhereNone(s2, sth);
    }
  }

  lemma ListedHeld(s: State)
    requires Inv(s)
    ensures forall t :: t in s.ready || t in s.asleep ==> t in s.held
  {
    ThreadsOf(s);
    assert forall t :: t in s.held <==> t in s.held.Keys;
  }

  lemma PassStep(s: State, cur: Option<Thread>, visited: set<Thread>, now: int)
    requires Inv(s) && cur.Some? && cur.value in s.held && Inv(Visited(s, cur.value, now))
    requires var next := NextThread(s, cur.value); next.Some? ==> next.value in Visited(s, cur.value, now).held
    ensures var r, p := Pass(s, cur, now), Pass(Visited(s, cur.value, now), NextThread(s, cur.value), now);
      r.0 == p.0 && r.1 + visited == p.1 + (visited + {cur.value})
  {
    hide Inv, Visited, NextThread;
  }

  lemma PassEnds(s: State, visited: set<Thread>, now: int)
    requires Inv(s)
    ensures (Pass(s, None, now).0, Pass(s, None, now).1 + visited) == (s, visited)
  {
    assert {} + visited == visited;
  }

  lemma PassChanges(s: State, cur: Option<Thread>, now: int)
    requires Inv(s) && (cur.Some? ==> cur.value in s.held)
    ensures var r := Pass(s, cur, now);
      forall l :: l in r.0.locks ==>
        && l in s.locks
        && r.0.locks[l] == if s.locks[l].owningThread in r.1 then Expired(s.locks[l], now) else s.locks[l]
  {
    hide Inv, Pass;
    PassPurges(s, cur, now);
    assert forall l :: l in Pass(s, cur, now).0.locks <==> l in s.locks.Keys;
  }

  lemma PurgedHead(s: State, list: seq<LockId>, k: nat)
    requires k < |list| && At(s, list[k..], 0)
    ensures list[k] in s.locks
  {
    assert list[k] in list[k..];
  }

  lemma PurgedInside(s: State, list: seq<LockId>, k: nat, i: nat, now: int)
    requires Inv(s) && k < |list| && At(s, list[k..], i) && list[k] in s.locks && i < |s.locks[list[k]].requests|
    ensures Known(s, s.locks[list[k]].requests[i].sth)
    ensures s.locks[list[k]].requests[i].timeExpire <= now ==>
      var s1 := RequestGone(s, list[k], i);
      Inv(s1) && At(s1, list[k..], i) && Purged(s, list[k..], i, now) == Purged(s1, list[k..], i, now)
    ensures s.locks[list[k]].requests[i].timeExpire > now ==>
      At(s, list[k..], i + 1) && Purged(s, list[k..], i, now) == Purged(s, list[k..], i + 1, now)
  {
    hide Inv, RequestGone;
    assert list[k..][0] == list[k];
    GoneAt(s, list[k..], i);
  }

  lemma PurgedNext(s: State, list: seq<LockId>, k: nat, now: int)
    requires Inv(s) && k < |list| && list[k] in s.locks && At(s, list[k..], |s.locks[list[k]].requests|)
    ensures At(s, list[k + 1..], 0)
    ensures Purged(s, list[k..], |s.locks[list[k]].requests|, now) == Purged(s, list[k + 1..], 0, now)
  {
    hide Inv, RequestGone;
    assert list[k..][0] == list[k] && list[k..][1..] == list[k + 1..];
  }

  lemma PurgedOut(s: State, list: seq<LockId>, now: int)
    requires Inv(s) && list == []
    ensures At(s, list, 0) && Purged(s, list, 0, now) == s
  {
  }

  lemma ReleasedShrinks(s: State, l: LockId, owners: seq<Owner>)
    requires Inv(s) && l in s.locks && OwnersFit(s.threadOf, s.locks[l].owningThread, owners)
    requires forall x :: IndexOf(owners, x) < |owners| ==> Owns(s.locks[l], x)
    ensures Shrinks(s, Released(s, l, owners))
  {
    hide Inv, InvExcept, OwnersFit, LockFreed, HandedOver, Released, OwnerChanged, IndexOf;
    ReleasedFrame(s, l, owners);
    ReleasedIs(s, l, owners);
    if owners == [] {
      var s1 := OwnersSet(s, l, owners);
      ChangeSteps(s1, l);
      if s.locks[l].requests != [] {
        HandedOverIs(s1, l);
        var y := s.locks[l].requests[0].sth;
        forall x | Idle(s, x) ensures x != y && IndexOf([Owner(y, 1)], x) == 1 {
          IdleQueuesNowhere(s, x, l);
          SingleOwner(y, x);
        }
      } else {
        FreedIs(s1, l);
      }
    }
  }

  lemma IdleQueuesNowhere(s: State, x: SubThread, l: LockId)
    requires Inv(s) && Idle(s, x) && l in s.locks && s.locks[l].requests != []
    ensures s.locks[l].requests[0].sth != x
  {
    AllKnown(s, x, {});
    hide LocksOK, HeldOK, QueuesOK, SchedOK, Queued;
    NothingQueued(s, x);
    assert NoneQueued(s, l, x);
  }

  lemma FreedIs(s: State, l: LockId)
    requires l in s.locks && s.locks[l].owningThread in s.held
    ensures LockFreed(s, l).locks == s.locks - {l}
  {
  }

  lemma LeftShrinks(s: State, l: LockId, sth: SubThread)
    requires LeftOK(s, l, sth)
    ensures Shrinks(s, LeftBy(s, l, sth))
  {
    hide Inv, OwnersFit, Released;
    var owners, left := s.locks[l].owners, Left(s.locks[l].owners, sth);
    forall x | IndexOf(left, x) < |left| ensures Owns(s.locks[l], x) {
      var o := left[IndexOf(left, x)];
      if o in owners {
        IndexFound(owners, o, x);
      } else {
        assert x == sth;
      }
    }
    ReleasedShrinks(s, l, left);
  }

  /** The sub-thread queues nowhere any more, and owns no lock, except one at most if it had requests
    * queued before. */
  /** A frame leaves the object it was synchronized on, if its sub-thread still owns the lock. */
  ghost predicate SyncLeft(s: State, s': State, x: SubThread, resource: int) {
    || (s' == s && forall l :: l in s.locks && s.locks[l].resource == resource ==> !Owns(s.locks[l], x))
    || exists l :: SyncLeftAt(s, s', x, resource, l)
  }

  ghost predicate SyncLeftAt(s: State, s': State, x: SubThread, resource: int, l: LockId) {
    l in s.locks && s.locks[l].resource == resource && Owns(s.locks[l], x) && LeftOK(s, l, x) && s' == LeftBy(s, l, x)
  }

  /** The frames leave their objects one after the other. */
  ghost predicate Popped(s0: State, s: State, x: SubThread, resources: seq<int>)
    decreases resources
  {
    if resources == [] then s == s0
    else
      var n := |resources| - 1;
      exists mid: State :: Popped(s0, mid, x, resources[..n]) && SyncLeft(mid, s, x, resources[n])
  }

  lemma NothingPopped(s: State, x: SubThread)
    ensures Popped(s, s, x, [])
  {
  }

  lemma OnePopped(s0: State, s: State, s': State, x: SubThread, resources: seq<int>, i: nat)
    requires i < |resources| && Popped(s0, s, x, resources[..i]) && SyncLeft(s, s', x, resources[i])
    ensures Popped(s0, s', x, resources[..i + 1])
  {
    hide SyncLeft;
    assert resources[..i + 1][..i] == resources[..i];
  }

  /** First the frames leave their objects, then the locks go, then the requests. */
  ghost predicate Destroyed(s0: State, s: State, th: Thread, x: SubThread, resources: seq<int>) {
    exists s1: State, s2: State :: Popped(s0, s1, x, resources) && Walked(s1, s2, th, x) && RequestsDropped(s2, s, x)
  }

  ghost predicate RequestsDropped(s: State, s': State, x: SubThread) {
    && s'.locks.Keys == s.locks.Keys
    && forall l :: l in s.locks && l in s'.locks ==> s'.locks[l] == s.locks[l].(requests := WithoutRequests(s.locks[l].requests, x))
  }

  lemma IsDestroyed(s0: State, s1: State, s2: State, s: State, th: Thread, x: SubThread, resources: seq<int>)
    requires Popped(s0, s1, x, resources) && Walked(s1, s2, th, x) && RequestsDropped(s2, s, x)
    ensures Destroyed(s0, s, th, x, resources)
  {
  }

  function FramesOf(frames: map<SubThread, seq<int>>, x: SubThread): seq<int> {
    if x in frames then frames[x] else []
  }

  /** The sub-threads of a list are destroyed one after the other, the last one first. */
  ghost predicate TornDown(s0: State, s: State, th: Thread, doomed: seq<SubThread>, frames: map<SubThread, seq<int>>)
    decreases doomed
  {
    if doomed == [] then s == s0
    else
      exists mid: State :: TornDown(s0, mid, th, doomed[1..], frames) && Destroyed(mid, s, th, doomed[0], FramesOf(frames, doomed[0]))
  }

  lemma NoneTornDown(s: State, th: Thread, frames: map<SubThread, seq<int>>)
    ensures TornDown(s, s, th, [], frames)
  {
  }

  lemma OneTornDown(s0: State, s: State, s': State, th: Thread, list: seq<SubThread>, n: nat, frames: map<SubThread, seq<int>>)
    requires n < |list| && TornDown(s0, s, th, list[n + 1..], frames) && Destroyed(s, s', th, list[n], FramesOf(frames, list[n]))
    ensures TornDown(s0, s', th, list[n..], frames)
  {
    hide Destroyed;
    assert list[n..][1..] == list[n + 1..];
  }

  ghost predicate LetGo(s0: State, s: State, x: SubThread) {
    && x in s0.threadOf && Idle(s, x)
    && (exists last :: OwnsOnly(s, [last], x))
    && (Idle(s0, x) ==> OwnsOnly(s, [], x))
  }

  lemma OwnsNoMore(s: State, s': State, rest: seq<LockId>, x: SubThread)
    requires Shrinks(s, s') && Idle(s, x) && OwnsOnly(s, rest, x)
    ensures OwnsOnly(s', rest, x)
  {
  }

  lemma StillLetGo(s0: State, s: State, s': State, x: SubThread)
    requires LetGo(s0, s, x) && Shrinks(s, s')
    ensures LetGo(s0, s', x)
  {
    hide OwnsOnly, Owns;
    var last :| OwnsOnly(s, [last], x);
    assert x in s'.subCount.Keys;
    OwnsNoMore(s, s', [last], x);
    if Idle(s0, x) {
      OwnsNoMore(s, s', [], x);
    }
  }

  lemma AllLetGo(s0: State, s: State, s': State, list: seq<SubThread>, n: nat)
    requires n < |list| && Shrinks(s0, s) && Shrinks(s, s') && LetGo(s, s', list[n])
    requires forall x :: x in list[n + 1..] ==> LetGo(s0, s, x)
    ensures forall x :: x in list[n..] ==> LetGo(s0, s', x)
  {
    hide Shrinks, LetGo;
    assert list[n..] == [list[n]] + list[n + 1..];
    forall x | x in list[n + 1..] ensures LetGo(s0, s', x) {
      StillLetGo(s0, s, s', x);
    }
    LetGoSince(s0, s, s', list[n]);
  }

  lemma LetGoSince(s0: State, s: State, s': State, x: SubThread)
    requires Shrinks(s0, s) && LetGo(s, s', x)
    ensures LetGo(s0, s', x)
  {
    hide OwnsOnly, Owns;
    assert Idle(s0, x) ==> x in s.subCount.Keys;
  }

  lemma Topmost(s: State, subThreads: map<Thread, seq<SubThread>>, nextLock: LockId, nextThread: Thread, nextSub: SubThread,
                list: seq<SubThread>, th: Thread)
    requires Lists(s, subThreads, nextLock, nextThread, nextSub) && th in subThreads && subThreads[th] != []
    requires |subThreads[th]| <= |list| && subThreads[th] == list[..|subThreads[th]|]
    ensures var n := |subThreads[th]| - 1;
      OfThisThread(s.threadOf, subThreads[th][n], th) && th in s.held && subThreads[th][n] == list[n]
  {
    assert subThreads[th][|subThreads[th]| - 1] in subThreads[th] && th in subThreads.Keys;
  }

  lemma Distinct(s: State, subThreads: map<Thread, seq<SubThread>>, nextLock: LockId, nextThread: Thread,
                 nextSub: SubThread, th: Thread)
    requires Lists(s, subThreads, nextLock, nextThread, nextSub) && th in subThreads
    ensures NoRepeats(subThreads[th])
  {
  }

  lemma SamePosition(list: seq<nat>, n: nat, b: nat)
    requires NoRepeats(list) && n < |list| && b < |list| && list[n] == list[b]
    ensures n == b
  {
  }

  lemma SameHeldThreads(s: State, s': State, th: Thread)
    requires Shrinks(s, s') && th in s.held
    ensures th in s'.held && s'.threadOf == s.threadOf
  {
    assert th in s'.held.Keys;
  }

  /** Deleting requests leaves the owners alone. */
  lemma SameOwnersThen(s: State, s': State, last: LockId, sth: SubThread)
    requires s'.locks.Keys == s.locks.Keys && OwnsOnly(s, [last], sth)
    requires forall l :: l in s.locks ==> s'.locks[l].owners == s.locks[l].owners
    ensures OwnsOnly(s', [last], sth) && (OwnsOnly(s, [], sth) ==> OwnsOnly(s', [], sth))
  {
  }

  /** Without requests of its own a sub-thread gives all its locks up for good. */
  lemma ReleasedAll(s0: State, s1: State, s2: State, th: Thread, sth: SubThread)
    requires Inv(s1) && Shrinks(s0, s1) && th in s1.held && OfThisThread(s1.threadOf, sth, th)
    requires forall l :: l in s1.held[th] ==> l in s1.locks
    requires OwnsOnly(s2, [], sth) <==> AllAccompanied(Visits(s1, s1.held[th], th, sth))
    ensures Idle(s0, sth) ==> OwnsOnly(s2, [], sth)
  {
    hide Inv, Evicted, OwnsOnly, Owns;
    if Idle(s0, sth) {
      assert sth in s1.subCount.Keys;
      var q := Visits(s1, s1.held[th], th, sth);
      forall i | 0 <= i < |q| ensures Accompanied(q, i) {
        var l := s1.held[th][i];
        assert l in s1.held[th];
        if s1.locks[l].requests != [] {
          IdleQueuesNowhere(s1, sth, l);
        }
      }
    }
  }

  lemma LetsGo(s0: State, s2: State, s3: State, sth: SubThread)
    requires s3.locks.Keys == s2.locks.Keys && forall l :: l in s2.locks ==> s3.locks[l].owners == s2.locks[l].owners
    requires exists last :: OwnsOnly(s2, [last], sth)
    requires Idle(s0, sth) ==> OwnsOnly(s2, [], sth)
    requires sth in s0.threadOf && sth in s3.threadOf && sth in s3.subCount && s3.subCount[sth] == 0
    ensures LetGo(s0, s3, sth)
  {
    hide OwnsOnly;
    var last :| OwnsOnly(s2, [last], sth);
    SameOwnersThen(s2, s3, last, sth);
  }
}
