/** A run in which a pass of CheckThreads overlooks a request whose time is up. */
module OverlookedRequests {
  import opened LockStates
  import opened LockFacts
  import opened LockSteps
  import opened TimeoutPasses
  import opened PassReaches

  /** Thread `t` stops for something other than a lock. */
  function GoesToRest(s: State, t: Thread): State {
    Listed(Rested(s, t), t)
  }

  lemma RestIs(s: State, t: Thread)
    requires Inv(s) && t in s.held && t !in s.asleep
    ensures var s' := GoesToRest(s, t);
      && Inv(s') && s'.locks == s.locks && s'.threadOf == s.threadOf && s'.held == s.held && s'.subCount == s.subCount
      && s'.threadCount == s.threadCount && s'.asleep == s.asleep + [t] && s'.clock == s.clock
  {
    hide Inv, Inserted;
    RestedKeeps(s, t);
    ListedKeeps(Rested(s, t), t);
    UnlinkedNothing(s.asleep, t);
  }

  /** A thread goes to sleep with a lock, and another one queues for it until `e` and sleeps, too. */
  function SleepsWith(s: State, l: LockId, x: SubThread, y: SubThread, e: int): (s': State)
    requires Known(s, x) && Known(s, y)
    ensures forall z :: Known(s, z) ==> Known(s', z)
  {
    AsksFor(GoesToRest(LockCreated(s, l, l, x), s.threadOf[x]), l, y, e)
  }

  lemma SleepsWithIs(s: State, l: LockId, x: SubThread, y: SubThread, e: int)
    requires Inv(s) && Known(s, x) && Known(s, y) && l !in s.locks && forall m :: m in s.locks ==> s.locks[m].resource != l
    requires s.threadOf[x] != s.threadOf[y] && s.threadOf[x] !in s.asleep && s.threadOf[y] !in s.asleep
    ensures var s', a, b := SleepsWith(s, l, x, y, e), s.threadOf[x], s.threadOf[y];
      && Inv(s') && s'.locks == s.locks[l := Lock(a, l, [Owner(x, 1)], [Request(y, e, s.clock)])]
      && s'.asleep == s.asleep + [a, b] && s'.threadOf == s.threadOf && s'.clock == s.clock + 1
  {
    hide Inv, RequestAdded, Listed, Rested, AsksFor, GoesToRest;
    LockCreatedKeeps(s, l, l, x);
    var s1 := LockCreated(s, l, l, x);
    RestIs(s1, s.threadOf[x]);
    var s2 := GoesToRest(s1, s.threadOf[x]);
    AskIs(s2, l, y, e);
    assert s.threadOf[y] !in s2.asleep;
    UnlinkedNothing(s2.asleep, s.threadOf[y]);
    assert s.asleep + [s.threadOf[x]] + [s.threadOf[y]] == s.asleep + [s.threadOf[x], s.threadOf[y]];
    hide LockCreated;
    assert s2.locks[l].requests + [Request(y, e, s.clock)] == [Request(y, e, s.clock)];
  }

  ghost predicate FourThreads(s: State, xa: SubThread, xb: SubThread, xc: SubThread, xd: SubThread) {
    && Known(s, xa) && Known(s, xb) && Known(s, xc) && Known(s, xd)
    && var a, b, c, d := s.threadOf[xa], s.threadOf[xb], s.threadOf[xc], s.threadOf[xd];
      a != b && a != c && a != d && b != c && b != d && c != d
  }

  ghost function FourSleepers(s: State, xa: SubThread, xb: SubThread, xc: SubThread, xd: SubThread, e: int): State
    requires FourThreads(s, xa, xb, xc, xd)
  {
    SleepsWith(SleepsWith(s, 0, xa, xb, e), 1, xc, xd, e)
  }

  /** The first sleeper's visit frees the second one, the walk follows that one to the ready list, and the
    * third one is not visited: its lock keeps the request of the fourth, though its time is up. */
  lemma RequestOverlooked(s: State, xa: SubThread, xb: SubThread, xc: SubThread, xd: SubThread, e: int)
    requires Inv(s) && s.locks == map[] && s.asleep == [] && FourThreads(s, xa, xb, xc, xd)
    ensures var s1 := FourSleepers(s, xa, xb, xc, xd, e);
      && Inv(s1) && s1.asleep == [s.threadOf[xa], s.threadOf[xb], s.threadOf[xc], s.threadOf[xd]] && s1.asleep[0] in s1.held
      && var r := Pass(s1, Some(s1.asleep[0]), e);
      && s.threadOf[xc] !in r.1 && 1 in r.0.locks && r.0.locks[1].requests == [Request(xd, e, s.clock + 1)]
  {
    hide Inv, Pass, SleepsWith;
    SleepsWithIs(s, 0, xa, xb, e);
    SleepsWithIs(SleepsWith(s, 0, xa, xb, e), 1, xc, xd, e);
    var s1 := FourSleepers(s, xa, xb, xc, xd, e);
    SecondRunsDry(s1, s.threadOf[xa], s.threadOf[xb], e);
    ThirdIsIdle(s1, s.threadOf[xc]);
    hide Frees;
    ThirdIsMissed(s1, e);
  }

  lemma SecondRunsDry(s: State, a: Thread, b: Thread, now: int)
    requires s.locks.Keys == {0, 1} && |s.locks[0].requests| == 1 && |s.locks[1].requests| == 1 && s.locks[0].owningThread == a
    requires RequestOf(s, b, 0, 0) && !RequestOf(s, b, 1, 0) && s.locks[0].requests[0].timeExpire <= now
    requires |s.asleep| == 4 && s.asleep[0] == a && s.asleep[1] == b
    ensures Frees(s, now, 0, 1)
  {
    assert s.asleep[..1] == [a] && SetOf([a]) == {a};
    forall l, i: nat | RequestOf(s, b, l, i)
      ensures s.locks[l].requests[i].timeExpire <= now && s.locks[l].owningThread in {a}
    {
      assert l in s.locks.Keys;
    }
  }

  lemma ThirdIsIdle(s: State, c: Thread)
    requires Inv(s) && s.locks.Keys == {0, 1} && |s.locks[0].requests| == 1 && |s.locks[1].requests| == 1
    requires !RequestOf(s, c, 0, 0) && !RequestOf(s, c, 1, 0) && c in s.asleep
    ensures c in s.threadCount && s.threadCount[c] == 0
  {
    hide Inv;
    SleeperHeld(s, c);
    CountsQueue(s, c);
    forall l, i: nat ensures !RequestOf(s, c, l, i) {
      if l in s.locks.Keys && i < |s.locks[l].requests| {
        assert i == 0;
      }
    }
  }
}
