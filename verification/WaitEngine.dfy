/** Waiting for signals: wait-any and wait-all over objects that may reset themselves. */
module WaitEngines {

  type Thread = nat
  type Obj = nat

  const HANDLE_ALL := 0x103
  const TIMED_OUT := 0x102
  const MAX_OBJECTS := 64

  datatype Option<T> = None | Some(value: T)

  datatype Wait = Wait(timeExpire: int, objects: seq<Obj>, waitAll: bool)

  datatype Outcome = Done | ThreadWaiting | InvalidParameter | NullReference

  /** The condition a thread waits for. */
  predicate Satisfied(signaled: set<Obj>, objects: seq<Obj>, waitAll: bool) {
    if waitAll then forall i :: 0 <= i < |objects| ==> objects[i] in signaled
    else exists i :: 0 <= i < |objects| && objects[i] in signaled
  }

  /** The first signaled object of the list, or the length of the list. */
  function FirstSignaled(signaled: set<Obj>, objects: seq<Obj>): (i: nat)
    ensures i <= |objects| && (forall j :: 0 <= j < i ==> objects[j] !in signaled)
    ensures i < |objects| ==> objects[i] in signaled
  {
    if objects == [] || objects[0] in signaled then 0 else 1 + FirstSignaled(signaled, objects[1..])
  }

  function Members(objects: seq<Obj>): set<Obj> {
    set o | o in objects
  }

  /** The signals left after a satisfied wait: wait-all takes those of all its self-resetting
    * objects, wait-any that of its first signaled one. */
  function Consumed(signaled: set<Obj>, autoReset: set<Obj>, objects: seq<Obj>, waitAll: bool): set<Obj> {
    if waitAll then signaled - autoReset * Members(objects)
    else
      var i := FirstSignaled(signaled, objects);
      if i < |objects| then signaled - autoReset * {objects[i]} else signaled
  }

  function ResultOf(signaled: set<Obj>, objects: seq<Obj>, waitAll: bool): int {
    if waitAll then HANDLE_ALL else FirstSignaled(signaled, objects)
  }

  /** Fewer signals satisfy fewer waits. */
  lemma SatisfiedMonotone(fewer: set<Obj>, more: set<Obj>, objects: seq<Obj>, waitAll: bool)
    requires fewer <= more && Satisfied(fewer, objects, waitAll)
    ensures Satisfied(more, objects, waitAll)
  {
    if !waitAll {
      var i :| 0 <= i < |objects| && objects[i] in fewer;
      assert objects[i] in more;
    }
  }

  // ----- Delivery of a signal

  datatype Release = Release(thread: Thread, result: int)

  /** What is left of the signals and of the waiting threads, and who was released with what result. */
  datatype Delivery = Delivery(signaled: set<Obj>, waiting: seq<Thread>, released: seq<Release>)

  /** Goes through the waiting threads in order until the object is not signaled any more. */
  function Deliver(obj: Obj, signaled: set<Obj>, autoReset: set<Obj>, waits: map<Thread, Wait>,
                   waiting: seq<Thread>): Delivery {
    if waiting == [] || obj !in signaled then Delivery(signaled, waiting, [])
    else
      var th := waiting[0];
      if th in waits && Satisfied(signaled, waits[th].objects, waits[th].waitAll) then
        var w := waits[th];
        var rest := Deliver(obj, Consumed(signaled, autoReset, w.objects, w.waitAll), autoReset, waits, waiting[1..]);
        rest.(released := [Release(th, ResultOf(signaled, w.objects, w.waitAll))] + rest.released)
      else
        var rest := Deliver(obj, signaled, autoReset, waits, waiting[1..]);
        rest.(waiting := [th] + rest.waiting)
  }

  /** No waiting thread's condition holds. */
  ghost predicate NobodyMissed(signaled: set<Obj>, waits: map<Thread, Wait>, waiting: seq<Thread>) {
    forall th :: th in waiting && th in waits ==> !Satisfied(signaled, waits[th].objects, waits[th].waitAll)
  }

  lemma FewerSignals(fewer: set<Obj>, more: set<Obj>, waits: map<Thread, Wait>, waiting: seq<Thread>)
    requires fewer <= more && NobodyMissed(more, waits, waiting)
    ensures NobodyMissed(fewer, waits, waiting)
  {
  }

  /** No wake-up is lost by stopping early: whoever is not reached only lacked the signal that was
    * consumed before. */
  lemma {:induction false} DeliverMissesNobody(obj: Obj, signaled: set<Obj>, autoReset: set<Obj>, waits: map<Thread, Wait>,
                                               waiting: seq<Thread>)
    requires NobodyMissed(signaled - {obj}, waits, waiting)
    ensures var d := Deliver(obj, signaled, autoReset, waits, waiting);
      && NobodyMissed(d.signaled, waits, d.waiting) && d.signaled <= signaled
      && (forall th :: th in d.waiting ==> th in waiting)
  {
    if waiting == [] || obj !in signaled {
      assert signaled - {obj} == signaled || waiting == [];
    } else {
      var th := waiting[0];
      assert forall t :: t in waiting[1..] ==> t in waiting;
      assert NobodyMissed(signaled - {obj}, waits, waiting[1..]);
      if th in waits && Satisfied(signaled, waits[th].objects, waits[th].waitAll) {
        var left := Consumed(signaled, autoReset, waits[th].objects, waits[th].waitAll);
        FewerSignals(left - {obj}, signaled - {obj}, waits, waiting[1..]);
        DeliverMissesNobody(obj, left, autoReset, waits, waiting[1..]);
      } else {
        DeliverMissesNobody(obj, signaled, autoReset, waits, waiting[1..]);
        var d := Deliver(obj, signaled, autoReset, waits, waiting[1..]);
        forall t | t in [th] + d.waiting && t in waits ensures !Satisfied(d.signaled, waits[t].objects, waits[t].waitAll) {
          if t == th && Satisfied(d.signaled, waits[t].objects, waits[t].waitAll) {
            SatisfiedMonotone(d.signaled, signaled, waits[t].objects, waits[t].waitAll);
          }
        }
      }
    }
  }

  /** A thread that was not satisfied without the object consumes its signal when it is released. */
  lemma ReleaseUsesObject(obj: Obj, signaled: set<Obj>, autoReset: set<Obj>, objects: seq<Obj>, waitAll: bool)
    requires !Satisfied(signaled - {obj}, objects, waitAll) && Satisfied(signaled, objects, waitAll) && obj in autoReset
    ensures obj !in Consumed(signaled, autoReset, objects, waitAll)
  {
    if waitAll {
      var i :| 0 <= i < |objects| && objects[i] !in signaled - {obj};
      assert objects[i] == obj;
    } else {
      var k :| 0 <= k < |objects| && objects[k] in signaled;
      var i := FirstSignaled(signaled, objects);
      assert objects[i] !in signaled - {obj};
    }
  }

  /** One signal of a self-resetting object releases at most one thread, the first in the waiting
    * list that it satisfies; everybody else keeps waiting in order. */
  lemma {:induction false} OneSignalOneThread(obj: Obj, signaled: set<Obj>, autoReset: set<Obj>, waits: map<Thread, Wait>,
                                              waiting: seq<Thread>)
    requires NobodyMissed(signaled - {obj}, waits, waiting) && obj in autoReset
    ensures var d := Deliver(obj, signaled, autoReset, waits, waiting);
      && |d.released| <= 1
      && (d.released == [] ==> d.waiting == waiting && d.signaled == signaled)
      && (d.released != [] ==> exists i :: 0 <= i < |waiting| && ReleasedAt(d, obj, signaled, autoReset, waits, waiting, i))
  {
    var d := Deliver(obj, signaled, autoReset, waits, waiting);
    if waiting != [] && obj in signaled {
      var th := waiting[0];
      assert waiting == [th] + waiting[1..];
      assert NobodyMissed(signaled - {obj}, waits, waiting[1..]) by {
        assert forall t :: t in waiting[1..] ==> t in waiting;
      }
      if th in waits && Satisfied(signaled, waits[th].objects, waits[th].waitAll) {
        assert th in waiting;
        ReleaseUsesObject(obj, signaled, autoReset, waits[th].objects, waits[th].waitAll);
        assert ReleasedAt(d, obj, signaled, autoReset, waits, waiting, 0);
      } else {
        OneSignalOneThread(obj, signaled, autoReset, waits, waiting[1..]);
        var e := Deliver(obj, signaled, autoReset, waits, waiting[1..]);
        if e.released != [] {
          var i :| 0 <= i < |waiting[1..]| && ReleasedAt(e, obj, signaled, autoReset, waits, waiting[1..], i);
          assert ReleasedAt(d, obj, signaled, autoReset, waits, waiting, i + 1) by {
            assert waiting[..i + 1] + waiting[i + 2..] == [th] + (waiting[1..][..i] + waiting[1..][i + 1..]);
          }
        }
      }
    }
  }

  ghost predicate ReleasedAt(d: Delivery, obj: Obj, signaled: set<Obj>, autoReset: set<Obj>, waits: map<Thread, Wait>,
                             waiting: seq<Thread>, i: int)
    requires 0 <= i < |waiting|
  {
    && |d.released| == 1 && d.released[0].thread == waiting[i] && d.waiting == waiting[..i] + waiting[i + 1..] && obj !in d.signaled
    && waiting[i] in waits && Satisfied(signaled, waits[waiting[i]].objects, waits[waiting[i]].waitAll)
    && d.signaled == Consumed(signaled, autoReset, waits[waiting[i]].objects, waits[waiting[i]].waitAll)
    && (forall j :: 0 <= j < i && waiting[j] in waits ==>
          !Satisfied(signaled, waits[waiting[j]].objects, waits[waiting[j]].waitAll))
  }

  /** What the delivery posts as the results of the released threads. */
  function Posted(results: map<Thread, int>, released: seq<Release>): map<Thread, int>
    decreases released
  {
    if released == [] then results
    else Posted(results[released[0].thread := released[0].result], released[1..])
  }

  function Threads(released: seq<Release>): (s: set<Thread>)
    ensures released != [] ==> s == {released[0].thread} + Threads(released[1..])
  {
    if released == [] then {} else {released[0].thread} + Threads(released[1..])
  }

  /** The delivery that is still to do in the current state ends where the whole one does. */
  ghost predicate Along(whole: Delivery, obj: Obj, signaled: set<Obj>, autoReset: set<Obj>, waits: map<Thread, Wait>,
                        kept: seq<Thread>, rest: seq<Thread>, results: map<Thread, int>, results0: map<Thread, int>,
                        freed: set<Thread>)
  {
    var d := Deliver(obj, signaled, autoReset, waits, rest);
    && whole.signaled == d.signaled && whole.waiting == kept + d.waiting
    && Posted(results0, whole.released) == Posted(results, d.released)
    && Threads(whole.released) == freed + Threads(d.released)
  }

  lemma AlongStart(obj: Obj, signaled: set<Obj>, autoReset: set<Obj>, waits: map<Thread, Wait>, waiting: seq<Thread>,
                   results: map<Thread, int>)
    ensures Along(Deliver(obj, signaled, autoReset, waits, waiting), obj, signaled, autoReset, waits, [], waiting,
                  results, results, {})
  {
    var d := Deliver(obj, signaled, autoReset, waits, waiting);
    assert [] + d.waiting == d.waiting;
  }

  lemma AlongReleased(whole: Delivery, obj: Obj, signaled: set<Obj>, autoReset: set<Obj>, waits: map<Thread, Wait>,
                      kept: seq<Thread>, rest: seq<Thread>, results: map<Thread, int>, results0: map<Thread, int>,
                      freed: set<Thread>)
    requires Along(whole, obj, signaled, autoReset, waits, kept, rest, results, results0, freed)
    requires rest != [] && obj in signaled && rest[0] in waits
    requires Satisfied(signaled, waits[rest[0]].objects, waits[rest[0]].waitAll)
    ensures var w := waits[rest[0]];
      Along(whole, obj, Consumed(signaled, autoReset, w.objects, w.waitAll), autoReset, waits, kept, rest[1..],
            results[rest[0] := ResultOf(signaled, w.objects, w.waitAll)], results0, freed + {rest[0]})
  {
    hide Satisfied, Consumed, ResultOf;
    var w := waits[rest[0]];
    var left := Consumed(signaled, autoReset, w.objects, w.waitAll);
    var r := Release(rest[0], ResultOf(signaled, w.objects, w.waitAll));
    var d := Deliver(obj, signaled, autoReset, waits, rest);
    var e := Deliver(obj, left, autoReset, waits, rest[1..]);
    assert d == e.(released := [r] + e.released);
    assert d.released[0] == r && d.released[1..] == e.released;
    assert Threads(d.released) == {rest[0]} + Threads(e.released);
  }

  lemma AlongKept(whole: Delivery, obj: Obj, signaled: set<Obj>, autoReset: set<Obj>, waits: map<Thread, Wait>,
                  kept: seq<Thread>, rest: seq<Thread>, results: map<Thread, int>, results0: map<Thread, int>,
                  freed: set<Thread>)
    requires Along(whole, obj, signaled, autoReset, waits, kept, rest, results, results0, freed)
    requires rest != [] && obj in signaled
    requires rest[0] !in waits || !Satisfied(signaled, waits[rest[0]].objects, waits[rest[0]].waitAll)
    ensures Along(whole, obj, signaled, autoReset, waits, kept + [rest[0]], rest[1..], results, results0, freed)
  {
    hide Satisfied, Consumed, ResultOf;
    var e := Deliver(obj, signaled, autoReset, waits, rest[1..]);
    assert Deliver(obj, signaled, autoReset, waits, rest) == e.(waiting := [rest[0]] + e.waiting);
    assert kept + ([rest[0]] + e.waiting) == kept + [rest[0]] + e.waiting;
  }

  lemma AlongDone(whole: Delivery, obj: Obj, signaled: set<Obj>, autoReset: set<Obj>, waits: map<Thread, Wait>,
                  kept: seq<Thread>, rest: seq<Thread>, results: map<Thread, int>, results0: map<Thread, int>,
                  freed: set<Thread>)
    requires Along(whole, obj, signaled, autoReset, waits, kept, rest, results, results0, freed)
    requires rest == [] || obj !in signaled
    ensures whole.signaled == signaled && whole.waiting == kept + rest
    ensures results == Posted(results0, whole.released) && freed == Threads(whole.released)
  {
    assert Deliver(obj, signaled, autoReset, waits, rest) == Delivery(signaled, rest, []);
  }

  /** Setting the signal and delivering it leaves nobody behind who could run. */
  lemma SignalMissesNobody(obj: Obj, signaled: set<Obj>, before: set<Obj>, autoReset: set<Obj>, waits: map<Thread, Wait>,
                           waiting: seq<Thread>)
    requires signaled == before + {obj} && NobodyMissed(before, waits, waiting)
    ensures var d := Deliver(obj, signaled, autoReset, waits, waiting); NobodyMissed(d.signaled, waits, d.waiting)
  {
    FewerSignals(signaled - {obj}, before, waits, waiting);
    DeliverMissesNobody(obj, signaled, autoReset, waits, waiting);
  }

  lemma FewerWaits(signaled: set<Obj>, waits: map<Thread, Wait>, fewer: map<Thread, Wait>, waiting: seq<Thread>)
    requires NobodyMissed(signaled, waits, waiting)
    requires forall th :: th in fewer ==> th in waits && fewer[th] == waits[th]
    ensures NobodyMissed(signaled, fewer, waiting)
  {
  }

  ghost predicate Distinct(waiting: seq<Thread>) {
    forall i, j :: 0 <= i < j < |waiting| ==> waiting[i] != waiting[j]
  }

  /** The list without the thread at one place. */
  function Without(waiting: seq<Thread>, k: nat): seq<Thread>
    requires k < |waiting|
  {
    waiting[..k] + waiting[k + 1..]
  }

  lemma WithoutMembers(waiting: seq<Thread>, k: nat)
    requires Distinct(waiting) && k < |waiting|
    ensures Distinct(Without(waiting, k))
    ensures forall th :: th in Without(waiting, k) <==> th in waiting && th != waiting[k]
  {
    var w := Without(waiting, k);
    forall th | th in waiting && th != waiting[k] ensures th in w {
      var i :| 0 <= i < |waiting| && waiting[i] == th;
      assert w[if i < k then i else i - 1] == th;
    }
  }

  lemma WithoutSlices(waiting: seq<Thread>, k: nat)
    requires k < |waiting|
    ensures Without(waiting, k)[..k] == waiting[..k] && Without(waiting, k)[k..] == waiting[k + 1..]
  {
  }

  // ----- What a released thread takes

  /** A satisfied wait.  Wait-all takes the signals of all its self-resetting objects.  Wait-any takes
    * that of the first signaled object of its list and leaves every other signal alone. */
  ghost predicate Granted(before: set<Obj>, after: set<Obj>, autoReset: set<Obj>, objects: seq<Obj>, waitAll: bool, result: int) {
    if waitAll then
      && result == HANDLE_ALL && (forall i :: 0 <= i < |objects| ==> objects[i] in before)
      && (forall o :: o in after <==> o in before && (o !in objects || o !in autoReset))
    else
      && 0 <= result < |objects| && objects[result] in before && (forall j :: 0 <= j < result ==> objects[j] !in before)
      && (forall o :: o in after <==> o in before && (o != objects[result] || o !in autoReset))
  }

  lemma ConsumedGrants(signaled: set<Obj>, autoReset: set<Obj>, objects: seq<Obj>, waitAll: bool)
    requires Satisfied(signaled, objects, waitAll)
    ensures Granted(signaled, Consumed(signaled, autoReset, objects, waitAll), autoReset, objects, waitAll,
                    ResultOf(signaled, objects, waitAll))
  {
    if !waitAll {
      var i :| 0 <= i < |objects| && objects[i] in signaled;
      assert FirstSignaled(signaled, objects) <= i;
    }
  }

  /** The turn of one waiting thread while a signal is delivered: it goes on if the object is still
    * signaled and its condition holds, and leaves everything as it is otherwise. */
  ghost predicate Turn(obj: Obj, before: set<Obj>, after: set<Obj>, autoReset: set<Obj>, waits: map<Thread, Wait>, th: Thread,
                       freed: set<Thread>, results: map<Thread, int>)
  {
    if obj in before && th in waits && Satisfied(before, waits[th].objects, waits[th].waitAll) then
      && th in freed && th in results
      && Granted(before, after, autoReset, waits[th].objects, waits[th].waitAll, results[th])
    else
      after == before && th !in freed
  }

  /** The waiting threads have their turns in order; `turns[k]` are the signals before the k-th one. */
  ghost predicate InTurns(obj: Obj, turns: seq<set<Obj>>, autoReset: set<Obj>, waits: map<Thread, Wait>, waiting: seq<Thread>,
                          freed: set<Thread>, results: map<Thread, int>)
  {
    && |turns| == |waiting| + 1
    && (forall k :: 0 <= k < |waiting| ==> Turn(obj, turns[k], turns[k + 1], autoReset, waits, waiting[k], freed, results))
  }

  /** The list without the threads that are gone. */
  function Staying(waiting: seq<Thread>, gone: set<Thread>): seq<Thread> {
    if waiting == [] then []
    else (if waiting[0] in gone then [] else [waiting[0]]) + Staying(waiting[1..], gone)
  }

  lemma {:induction false} NobodyLeaves(waiting: seq<Thread>, gone: set<Thread>)
    requires forall th :: th in waiting ==> th !in gone
    ensures Staying(waiting, gone) == waiting
  {
    if waiting != [] {
      NobodyLeaves(waiting[1..], gone);
    }
  }

  lemma {:induction false} StayingAlike(waiting: seq<Thread>, gone: set<Thread>, gone': set<Thread>)
    requires forall th :: th in waiting ==> (th in gone <==> th in gone')
    ensures Staying(waiting, gone) == Staying(waiting, gone')
  {
    if waiting != [] {
      StayingAlike(waiting[1..], gone, gone');
    }
  }

  lemma NoTurns(obj: Obj, signaled: set<Obj>, autoReset: set<Obj>, waits: map<Thread, Wait>, waiting: seq<Thread>,
                results: map<Thread, int>) returns (turns: seq<set<Obj>>)
    requires waiting == [] || obj !in signaled
    ensures InTurns(obj, turns, autoReset, waits, waiting, {}, results)
    ensures turns[0] == signaled == turns[|waiting|]
  {
    turns := seq(|waiting| + 1, _ => signaled);
  }

  /** A delivery is one turn of every waiting thread. */
  lemma {:induction false} DeliverInTurns(obj: Obj, signaled: set<Obj>, autoReset: set<Obj>, waits: map<Thread, Wait>,
                                          waiting: seq<Thread>, results: map<Thread, int>) returns (turns: seq<set<Obj>>)
    requires Distinct(waiting)
    ensures var d := Deliver(obj, signaled, autoReset, waits, waiting);
      && InTurns(obj, turns, autoReset, waits, waiting, Threads(d.released), Posted(results, d.released))
      && turns[0] == signaled && turns[|waiting|] == d.signaled
      && d.waiting == Staying(waiting, Threads(d.released))
      && (forall th :: th in Threads(d.released) ==> th in waiting && th in waits)
      && (forall th :: th !in Threads(d.released) ==>
            (th in Posted(results, d.released) <==> th in results)
            && (th in results ==> Posted(results, d.released)[th] == results[th]))
    decreases waiting
  {
    hide Satisfied, Consumed, ResultOf, Granted;
    if waiting == [] || obj !in signaled {
      turns := NoTurns(obj, signaled, autoReset, waits, waiting, results);
      NobodyLeaves(waiting, {});
    } else {
      var th, rest := waiting[0], waiting[1..];
      assert th !in rest;
      var d := Deliver(obj, signaled, autoReset, waits, waiting);
      var w := if th in waits then waits[th] else Wait(0, [], false);
      if th in waits && Satisfied(signaled, w.objects, w.waitAll) {
        var left, r := Consumed(signaled, autoReset, w.objects, w.waitAll), ResultOf(signaled, w.objects, w.waitAll);
        var e := Deliver(obj, left, autoReset, waits, rest);
        var t := DeliverInTurns(obj, left, autoReset, waits, rest, results[th := r]);
        assert d.released[0] == Release(th, r) && d.released[1..] == e.released;
        ConsumedGrants(signaled, autoReset, w.objects, w.waitAll);
        turns := [signaled] + t;
        StayingAlike(rest, Threads(e.released), Threads(d.released));
        TurnsAfter(obj, signaled, t, autoReset, waits, waiting, Threads(e.released), Threads(d.released), Posted(results, d.released));
      } else {
        var e := Deliver(obj, signaled, autoReset, waits, rest);
        var t := DeliverInTurns(obj, signaled, autoReset, waits, rest, results);
        turns := [signaled] + t;
        TurnsAfter(obj, signaled, t, autoReset, waits, waiting, Threads(e.released), Threads(d.released), Posted(results, d.released));
      }
    }
  }

  lemma TurnsAfter(obj: Obj, signaled: set<Obj>, turns: seq<set<Obj>>, autoReset: set<Obj>, waits: map<Thread, Wait>,
                   waiting: seq<Thread>, freed: set<Thread>, freed': set<Thread>, results: map<Thread, int>)
    requires waiting != [] && InTurns(obj, turns, autoReset, waits, waiting[1..], freed, results)
    requires forall th :: th in waiting[1..] ==> (th in freed <==> th in freed')
    requires Turn(obj, signaled, turns[0], autoReset, waits, waiting[0], freed', results)
    ensures InTurns(obj, [signaled] + turns, autoReset, waits, waiting, freed', results)
  {
    hide Satisfied, Granted;
    var all := [signaled] + turns;
    forall k | 0 <= k < |waiting| ensures Turn(obj, all[k], all[k + 1], autoReset, waits, waiting[k], freed', results) {
      if k > 0 {
        assert waiting[1..][k - 1] == waiting[k];
        assert Turn(obj, turns[k - 1], turns[k], autoReset, waits, waiting[1..][k - 1], freed, results);
      }
    }
  }

  /** Does a released thread take this object's signal? */
  ghost predicate Takes(o: Obj, autoReset: set<Obj>, w: Wait, result: int) {
    o in autoReset && if w.waitAll then o in w.objects else 0 <= result < |w.objects| && o == w.objects[result]
  }

  ghost predicate TakenBy(o: Obj, autoReset: set<Obj>, waits: map<Thread, Wait>, freed: set<Thread>, results: map<Thread, int>) {
    exists th :: th in freed && th in waits && th in results && Takes(o, autoReset, waits[th], results[th])
  }

  /** A thread that waited for any object got the one that was signaled, at its first place in the list. */
  ghost predicate Awaited(obj: Obj, w: Wait, result: int) {
    if w.waitAll then result == HANDLE_ALL && obj in w.objects
    else 0 <= result < |w.objects| && w.objects[result] == obj && forall j :: 0 <= j < result ==> w.objects[j] != obj
  }

  lemma {:induction false} SignalsAfterTurns(obj: Obj, turns: seq<set<Obj>>, autoReset: set<Obj>, waits: map<Thread, Wait>,
                                             waiting: seq<Thread>, freed: set<Thread>, results: map<Thread, int>, k: nat, o: Obj)
    requires InTurns(obj, turns, autoReset, waits, waiting, freed, results) && k <= |waiting|
    ensures o in turns[k] <==>
      && o in turns[0]
      && forall j :: 0 <= j < k && waiting[j] in freed && waiting[j] in waits && waiting[j] in results ==>
           !Takes(o, autoReset, waits[waiting[j]], results[waiting[j]])
  {
    if k > 0 {
      SignalsAfterTurns(obj, turns, autoReset, waits, waiting, freed, results, k - 1, o);
      assert Turn(obj, turns[k - 1], turns[k], autoReset, waits, waiting[k - 1], freed, results);
    }
  }

  /** After a delivery exactly those signals are gone that a released thread took, and every released
    * thread had waited for the object that was signaled. */
  lemma TurnsTake(obj: Obj, signaled: set<Obj>, turns: seq<set<Obj>>, autoReset: set<Obj>, waits: map<Thread, Wait>,
                  waiting: seq<Thread>, freed: set<Thread>, results: map<Thread, int>)
    requires InTurns(obj, turns, autoReset, waits, waiting, freed, results) && turns[0] == signaled + {obj}
    requires NobodyMissed(signaled, waits, waiting) && forall th :: th in freed ==> th in waiting
    ensures forall o :: o in turns[|waiting|] <==> o in signaled + {obj} && !TakenBy(o, autoReset, waits, freed, results)
    ensures forall th :: th in freed ==> th in waits && th in results && Awaited(obj, waits[th], results[th])
  {
    forall o ensures o in turns[|waiting|] <==> o in signaled + {obj} && !TakenBy(o, autoReset, waits, freed, results) {
      SignalsAfterTurns(obj, turns, autoReset, waits, waiting, freed, results, |waiting|, o);
    }
    forall th | th in freed ensures th in waits && th in results && Awaited(obj, waits[th], results[th]) {
      var k :| 0 <= k < |waiting| && waiting[k] == th;
      assert Turn(obj, turns[k], turns[k + 1], autoReset, waits, waiting[k], freed, results);
      forall o | o in turns[k] ensures o in signaled + {obj} {
        SignalsAfterTurns(obj, turns, autoReset, waits, waiting, freed, results, k, o);
      }
      assert !Satisfied(signaled, waits[th].objects, waits[th].waitAll);
    }
  }

  lemma DeliverEffects(obj: Obj, signaled: set<Obj>, autoReset: set<Obj>, waits: map<Thread, Wait>, waiting: seq<Thread>,
                       results: map<Thread, int>) returns (turns: seq<set<Obj>>)
    requires Distinct(waiting) && NobodyMissed(signaled, waits, waiting)
    ensures var d := Deliver(obj, signaled + {obj}, autoReset, waits, waiting);
      var freed, results' := Threads(d.released), Posted(results, d.released);
      && InTurns(obj, turns, autoReset, waits, waiting, freed, results') && d.waiting == Staying(waiting, freed)
      && turns[0] == signaled + {obj} && turns[|waiting|] == d.signaled
      && (forall th :: th in freed ==> th in waits && th in results' && Awaited(obj, waits[th], results'[th]))
      && (forall th :: th !in freed ==> (th in results' <==> th in results) && (th in results ==> results'[th] == results[th]))
      && (forall o :: o in d.signaled <==> o in signaled + {obj} && !TakenBy(o, autoReset, waits, freed, results'))
  {
    hide Deliver, Turn;
    var d := Deliver(obj, signaled + {obj}, autoReset, waits, waiting);
    turns := DeliverInTurns(obj, signaled + {obj}, autoReset, waits, waiting, results);
    TurnsTake(obj, signaled, turns, autoReset, waits, waiting, Threads(d.released), Posted(results, d.released));
  }

  class WaitEngine {
    const autoReset: set<Obj>
    var signaled: set<Obj>
    var waiting: seq<Thread>            // m_threadsWaiting
    var waits: map<Thread, Wait>        // m_waitForObject
    var results: map<Thread, int>       // m_waitForObject_Result

    /** A thread waits once, only waiting threads have a wait, and no wake-up is lost. */
    ghost predicate Valid()
      reads this
    {
      && Distinct(waiting) && (forall th :: th in waits ==> th in waiting)
      && NobodyMissed(signaled, waits, waiting)
    }

    constructor (autoReset: set<Obj>)
      ensures Valid() && this.autoReset == autoReset && signaled == {} && waiting == []
    {
      this.autoReset := autoReset;
      signaled, waiting, waits, results := {}, [], map[], map[];
    }

    /** All the objects are looked at before any of them is reset. */
    method TryWaitAll(th: Thread, objects: seq<Obj>) returns (ok: bool)
      modifies this`signaled, this`results
      ensures ok <==> Satisfied(old(signaled), objects, true)
      ensures !ok ==> signaled == old(signaled) && results == old(results)
      ensures ok ==>
        && signaled == old(signaled) - autoReset * Members(objects)
        && results == old(results)[th := HANDLE_ALL]
        && Granted(old(signaled), signaled, autoReset, objects, true, results[th])
    {
      var i := 0;
      while i < |objects|
        invariant 0 <= i <= |objects| && forall j :: 0 <= j < i ==> objects[j] in signaled
      {
        if objects[i] !in signaled {
          return false;
        }
        i := i + 1;
      }
      i := 0;
      while i < |objects|
        invariant 0 <= i <= |objects| && signaled == old(signaled) - autoReset * Members(objects[..i])
        invariant results == old(results)
      {
        assert Members(objects[..i + 1]) == Members(objects[..i]) + {objects[i]} by {
          assert objects[..i + 1] == objects[..i] + [objects[i]];
        }
        if objects[i] in autoReset {
          signaled := signaled - {objects[i]};
        }
        i := i + 1;
      }
      assert objects[..|objects|] == objects;
      results := results[th := HANDLE_ALL];
      return true;
    }

    /** The first signaled object is taken. */
    method TryWaitAny(th: Thread, objects: seq<Obj>) returns (ok: bool)
      modifies this`signaled, this`results
      ensures ok <==> Satisfied(old(signaled), objects, false)
      ensures !ok ==> signaled == old(signaled) && results == old(results)
      ensures ok ==>
        && signaled == Consumed(old(signaled), autoReset, objects, false)
        && results == old(results)[th := FirstSignaled(old(signaled), objects)]
        && var i := results[th];
           && 0 <= i < |objects| && objects[i] in old(signaled) && (forall j :: 0 <= j < i ==> objects[j] !in old(signaled))
           && (forall o :: o in signaled <==> o in old(signaled) && (o != objects[i] || o !in autoReset))
    {
      var i: nat := 0;
      while i < |objects|
        invariant 0 <= i <= |objects| && forall j :: 0 <= j < i ==> objects[j] !in signaled
        invariant signaled == old(signaled) && results == old(results)
      {
        if objects[i] in signaled {
          assert FirstSignaled(old(signaled), objects) == i;
          if objects[i] in autoReset {
            signaled := signaled - {objects[i]};
          }
          results := results[th := i];
          return true;
        }
        i := i + 1;
      }
      return false;
    }

    /** TryWaitForSignal: all or nothing. */
    method TryWait(th: Thread, objects: seq<Obj>, waitAll: bool) returns (ok: bool)
      modifies this`signaled, this`results
      ensures ok <==> Satisfied(old(signaled), objects, waitAll)
      ensures !ok ==> signaled == old(signaled) && results == old(results)
      ensures ok ==>
        && signaled == Consumed(old(signaled), autoReset, objects, waitAll)
        && results == old(results)[th := ResultOf(old(signaled), objects, waitAll)]
        && Granted(old(signaled), signaled, autoReset, objects, waitAll, results[th])
    {
      if waitAll {
        ok := TryWaitAll(th, objects);
      } else {
        ok := TryWaitAny(th, objects);
      }
    }

    /** A thread leaves the waiting list and drops its wait. */
    method Restart(k: nat)
      requires k < |waiting| && Distinct(waiting) && forall th :: th in waits ==> th in waiting
      modifies this`waiting, this`waits
      ensures waiting == Without(old(waiting), k) && waits == old(waits) - {old(waiting)[k]}
      ensures Distinct(waiting) && forall th :: th in waits ==> th in waiting
    {
      WithoutMembers(waiting, k);
      waits := waits - {waiting[k]};
      waiting := waiting[..k] + waiting[k + 1..];
    }

    /** SignalObject: the waiting threads get their chance in order, until the signal is consumed. */
    method SignalObject(obj: Obj) returns (ghost freed: set<Thread>, ghost turns: seq<set<Obj>>)
      requires Valid()
      modifies this`signaled, this`waiting, this`waits, this`results
      ensures Valid()
      ensures InTurns(obj, turns, autoReset, old(waits), old(waiting), freed, results)
      ensures turns[0] == old(signaled) + {obj} && turns[|old(waiting)|] == signaled
      ensures waiting == Staying(old(waiting), freed) && waits == old(waits) - freed
      ensures forall th :: th in freed ==> th in old(waits) && th in results && Awaited(obj, old(waits)[th], results[th])
      ensures forall th :: th !in freed ==> (th in results <==> th in old(results)) && (th in results ==> results[th] == old(results)[th])
      ensures forall o :: o in signaled <==> o in old(signaled) + {obj} && !TakenBy(o, autoReset, old(waits), freed, results)
      ensures var d := Deliver(obj, old(signaled) + {obj}, autoReset, old(waits), old(waiting));
        && signaled == d.signaled && waiting == d.waiting && waits == old(waits) - Threads(d.released)
        && results == Posted(old(results), d.released)
    {
      hide Deliver, Satisfied, Consumed, ResultOf, Along, Posted, Threads, Granted, InTurns, Staying, TakenBy, Awaited;
      signaled := signaled + {obj};
      ghost var waits0, results0 := waits, results;
      ghost var d := Deliver(obj, signaled, autoReset, waits0, waiting);
      freed := {};
      SignalMissesNobody(obj, signaled, old(signaled), autoReset, waits0, waiting);
      AlongStart(obj, signaled, autoReset, waits0, waiting, results);
      assert waiting[..0] == [] && waiting[0..] == waiting;
      assert waits0 - freed == waits0;
      var k := 0;
      while k < |waiting| && obj in signaled
        invariant 0 <= k <= |waiting| && Distinct(waiting) && waits == waits0 - freed
        invariant forall th :: th in waits ==> th in waiting
        invariant forall th :: th in freed ==> th !in waiting
        invariant Along(d, obj, signaled, autoReset, waits0, waiting[..k], waiting[k..], results, results0, freed)
        decreases |waiting| - k
      {
        ghost var s, w, r := signaled, waiting, results;
        var th := waiting[k];
        assert w[k..][0] == th && w[k..][1..] == w[k + 1..] && w[..k + 1] == w[..k] + [th];
        var released := false;
        if th in waits {
          released := TryWait(th, waits[th].objects, waits[th].waitAll);
        }
        if released {
          AlongReleased(d, obj, s, autoReset, waits0, w[..k], w[k..], r, results0, freed);
          WithoutMembers(waiting, k);
          WithoutSlices(waiting, k);
          Restart(k);
          assert waits0 - freed - {th} == waits0 - (freed + {th});
          freed := freed + {th};
        } else {
          AlongKept(d, obj, s, autoReset, waits0, w[..k], w[k..], r, results0, freed);
          k := k + 1;
        }
      }
      AlongDone(d, obj, signaled, autoReset, waits0, waiting[..k], waiting[k..], results, results0, freed);
      assert waiting[..k] + waiting[k..] == waiting;
      turns := DeliverEffects(obj, old(signaled), autoReset, waits0, old(waiting), results0);
      FewerWaits(signaled, waits0, waits, waiting);
    }

    /** WaitForSignal by a running thread.  A second call, after the thread was woken, does nothing. */
    method WaitForSignal(th: Thread, resumed: bool, timeExpire: int, objects: seq<Option<Obj>>, waitAll: bool)
      returns (hr: Outcome)
      requires Valid() && th !in waiting
      modifies this`signaled, this`waiting, this`waits, this`results
      ensures Valid()
      ensures resumed ==> hr == Done && unchanged(this)
      ensures !resumed && |objects| > MAX_OBJECTS ==> hr == InvalidParameter && unchanged(this)
      ensures !resumed && |objects| <= MAX_OBJECTS && None in objects ==> hr == NullReference && unchanged(this)
      ensures !resumed && |objects| <= MAX_OBJECTS && None !in objects ==>
        var list := Values(objects);
        if Satisfied(old(signaled), list, waitAll) then
          && hr == Done && waiting == old(waiting) && waits == old(waits)
          && signaled == Consumed(old(signaled), autoReset, list, waitAll)
          && results == old(results)[th := ResultOf(old(signaled), list, waitAll)]
          && Granted(old(signaled), signaled, autoReset, list, waitAll, results[th])
        else
          && hr == ThreadWaiting && waiting == old(waiting) + [th] && signaled == old(signaled)
          && waits == old(waits)[th := Wait(timeExpire, list, waitAll)] && results == old(results)[th := -1]
    {
      if resumed {
        return Done;
      }
      if |objects| > MAX_OBJECTS {
        return InvalidParameter;
      }
      var i := 0;
      while i < |objects|
        invariant 0 <= i <= |objects| && None !in objects[..i]
      {
        if objects[i] == None {
          return NullReference;
        }
        i := i + 1;
      }
      assert objects[..i] == objects;
      var list := Values(objects);
      var ok := TryWait(th, list, waitAll);
      if ok {
        FewerSignals(signaled, old(signaled), waits, waiting);
        return Done;
      }
      waits := waits[th := Wait(timeExpire, list, waitAll)];
      waiting := waiting + [th];
      results := results[th := -1];
      return ThreadWaiting;
    }

    /** A manual-reset event is reset. */
    method ResetObject(obj: Obj)
      requires Valid()
      modifies this`signaled
      ensures Valid() && signaled == old(signaled) - {obj}
    {
      FewerSignals(signaled - {obj}, signaled, waits, waiting);
      signaled := signaled - {obj};
    }

    /** The wait part of CheckThreads: threads whose time is up run again with a timeout. */
    method CheckTimeouts(now: int)
      requires Valid()
      modifies this`waiting, this`waits, this`results
      ensures Valid() && waiting == Unexpired(old(waiting), old(waits), now)
      ensures forall th :: th in waits <==> th in old(waits) && th in waiting
      ensures forall th :: th in waits ==> waits[th] == old(waits)[th]
      ensures results == TimedOut(old(results), old(waiting), old(waits), now)
    {
      hide NobodyMissed, Unexpired, TimedOut, Passed;
      ghost var waits0 := waits;
      ghost var all, posted := Unexpired(waiting, waits, now), TimedOut(results, waiting, waits, now);
      PassedStart(waiting, waits, now, results);
      assert waiting[..0] == [] && waiting[0..] == waiting;
      var k := 0;
      while k < |waiting|
        invariant 0 <= k <= |waiting| && Distinct(waiting)
        invariant forall th :: th in waits <==> th in waits0 && th in waiting
        invariant forall th :: th in waits ==> waits[th] == waits0[th]
        invariant Passed(all, posted, waiting[..k], waiting[k..], results, waits0, now)
        invariant forall th :: th in waiting ==> th in old(waiting)
        decreases |waiting| - k
      {
        var th := waiting[k];
        ghost var w, r := waiting, results;
        assert w[k..][0] == th && w[k..][1..] == w[k + 1..];
        PassedStep(all, posted, w[..k], w[k..], r, waits0, now);
        if th in waits && waits[th].timeExpire <= now {
          results := results[th := TIMED_OUT];
          WithoutMembers(waiting, k);
          WithoutSlices(waiting, k);
          Restart(k);
        } else {
          assert w[..k + 1] == w[..k] + [th];
          k := k + 1;
        }
      }
      assert waiting[..k] == waiting && waiting[k..] == [];
      PassedEnd(all, posted, waiting, results, waits0, now);
      FewerWaiters(signaled, waits0, waits, old(waiting), waiting);
    }
  }

  /** The walk has passed the threads it kept, and still has the rest to look at. */
  ghost predicate Passed(all: seq<Thread>, posted: map<Thread, int>, kept: seq<Thread>, rest: seq<Thread>,
                         results: map<Thread, int>, waits: map<Thread, Wait>, now: int)
  {
    all == kept + Unexpired(rest, waits, now) && posted == TimedOut(results, rest, waits, now)
  }

  lemma PassedStart(waiting: seq<Thread>, waits: map<Thread, Wait>, now: int, results: map<Thread, int>)
    ensures Passed(Unexpired(waiting, waits, now), TimedOut(results, waiting, waits, now), [], waiting, results, waits, now)
  {
    assert [] + Unexpired(waiting, waits, now) == Unexpired(waiting, waits, now);
  }

  lemma PassedStep(all: seq<Thread>, posted: map<Thread, int>, kept: seq<Thread>, rest: seq<Thread>,
                   results: map<Thread, int>, waits: map<Thread, Wait>, now: int)
    requires Passed(all, posted, kept, rest, results, waits, now) && rest != []
    ensures Expired(rest[0], waits, now) ==>
      Passed(all, posted, kept, rest[1..], results[rest[0] := TIMED_OUT], waits, now)
    ensures !Expired(rest[0], waits, now) ==>
      Passed(all, posted, kept + [rest[0]], rest[1..], results, waits, now)
  {
    if Expired(rest[0], waits, now) {
      assert [] + Unexpired(rest[1..], waits, now) == Unexpired(rest[1..], waits, now);
    } else {
      assert kept + ([rest[0]] + Unexpired(rest[1..], waits, now)) == kept + [rest[0]] + Unexpired(rest[1..], waits, now);
    }
  }

  lemma PassedEnd(all: seq<Thread>, posted: map<Thread, int>, kept: seq<Thread>, results: map<Thread, int>,
                  waits: map<Thread, Wait>, now: int)
    requires Passed(all, posted, kept, [], results, waits, now)
    ensures all == kept && posted == results
    ensures forall th :: th in all ==> th in kept
  {
    assert kept + [] == kept;
  }

  lemma FewerWaiters(signaled: set<Obj>, waits: map<Thread, Wait>, fewer: map<Thread, Wait>, waiting: seq<Thread>, left: seq<Thread>)
    requires NobodyMissed(signaled, waits, waiting) && (forall th :: th in left ==> th in waiting)
    requires forall th :: th in fewer ==> th in waits && fewer[th] == waits[th]
    ensures NobodyMissed(signaled, fewer, left)
  {
  }

  function Values(objects: seq<Option<Obj>>): (r: seq<Obj>)
    requires None !in objects
    ensures |r| == |objects| && forall i :: 0 <= i < |r| ==> objects[i] == Some(r[i])
  {
    if objects == [] then [] else
      assert objects[0] in objects;
      [objects[0].value] + Values(objects[1..])
  }

  predicate Expired(th: Thread, waits: map<Thread, Wait>, now: int) {
    th in waits && waits[th].timeExpire <= now
  }

  /** The threads whose time is not up, in order. */
  function Unexpired(waiting: seq<Thread>, waits: map<Thread, Wait>, now: int): seq<Thread> {
    if waiting == [] then []
    else (if Expired(waiting[0], waits, now) then [] else [waiting[0]]) + Unexpired(waiting[1..], waits, now)
  }

  /** The results when every expired thread is told so. */
  function TimedOut(results: map<Thread, int>, waiting: seq<Thread>, waits: map<Thread, Wait>, now: int): map<Thread, int>
    decreases waiting
  {
    if waiting == [] then results
    else
      TimedOut(if Expired(waiting[0], waits, now) then results[waiting[0] := TIMED_OUT] else results, waiting[1..], waits, now)
  }

  /** Exactly the expired threads leave the waiting list, exactly they get the timeout result. */
  lemma {:induction false} TimeoutsAreExact(results: map<Thread, int>, waiting: seq<Thread>, waits: map<Thread, Wait>, now: int)
    ensures forall th :: th in Unexpired(waiting, waits, now) <==> th in waiting && !Expired(th, waits, now)
    ensures var r := TimedOut(results, waiting, waits, now);
      forall th ::
        if th in waiting && Expired(th, waits, now) then th in r && r[th] == TIMED_OUT
        else (th in r <==> th in results) && (th in r ==> r[th] == results[th])
    decreases waiting
  {
    if waiting != [] {
      var results1 := if Expired(waiting[0], waits, now) then results[waiting[0] := TIMED_OUT] else results;
      assert forall th :: th in waiting <==> th == waiting[0] || th in waiting[1..];
      TimeoutsAreExact(results1, waiting[1..], waits, now);
    }
  }
}
