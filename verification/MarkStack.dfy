/** The explicit mark stack: a list of bounded segments that grows while memory lasts.  An element
  * is the rest of a range of slots; a full stack drops the range instead and raises a flag. */
module MarkStacks {
  import opened HeapModel

  /** c_minimumSpaceForGC. */
  const MINIMUM_SPACE := 128

  /** One stack block.  Element 0 is an empty sentinel, so `capacity - 1` ranges fit. */
  datatype Segment = Segment(capacity: nat, ranges: seq<seq<Cell>>)
  {
    ghost predicate Valid() {
      2 <= capacity && |ranges| < capacity && forall i :: 0 <= i < |ranges| ==> ranges[i] != []
    }

    predicate Full() {
      |ranges| == capacity - 1
    }
  }

  ghost function Flatten(ranges: seq<seq<Cell>>): seq<Cell> {
    if ranges == [] then [] else Flatten(ranges[..|ranges| - 1]) + ranges[|ranges| - 1]
  }

  ghost function FlattenAll(segments: seq<Segment>): seq<Cell> {
    if segments == [] then []
    else FlattenAll(segments[..|segments| - 1]) + Flatten(segments[|segments| - 1].ranges)
  }

  lemma FlattenPush(ranges: seq<seq<Cell>>, range: seq<Cell>)
    ensures Flatten(ranges + [range]) == Flatten(ranges) + range
  {
    assert (ranges + [range])[..|ranges|] == ranges;
  }

  lemma FlattenAllPush(segments: seq<Segment>, segment: Segment)
    ensures FlattenAll(segments + [segment]) == FlattenAll(segments) + Flatten(segment.ranges)
  {
    assert (segments + [segment])[..|segments|] == segments;
  }

  /** The stack as a value: the segments before the current one, the current one, and the sizes
    * of the empty ones after it. */
  datatype Stack = Stack(below: seq<Segment>, top: Segment, above: seq<nat>)
  {
    ghost predicate Valid() {
      && top.Valid() && (forall i :: 0 <= i < |above| ==> 2 <= above[i])
      && (forall i :: 0 <= i < |below| ==> below[i].Valid() && below[i].Full())
    }

    ghost function Pending(): seq<Cell> {
      FlattenAll(below) + Flatten(top.ranges)
    }

    function Pushed(rest: seq<Cell>): Stack {
      this.(top := top.(ranges := top.ranges + [rest]))
    }

    /** The next segment of the list becomes the current one. */
    function Advanced(): Stack
      requires above != []
    {
      Stack(below + [top], Segment(above[0], []), above[1..])
    }

    /** The intended step.  `granted` is the number of elements the allocator supplies when it is
      * asked for another segment, 0 if none; one element would hold the sentinel only. */
    function PushStep(rest: seq<Cell>, granted: nat): (Stack, bool) {
      if !top.Full() then (Pushed(rest), true)
      else if above != [] then (Advanced().Pushed(rest), true)
      else if granted < 2 then (this, false)
      else (Stack(below + [top], Segment(granted, []), []).Pushed(rest), true)
    }

    /** The step as written, or nothing if it stores an element past the end of a segment: with a
      * next segment at hand the old one is loaded again, and a segment of one element is taken. */
    function PushAsWritten(rest: seq<Cell>, granted: nat): WrittenPush {
      if !top.Full() then Stored(Pushed(rest), true)
      else if above != [] then StoreAt(top, |top.ranges| + 1)
      else if granted == 0 then Stored(this, false)
      else if granted == 1 then StoreAt(Segment(1, []), 1)
      else Stored(Stack(below + [top], Segment(granted, []), []).Pushed(rest), true)
    }
  }

  /** The outcome of a push as written: a regular one, or a store to a given element index. */
  datatype WrittenPush = Stored(state: Stack, ok: bool) | StoreAt(segment: Segment, index: nat)

  /** The code as written does the intended step exactly when no next segment exists at the moment
    * the current one is full and the allocator does not grant a single element; in every other
    * case it stores past the end of a segment. */
  lemma WrittenPushIsIntended(s: Stack, rest: seq<Cell>, granted: nat)
    requires s.Valid()
    ensures var w, (state, ok) := s.PushAsWritten(rest, granted), s.PushStep(rest, granted);
      && (w == Stored(state, ok) <==> !(s.top.Full() && (s.above != [] || granted == 1)))
      && (w.StoreAt? ==> w.index >= w.segment.capacity)
      && (w.StoreAt? <==> s.top.Full() && (s.above != [] || granted == 1))
  {
  }

  /** A push adds the range to what is pending, or changes nothing on a full stack. */
  lemma PushKeeps(s: Stack, rest: seq<Cell>, granted: nat)
    requires s.Valid() && rest != []
    ensures var (state, ok) := s.PushStep(rest, granted);
      && state.Valid()
      && state.Pending() == (if ok then s.Pending() + rest else s.Pending())
      && (!ok ==> s.Pending() != [])
  {
    hide Flatten, FlattenAll;
    if !s.top.Full() {
      PushOnTop(s.below, s.top, rest);
    } else if s.above != [] || granted >= 2 {
      PushOnNext(s.below, s.top, rest);
      assert [] + [rest] == [rest];
    } else {
      NonEmptyRanges(s.top);
    }
  }

  lemma PushOnTop(below: seq<Segment>, top: Segment, rest: seq<Cell>)
    ensures FlattenAll(below) + Flatten(top.ranges + [rest]) == FlattenAll(below) + Flatten(top.ranges) + rest
  {
    hide Flatten, FlattenAll;
    FlattenPush(top.ranges, rest);
    Associate(FlattenAll(below), Flatten(top.ranges), rest);
  }

  lemma PushOnNext(below: seq<Segment>, top: Segment, rest: seq<Cell>)
    ensures FlattenAll(below + [top]) + Flatten([rest]) == FlattenAll(below) + Flatten(top.ranges) + rest
  {
    hide FlattenAll;
    FlattenAllPush(below, top);
    assert Flatten([rest]) == [] + rest == rest;
  }

  lemma Associate(a: seq<Cell>, b: seq<Cell>, c: seq<Cell>)
    ensures a + (b + c) == a + b + c
  {
  }

  lemma NonEmptyRanges(s: Segment)
    requires s.Valid() && s.ranges != []
    ensures Flatten(s.ranges) != []
  {
  }

  /** Going back a segment keeps what is pending. */
  lemma PendingBelow(below: seq<Segment>)
    requires below != []
    ensures FlattenAll(below) + Flatten([]) == FlattenAll(below[..|below| - 1]) + Flatten(below[|below| - 1].ranges)
  {
    assert Flatten([]) == [];
  }

  /** Taking the first slot of the topmost range. */
  lemma PendingTop(below: seq<Segment>, ranges: seq<seq<Cell>>)
    requires ranges != [] && ranges[|ranges| - 1] != []
    ensures var n := |ranges| - 1;
      var rest := if |ranges[n]| == 1 then ranges[..n] else ranges[..n] + [ranges[n][1..]];
      Taken(FlattenAll(below) + Flatten(ranges), FlattenAll(below) + Flatten(rest), ranges[n][0])
  {
    hide Flatten, FlattenAll;
    var n := |ranges| - 1;
    var lower, range := ranges[..n], ranges[n];
    assert ranges == lower + [range];
    FlattenPush(lower, range);
    FlattenPush(lower, range[1..]);
    assert |range| == 1 ==> Flatten(lower) + range[1..] == Flatten(lower);
    Associate(FlattenAll(below), Flatten(lower), range);
    Associate(FlattenAll(below), Flatten(lower), range[1..]);
    TakenFirst(FlattenAll(below) + Flatten(lower), range);
  }

  class MarkStack {
    var below: seq<Segment>
    var top: Segment
    var above: seq<nat>
    var outOfSpace: bool
    ghost var overflows: nat             // how often a range was given up

    ghost function State(): Stack
      reads this
    {
      Stack(below, top, above)
    }

    ghost predicate Valid()
      reads this
    {
      State().Valid()
    }

    ghost function Pending(): seq<Cell>
      reads this
    {
      State().Pending()
    }

    constructor ()
      ensures Valid() && Pending() == [] && !outOfSpace && overflows == 0
    {
      below, top, above, outOfSpace := [], Segment(MINIMUM_SPACE, []), [], false;
      overflows := 0;
    }

    /** Takes the first slot of the topmost range, going back a segment when this one is done. */
    method Pop() returns (found: bool, cell: Cell)
      requires Valid()
      modifies this`below, this`top, this`above
      ensures Valid()
      ensures !found <==> old(Pending()) == []
      ensures !found ==> Pending() == []
      ensures found ==> Taken(old(Pending()), Pending(), cell)
    {
      hide Flatten, FlattenAll, Taken;
      cell := Data(0);
      if top.ranges == [] {
        if below == [] {
          NothingPending();
          return false, cell;
        }
        PendingBelow(below);
        above := [top.capacity] + above;
        top := below[|below| - 1];
        below := below[..|below| - 1];
      }
      PendingTop(below, top.ranges);
      TakenFromSome(FlattenAll(below) + Flatten(top.ranges));
      var n := |top.ranges| - 1;
      var range := top.ranges[n];
      cell := range[0];
      found := true;
      top := top.(ranges := if |range| == 1 then top.ranges[..n] else top.ranges[..n] + [range[1..]]);
    }

    /** Stores the rest of a range, or gives up and remembers that space ran out. */
    method Push(rest: seq<Cell>) returns (ok: bool)
      requires Valid() && rest != []
      modifies this
      ensures Valid()
      ensures exists granted: nat {:trigger old(State()).PushStep(rest, granted)} ::
        (State(), ok) == old(State()).PushStep(rest, granted)
      ensures Pending() == if ok then old(Pending()) + rest else old(Pending())
      ensures outOfSpace == (old(outOfSpace) || !ok) && overflows == old(overflows) + (if ok then 0 else 1)
      ensures !ok ==> old(Pending()) != []
    {
      hide Flatten, FlattenAll;
      ghost var before, granted := State(), 0;
      if top.Full() {
        if above != [] {
          below, top, above := below + [top], Segment(above[0], []), above[1..];
        } else {
          var elements := 0;
          if !outOfSpace {
            elements := Grow();
          }
          granted := elements;
          if elements == 0 {
            outOfSpace := true;
            overflows := overflows + 1;
            PushKeeps(before, rest, granted);
            assert (State(), false) == before.PushStep(rest, granted);
            return false;
          }
          below, top := below + [top], Segment(elements, []);
        }
      }
      top := top.(ranges := top.ranges + [rest]);
      PushKeeps(before, rest, granted);
      ok := true;
      assert (State(), true) == before.PushStep(rest, granted);
    }

    /** Asks for ever smaller segments until the allocator grants one. */
    method Grow() returns (elements: nat)
      ensures elements == 0 || 2 <= elements <= MINIMUM_SPACE
    {
      elements := MINIMUM_SPACE;
      while elements >= 2
        invariant elements <= MINIMUM_SPACE
      {
        var granted: bool := *;
        if granted { return; }
        elements := elements / 2;
      }
      elements := 0;
    }
  }

  /** `after` is `before` without one occurrence of `cell`. */
  ghost predicate Taken(before: seq<Cell>, after: seq<Cell>, cell: Cell) {
    && |after| == |before| - 1
    && (forall c :: c in before <==> c == cell || c in after)
  }

  lemma TakenFromSome(before: seq<Cell>)
    ensures forall after, cell :: Taken(before, after, cell) ==> before != []
  {
  }

  lemma NothingPending()
    ensures FlattenAll([]) + Flatten([]) == []
  {
  }

  lemma TakenFirst(lower: seq<Cell>, range: seq<Cell>)
    requires range != []
    ensures Taken(lower + range, lower + range[1..], range[0])
  {
    assert range == [range[0]] + range[1..];
  }
}
