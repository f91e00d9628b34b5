/**
  The unit tests of `IntensityManagerImpl` as verified client code: each
  method drives a new manager through the test's calls and its contract
  states the snapshots the test expects.
*/
module Scenarios {
  import opened Wrappers
  import opened Segments
  import opened Operations
  import opened IntensityManager

  /** The intensity of a two-entry map, case by case. */
  lemma Intensity2(a: Breakpoint, b: Breakpoint, x: int)
    requires a.key < b.key
    ensures Intensity([a, b], x) == if x < a.key then 0 else if x < b.key then a.value else b.value
  {
    var s := [a, b];
    var j := if x < a.key then -1 else if x < b.key then 0 else 1;
    IntensityFromFloor(s, j, x, 0);
  }

  /** The intensity of a four-entry map, case by case. */
  lemma Intensity4(a: Breakpoint, b: Breakpoint, c: Breakpoint, d: Breakpoint, x: int)
    requires a.key < b.key < c.key < d.key
    ensures Intensity([a, b, c, d], x) ==
      if x < a.key then 0 else if x < b.key then a.value else if x < c.key then b.value
      else if x < d.key then c.value else d.value
  {
    var s := [a, b, c, d];
    var j := if x < a.key then -1 else if x < b.key then 0 else if x < c.key then 1 else if x < d.key then 2 else 3;
    IntensityFromFloor(s, j, x, 0);
  }

  /** A canonical map raised the way `expected` is raised from the same map is `expected`. */
  lemma RaisedIs(r: seq<Breakpoint>, s: seq<Breakpoint>, from: int, to: int, amount: int, expected: seq<Breakpoint>)
    requires Canonical(r) && Raised(r, s, from, to, amount)
    requires Canonical(expected) && Raised(expected, s, from, to, amount)
    ensures r == expected
  {
    CanonicalUnique(r, expected);
  }

  /** [(10, 5), (20, 0)] is `add(10, 20, 5)` on the empty map. */
  lemma EmptyAddFive()
    ensures Canonical([Breakpoint(10, 5), Breakpoint(20, 0)]) && Raised([Breakpoint(10, 5), Breakpoint(20, 0)], [], 10, 20, 5)
  {
    forall x ensures Intensity([Breakpoint(10, 5), Breakpoint(20, 0)], x) == Intensity([], x) + RangeDelta(10, 20, 5, x) {
      Intensity2(Breakpoint(10, 5), Breakpoint(20, 0), x);
    }
  }

  /** [(10, 10), (20, 0)] is `add(10, 20, 5)` on [(10, 5), (20, 0)]. */
  lemma FiveAddFive()
    ensures Canonical([Breakpoint(10, 10), Breakpoint(20, 0)]) && Raised([Breakpoint(10, 10), Breakpoint(20, 0)], [Breakpoint(10, 5), Breakpoint(20, 0)], 10, 20, 5)
  {
    forall x ensures Intensity([Breakpoint(10, 10), Breakpoint(20, 0)], x) == Intensity([Breakpoint(10, 5), Breakpoint(20, 0)], x) + RangeDelta(10, 20, 5, x) {
      Intensity2(Breakpoint(10, 10), Breakpoint(20, 0), x);
      Intensity2(Breakpoint(10, 5), Breakpoint(20, 0), x);
    }
  }

  /** [(10, 15), (20, 0)] is `add(10, 20, 5)` on [(10, 10), (20, 0)]. */
  lemma TenAddFive()
    ensures Canonical([Breakpoint(10, 15), Breakpoint(20, 0)]) && Raised([Breakpoint(10, 15), Breakpoint(20, 0)], [Breakpoint(10, 10), Breakpoint(20, 0)], 10, 20, 5)
  {
    forall x ensures Intensity([Breakpoint(10, 15), Breakpoint(20, 0)], x) == Intensity([Breakpoint(10, 10), Breakpoint(20, 0)], x) + RangeDelta(10, 20, 5, x) {
      Intensity2(Breakpoint(10, 15), Breakpoint(20, 0), x);
      Intensity2(Breakpoint(10, 10), Breakpoint(20, 0), x);
    }
  }

  /** [(10, 3), (20, 0)] is `add(10, 20, 3)` on the empty map. */
  lemma EmptyAddThree()
    ensures Canonical([Breakpoint(10, 3), Breakpoint(20, 0)]) && Raised([Breakpoint(10, 3), Breakpoint(20, 0)], [], 10, 20, 3)
  {
    forall x ensures Intensity([Breakpoint(10, 3), Breakpoint(20, 0)], x) == Intensity([], x) + RangeDelta(10, 20, 3, x) {
      Intensity2(Breakpoint(10, 3), Breakpoint(20, 0), x);
    }
  }

  /** [(10, 3), (20, 0), (30, 4), (40, 0)] is `add(30, 40, 4)` on [(10, 3), (20, 0)]. */
  lemma DisjointAddFour()
    ensures Canonical([Breakpoint(10, 3), Breakpoint(20, 0), Breakpoint(30, 4), Breakpoint(40, 0)]) && Raised([Breakpoint(10, 3), Breakpoint(20, 0), Breakpoint(30, 4), Breakpoint(40, 0)], [Breakpoint(10, 3), Breakpoint(20, 0)], 30, 40, 4)
  {
    forall x ensures Intensity([Breakpoint(10, 3), Breakpoint(20, 0), Breakpoint(30, 4), Breakpoint(40, 0)], x) == Intensity([Breakpoint(10, 3), Breakpoint(20, 0)], x) + RangeDelta(30, 40, 4, x) {
      Intensity4(Breakpoint(10, 3), Breakpoint(20, 0), Breakpoint(30, 4), Breakpoint(40, 0), x);
      Intensity2(Breakpoint(10, 3), Breakpoint(20, 0), x);
    }
  }

  /** The empty map is `add(10, 20, -5)` on [(10, 5), (20, 0)]. */
  lemma FiveSubtractFive()
    ensures Canonical([]) && Raised([], [Breakpoint(10, 5), Breakpoint(20, 0)], 10, 20, -5)
  {
    forall x ensures Intensity([], x) == Intensity([Breakpoint(10, 5), Breakpoint(20, 0)], x) + RangeDelta(10, 20, -5, x) {
      Intensity2(Breakpoint(10, 5), Breakpoint(20, 0), x);
    }
  }

  /** The empty map is `add(10, 20, 0)` on the empty map. */
  lemma EmptyAddZero()
    ensures Canonical([]) && Raised([], [], 10, 20, 0)
  {
    forall x ensures Intensity([], x) == Intensity([], x) + RangeDelta(10, 20, 0, x) {
    }
  }

  /** [(10, 1), (30, 0)] is `add(10, 30, 1)` on the empty map. */
  lemma EmptyAddOne()
    ensures Canonical([Breakpoint(10, 1), Breakpoint(30, 0)]) && Raised([Breakpoint(10, 1), Breakpoint(30, 0)], [], 10, 30, 1)
  {
    forall x ensures Intensity([Breakpoint(10, 1), Breakpoint(30, 0)], x) == Intensity([], x) + RangeDelta(10, 30, 1, x) {
      Intensity2(Breakpoint(10, 1), Breakpoint(30, 0), x);
    }
  }

  /** [(10, 1), (20, 2), (30, 1), (40, 0)] is `add(20, 40, 1)` on [(10, 1), (30, 0)]. */
  lemma OverlapAddOne()
    ensures Canonical([Breakpoint(10, 1), Breakpoint(20, 2), Breakpoint(30, 1), Breakpoint(40, 0)]) && Raised([Breakpoint(10, 1), Breakpoint(20, 2), Breakpoint(30, 1), Breakpoint(40, 0)], [Breakpoint(10, 1), Breakpoint(30, 0)], 20, 40, 1)
  {
    forall x ensures Intensity([Breakpoint(10, 1), Breakpoint(20, 2), Breakpoint(30, 1), Breakpoint(40, 0)], x) == Intensity([Breakpoint(10, 1), Breakpoint(30, 0)], x) + RangeDelta(20, 40, 1, x) {
      Intensity4(Breakpoint(10, 1), Breakpoint(20, 2), Breakpoint(30, 1), Breakpoint(40, 0), x);
      Intensity2(Breakpoint(10, 1), Breakpoint(30, 0), x);
    }
  }

  /** [(10, -1), (20, 0), (30, -1), (40, 0)] is `add(10, 40, -2)` on [(10, 1), (20, 2), (30, 1), (40, 0)]. */
  lemma OverlapSubtractTwo()
    ensures Canonical([Breakpoint(10, -1), Breakpoint(20, 0), Breakpoint(30, -1), Breakpoint(40, 0)]) && Raised([Breakpoint(10, -1), Breakpoint(20, 0), Breakpoint(30, -1), Breakpoint(40, 0)], [Breakpoint(10, 1), Breakpoint(20, 2), Breakpoint(30, 1), Breakpoint(40, 0)], 10, 40, -2)
  {
    forall x ensures Intensity([Breakpoint(10, -1), Breakpoint(20, 0), Breakpoint(30, -1), Breakpoint(40, 0)], x) == Intensity([Breakpoint(10, 1), Breakpoint(20, 2), Breakpoint(30, 1), Breakpoint(40, 0)], x) + RangeDelta(10, 40, -2, x) {
      Intensity4(Breakpoint(10, -1), Breakpoint(20, 0), Breakpoint(30, -1), Breakpoint(40, 0), x);
      Intensity4(Breakpoint(10, 1), Breakpoint(20, 2), Breakpoint(30, 1), Breakpoint(40, 0), x);
    }
  }

  /** [(20, 1), (30, 0)] is `add(10, 40, -1)` on [(10, 1), (20, 2), (30, 1), (40, 0)]. */
  lemma OverlapSubtractOne()
    ensures Canonical([Breakpoint(20, 1), Breakpoint(30, 0)]) && Raised([Breakpoint(20, 1), Breakpoint(30, 0)], [Breakpoint(10, 1), Breakpoint(20, 2), Breakpoint(30, 1), Breakpoint(40, 0)], 10, 40, -1)
  {
    forall x ensures Intensity([Breakpoint(20, 1), Breakpoint(30, 0)], x) == Intensity([Breakpoint(10, 1), Breakpoint(20, 2), Breakpoint(30, 1), Breakpoint(40, 0)], x) + RangeDelta(10, 40, -1, x) {
      Intensity2(Breakpoint(20, 1), Breakpoint(30, 0), x);
      Intensity4(Breakpoint(10, 1), Breakpoint(20, 2), Breakpoint(30, 1), Breakpoint(40, 0), x);
    }
  }

  /** [(10, -1), (20, 0), (30, -1), (40, 0)] is `add(10, 40, -1)` on [(20, 1), (30, 0)]. */
  lemma PeakSubtractOne()
    ensures Canonical([Breakpoint(10, -1), Breakpoint(20, 0), Breakpoint(30, -1), Breakpoint(40, 0)]) && Raised([Breakpoint(10, -1), Breakpoint(20, 0), Breakpoint(30, -1), Breakpoint(40, 0)], [Breakpoint(20, 1), Breakpoint(30, 0)], 10, 40, -1)
  {
    forall x ensures Intensity([Breakpoint(10, -1), Breakpoint(20, 0), Breakpoint(30, -1), Breakpoint(40, 0)], x) == Intensity([Breakpoint(20, 1), Breakpoint(30, 0)], x) + RangeDelta(10, 40, -1, x) {
      Intensity4(Breakpoint(10, -1), Breakpoint(20, 0), Breakpoint(30, -1), Breakpoint(40, 0), x);
      Intensity2(Breakpoint(20, 1), Breakpoint(30, 0), x);
    }
  }

  /** `add(10, 20, 5)` on a new manager gives [(10, 5), (20, 0)]. */
  method SimplePositiveRange() returns (snapshot: seq<Breakpoint>)
    ensures snapshot == [Breakpoint(10, 5), Breakpoint(20, 0)]
  {
    var m := new IntensityManagerImpl();
    var _ := m.Add(10, 20, 5);
    EmptyAddFive();
    RaisedIs(m.segments, [], 10, 20, 5, [Breakpoint(10, 5), Breakpoint(20, 0)]);
    snapshot := m.Get();
  }

  /** Three `add(10, 20, 5)` calls pile up to [(10, 15), (20, 0)]. */
  method SameIntervals() returns (snapshot: seq<Breakpoint>)
    ensures snapshot == [Breakpoint(10, 15), Breakpoint(20, 0)]
  {
    var m := new IntensityManagerImpl();
    var _ := m.Add(10, 20, 5);
    EmptyAddFive();
    RaisedIs(m.segments, [], 10, 20, 5, [Breakpoint(10, 5), Breakpoint(20, 0)]);
    var _ := m.Add(10, 20, 5);
    FiveAddFive();
    RaisedIs(m.segments, [Breakpoint(10, 5), Breakpoint(20, 0)], 10, 20, 5, [Breakpoint(10, 10), Breakpoint(20, 0)]);
    var _ := m.Add(10, 20, 5);
    TenAddFive();
    RaisedIs(m.segments, [Breakpoint(10, 10), Breakpoint(20, 0)], 10, 20, 5, [Breakpoint(10, 15), Breakpoint(20, 0)]);
    snapshot := m.Get();
  }

  /** Disjoint ranges keep their own breakpoints: [(10, 3), (20, 0), (30, 4), (40, 0)]. */
  method DisjointRanges() returns (snapshot: seq<Breakpoint>)
    ensures snapshot == [Breakpoint(10, 3), Breakpoint(20, 0), Breakpoint(30, 4), Breakpoint(40, 0)]
  {
    var m := new IntensityManagerImpl();
    var _ := m.Add(10, 20, 3);
    EmptyAddThree();
    RaisedIs(m.segments, [], 10, 20, 3, [Breakpoint(10, 3), Breakpoint(20, 0)]);
    var _ := m.Add(30, 40, 4);
    DisjointAddFour();
    RaisedIs(m.segments, [Breakpoint(10, 3), Breakpoint(20, 0)], 30, 40, 4, [Breakpoint(10, 3), Breakpoint(20, 0), Breakpoint(30, 4), Breakpoint(40, 0)]);
    snapshot := m.Get();
  }

  /** Adding 5 and then -5 over the same range leaves the map empty. */
  method ReducesToZero() returns (snapshot: seq<Breakpoint>)
    ensures snapshot == []
  {
    var m := new IntensityManagerImpl();
    var _ := m.Add(10, 20, 5);
    EmptyAddFive();
    RaisedIs(m.segments, [], 10, 20, 5, [Breakpoint(10, 5), Breakpoint(20, 0)]);
    var _ := m.Add(10, 20, -5);
    FiveSubtractFive();
    RaisedIs(m.segments, [Breakpoint(10, 5), Breakpoint(20, 0)], 10, 20, -5, []);
    snapshot := m.Get();
  }

  /** Adding 0 leaves a new manager's map empty. */
  method ZeroAmount() returns (snapshot: seq<Breakpoint>)
    ensures snapshot == []
  {
    var m := new IntensityManagerImpl();
    var _ := m.Add(10, 20, 0);
    EmptyAddZero();
    RaisedIs(m.segments, [], 10, 20, 0, []);
    snapshot := m.Get();
  }

  /** Overlapping ranges, then one subtraction over their union; every intermediate snapshot as the test checks it. */
  method SequenceAdded() returns (first: seq<Breakpoint>, second: seq<Breakpoint>, third: seq<Breakpoint>)
    ensures first == [Breakpoint(10, 1), Breakpoint(30, 0)]
    ensures second == [Breakpoint(10, 1), Breakpoint(20, 2), Breakpoint(30, 1), Breakpoint(40, 0)]
    ensures third == [Breakpoint(10, -1), Breakpoint(20, 0), Breakpoint(30, -1), Breakpoint(40, 0)]
  {
    var m := new IntensityManagerImpl();
    var _ := m.Add(10, 30, 1);
    EmptyAddOne();
    RaisedIs(m.segments, [], 10, 30, 1, [Breakpoint(10, 1), Breakpoint(30, 0)]);
    first := m.Get();
    var _ := m.Add(20, 40, 1);
    OverlapAddOne();
    RaisedIs(m.segments, [Breakpoint(10, 1), Breakpoint(30, 0)], 20, 40, 1, [Breakpoint(10, 1), Breakpoint(20, 2), Breakpoint(30, 1), Breakpoint(40, 0)]);
    second := m.Get();
    var _ := m.Add(10, 40, -2);
    OverlapSubtractTwo();
    RaisedIs(m.segments, [Breakpoint(10, 1), Breakpoint(20, 2), Breakpoint(30, 1), Breakpoint(40, 0)], 10, 40, -2, [Breakpoint(10, -1), Breakpoint(20, 0), Breakpoint(30, -1), Breakpoint(40, 0)]);
    third := m.Get();
  }

  /** As above, but the subtraction comes in two steps of -1, passing through [(20, 1), (30, 0)]. */
  method MultipleSequentialAdds() returns (first: seq<Breakpoint>, second: seq<Breakpoint>, third: seq<Breakpoint>, fourth: seq<Breakpoint>)
    ensures first == [Breakpoint(10, 1), Breakpoint(30, 0)]
    ensures second == [Breakpoint(10, 1), Breakpoint(20, 2), Breakpoint(30, 1), Breakpoint(40, 0)]
    ensures third == [Breakpoint(20, 1), Breakpoint(30, 0)]
    ensures fourth == [Breakpoint(10, -1), Breakpoint(20, 0), Breakpoint(30, -1), Breakpoint(40, 0)]
  {
    var m := new IntensityManagerImpl();
    var _ := m.Add(10, 30, 1);
    EmptyAddOne();
    RaisedIs(m.segments, [], 10, 30, 1, [Breakpoint(10, 1), Breakpoint(30, 0)]);
    first := m.Get();
    var _ := m.Add(20, 40, 1);
    OverlapAddOne();
    RaisedIs(m.segments, [Breakpoint(10, 1), Breakpoint(30, 0)], 20, 40, 1, [Breakpoint(10, 1), Breakpoint(20, 2), Breakpoint(30, 1), Breakpoint(40, 0)]);
    second := m.Get();
    var _ := m.Add(10, 40, -1);
    OverlapSubtractOne();
    RaisedIs(m.segments, [Breakpoint(10, 1), Breakpoint(20, 2), Breakpoint(30, 1), Breakpoint(40, 0)], 10, 40, -1, [Breakpoint(20, 1), Breakpoint(30, 0)]);
    third := m.Get();
    var _ := m.Add(10, 40, -1);
    PeakSubtractOne();
    RaisedIs(m.segments, [Breakpoint(20, 1), Breakpoint(30, 0)], 10, 40, -1, [Breakpoint(10, -1), Breakpoint(20, 0), Breakpoint(30, -1), Breakpoint(40, 0)]);
    fourth := m.Get();
  }

  /** An empty range and a reversed range are rejected with the message, and the map is left as it was. */
  method RejectsEmptyAndReversedRanges() returns (empty: Outcome<Error>, reversed: Outcome<Error>, snapshot: seq<Breakpoint>)
    ensures empty == Fail(IllegalArgument("from must be less than to"))
    ensures reversed == Fail(IllegalArgument("from must be less than to"))
    ensures snapshot == [Breakpoint(10, 5), Breakpoint(20, 0)]
  {
    var m := new IntensityManagerImpl();
    var _ := m.Add(10, 20, 5);
    EmptyAddFive();
    RaisedIs(m.segments, [], 10, 20, 5, [Breakpoint(10, 5), Breakpoint(20, 0)]);
    empty := m.Add(5, 5, 1);
    reversed := m.Add(10, 3, 1);
    snapshot := m.Get();
  }

  /**
    Any sequence of `add` calls on a new manager: the snapshot is the one
    `Replay` describes, so it is canonical, ends at 0 and carries the summed
    intensity.
  */
  method RunCalls(calls: seq<Call>) returns (snapshot: seq<Breakpoint>)
    ensures snapshot == Replay(calls)
    ensures Canonical(snapshot) && ZeroAtEnd(snapshot)
    ensures forall x :: Intensity(snapshot, x) == TotalDelta(calls, x)
  {
    var m := new IntensityManagerImpl();
    var i := 0;
    while i < |calls|
      invariant 0 <= i <= |calls|
      invariant m.Valid() && m.segments == Replay(calls[..i])
    {
      assert calls[..i + 1][..i] == calls[..i];
      var _ := m.Add(calls[i].from, calls[i].to, calls[i].amount);
      i := i + 1;
    }
    assert calls[..i] == calls;
    ReplaySpec(calls);
    snapshot := m.Get();
  }
}
