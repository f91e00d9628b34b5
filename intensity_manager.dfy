/**
  `IntensityManagerImpl`: the object that owns the breakpoint map and updates
  it in place. Each method is proved to leave the map its specification
  function in `Operations` describes.
*/
module IntensityManager {
  import opened Wrappers
  import opened Segments
  import opened Operations

  /** The message of the exception `TreeMap.subMap` throws when its lower bound exceeds its upper bound. */
  const SubMapMessage := "fromKey > toKey"

  class IntensityManagerImpl {
    /** The `TreeMap<Long, Long>`: its entries in ascending key order. */
    var segments: seq<Breakpoint>

    /** A sorted map: keys strictly ascending. */
    ghost predicate Valid()
      reads this
    {
      Sorted(segments)
    }

    /** A new manager starts with an empty map. */
    constructor()
      ensures Valid() && segments == []
    {
      segments := [];
    }

    /** `get()`: the current map. */
    method Get() returns (snapshot: seq<Breakpoint>)
      ensures snapshot == segments
    {
      snapshot := segments;
    }

    /** `insertInterval(point)`: unless point is a key, put it with the value of its floor entry (or 0). */
    method InsertInterval(point: int)
      requires Valid()
      modifies this
      ensures Valid() && segments == Split(old(segments), point)
    {
      var s := segments;
      KeyAtFloor(s, point);
      if point !in Keys(s) {
        var i := FloorIndex(s, point);
        var value := if i < 0 then 0 else s[i].value;
        segments := Insert(s, i + 1, Breakpoint(point, value));
        assert segments == Split(s, point);
      } else {
        assert s == Split(s, point);
      }
    }

    /**
      `set(from, to, amount)`: insert both points, then add `amount` to every
      entry whose key lies in [from, to). With from > to the two points are
      inserted and the range request fails.
    */
    method Set(from: int, to: int, amount: int) returns (outcome: Outcome<Error>)
      requires Valid()
      modifies this
      ensures Valid() && segments == SetRange(old(segments), from, to, amount)
      ensures outcome == if from > to then Fail(IllegalArgument(SubMapMessage)) else Pass
    {
      InsertInterval(from);
      InsertInterval(to);
      if from > to {
        SetRangeReversed(old(segments), from, to, amount);
        return Fail(IllegalArgument(SubMapMessage));
      }
      SetRangeStart(old(segments), from, to);
      AddInRange(from, to, amount);
      outcome := Pass;
    }

    /**
      The loop of `set`: walk the keys of `subMap(from, true, to, false)` and
      add `amount` to each of their values. `from` is a key at this point.
    */
    method AddInRange(from: int, to: int, amount: int)
      requires Valid() && from in Keys(segments)
      modifies this
      ensures Valid() && segments == ShiftRange(old(segments), from, to, amount)
    {
      KeyAtFloor(segments, from);
      var first := FloorIndex(segments, from);
      var i := first;
      while i < |segments| && segments[i].key < to
        invariant first <= i <= |segments| == |old(segments)|
        invariant forall j :: 0 <= j < i ==> segments[j] == ShiftEntry(old(segments)[j], from, to, amount)
        invariant forall j :: i <= j < |segments| ==> segments[j] == old(segments)[j]
      {
        assert from <= old(segments)[i].key by {
          assert i == first || old(segments)[first].key < old(segments)[i].key;
        }
        segments := segments[i := Breakpoint(segments[i].key, segments[i].value + amount)];
        i := i + 1;
      }
      assert segments == ShiftRange(old(segments), from, to, amount) by {
        forall j | i <= j < |segments|
          ensures to <= old(segments)[j].key
        {
          assert j == i || old(segments)[i].key < old(segments)[j].key;
        }
      }
    }

    /**
      The scan of `mergeIntervals`: walk the entries in key order and collect
      the key of every entry whose value equals the last value kept.
    */
    static method MarkRepeats(entries: seq<Breakpoint>) returns (toRemove: seq<int>)
      ensures toRemove == Repeats(entries, None)
    {
      toRemove := [];
      var lastValue: Option<int> := None;
      var i := 0;
      while i < |entries|
        invariant 0 <= i <= |entries|
        invariant toRemove + Repeats(entries[i..], lastValue) == Repeats(entries, None)
      {
        RepeatsStep(entries, i, lastValue);
        if Some(entries[i].value) == lastValue {
          assert toRemove + ([entries[i].key] + Repeats(entries[i + 1..], lastValue))
              == (toRemove + [entries[i].key]) + Repeats(entries[i + 1..], lastValue);
          toRemove := toRemove + [entries[i].key];
        } else {
          lastValue := Some(entries[i].value);
        }
        i := i + 1;
      }
    }

    /** First loop of `mergeIntervals`: poll the first entry while it holds 0. */
    method PollLeadingZeros()
      requires Valid()
      modifies this
      ensures Valid() && segments == DropLeadingZeros(old(segments))
    {
      while segments != [] && segments[0].value == 0
        invariant Sorted(segments)
        invariant DropLeadingZeros(segments) == DropLeadingZeros(old(segments))
        decreases |segments|
      {
        segments := segments[1..];
      }
    }

    /** Last loop of `mergeIntervals`: remove each marked key in turn. */
    method RemoveKeys(toRemove: seq<int>)
      modifies this
      ensures segments == WithoutKeys(old(segments), toRemove)
    {
      WithoutNoKeys(segments);
      var j := 0;
      while j < |toRemove|
        invariant 0 <= j <= |toRemove|
        invariant segments == WithoutKeys(old(segments), toRemove[..j])
      {
        WithoutKeysPrefix(old(segments), toRemove, j);
        segments := WithoutKeys(segments, [toRemove[j]]);
        j := j + 1;
      }
      assert toRemove[..j] == toRemove;
    }

    /**
      `mergeIntervals()`: poll the leading zero entries, mark every entry whose
      value equals the last kept one, then remove the marked keys.
    */
    method MergeIntervals()
      requires Valid()
      modifies this
      ensures Valid() && segments == Merge(old(segments))
    {
      PollLeadingZeros();
      var toRemove := MarkRepeats(segments);
      RemovingRepeatsIsSquash(segments, None);
      RemoveKeys(toRemove);
      assert segments == Merge(old(segments));
    }

    /**
      `add(from, to, amount)`: throw on an empty or reversed range, otherwise
      `set` then `mergeIntervals`. The map left behind is canonical and its
      intensity is the old one raised by `amount` on [from, to).
    */
    method Add(from: int, to: int, amount: int) returns (outcome: Outcome<Error>)
      requires Valid()
      modifies this
      ensures Valid()
      ensures outcome == if from >= to then Fail(IllegalArgument(RangeMessage)) else Pass
      ensures Operations.Add(old(segments), from, to, amount) ==
        if from >= to then Failure(IllegalArgument(RangeMessage)) else Success(segments)
      ensures from >= to ==> segments == old(segments)
      ensures from < to ==> Canonical(segments) && Raised(segments, old(segments), from, to, amount)
    {
      if from >= to {
        return Fail(IllegalArgument(RangeMessage));
      }
      var _ := Set(from, to, amount);
      MergeIntervals();
      AddSpec(old(segments), from, to, amount);
      outcome := Pass;
    }
  }
}
