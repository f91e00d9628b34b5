/**
  The breakpoint map of the intensity manager (a `TreeMap<Long, Long>` in the
  Java code) and the piecewise-constant function it stands for.

  The map is modelled as the sequence of its entries in ascending key order.
  An entry `Breakpoint(k, v)` says that the intensity is `v` from coordinate
  `k` up to the next key; before the first key the intensity is 0.
*/
module Segments {

  /** One map entry: from `key` up to the next key the intensity is `value`. */
  datatype Breakpoint = Breakpoint(key: int, value: int)

  /** Keys strictly ascending: the iteration order of a sorted map with unique keys. */
  predicate Sorted(s: seq<Breakpoint>)
  {
    forall i, j :: 0 <= i < j < |s| ==> s[i].key < s[j].key
  }

  /** The key set of the map. */
  function Keys(s: seq<Breakpoint>): set<int>
  {
    set e | e in s :: e.key
  }

  /**
    The intensity at `x`, where `before` is the intensity to the left of the
    first key: the value of the last entry whose key is at most `x`.
  */
  function IntensityFrom(s: seq<Breakpoint>, x: int, before: int): int
  {
    if s == [] || x < s[0].key then before
    else IntensityFrom(s[1..], x, s[0].value)
  }

  /** The intensity at `x`: the value of the greatest key <= x, or 0 if there is none. */
  function Intensity(s: seq<Breakpoint>, x: int): int
  {
    IntensityFrom(s, x, 0)
  }

  /** Index of the entry with the greatest key <= x (`floorEntry`), or -1 when there is none. */
  function FloorIndex(s: seq<Breakpoint>, x: int): (i: int)
    requires Sorted(s)
    ensures -1 <= i < |s|
    ensures forall j :: 0 <= j <= i ==> s[j].key <= x
    ensures forall j :: i < j < |s| ==> x < s[j].key
  {
    if s == [] || x < s[0].key then -1 else 1 + FloorIndex(s[1..], x)
  }

  /** The map is empty or its first entry is nonzero (a leading 0 only repeats the default). */
  predicate NoLeadingZero(s: seq<Breakpoint>)
  {
    s == [] || s[0].value != 0
  }

  /** No two adjacent entries carry the same value. */
  predicate NoRepeats(s: seq<Breakpoint>)
  {
    forall i :: 0 < i < |s| ==> s[i - 1].value != s[i].value
  }

  /** The canonical form every `add` leaves behind. */
  predicate Canonical(s: seq<Breakpoint>)
  {
    Sorted(s) && NoLeadingZero(s) && NoRepeats(s)
  }

  /** The intensity at x is the value stored at the floor entry of x (or `before` without one). */
  lemma {:induction false} IntensityAtFloor(s: seq<Breakpoint>, x: int, before: int)
    requires Sorted(s)
    ensures IntensityFrom(s, x, before) == if FloorIndex(s, x) < 0 then before else s[FloorIndex(s, x)].value
  {
    if s != [] && x >= s[0].key {
      IntensityAtFloor(s[1..], x, s[0].value);
    }
  }

  /** Any index that brackets x is its floor entry. */
  lemma FloorUnique(s: seq<Breakpoint>, j: int, x: int)
    requires Sorted(s) && -1 <= j < |s|
    requires j < 0 || s[j].key <= x
    requires j + 1 == |s| || x < s[j + 1].key
    ensures FloorIndex(s, x) == j
  {
  }

  /** Any index that brackets x fixes the intensity at x. */
  lemma IntensityFromFloor(s: seq<Breakpoint>, j: int, x: int, before: int)
    requires Sorted(s) && -1 <= j < |s|
    requires j < 0 || s[j].key <= x
    requires j + 1 == |s| || x < s[j + 1].key
    ensures IntensityFrom(s, x, before) == if j < 0 then before else s[j].value
  {
    FloorUnique(s, j, x);
    IntensityAtFloor(s, x, before);
  }

  /** `containsKey` by way of `floorEntry`: p is a key exactly when the floor entry of p has key p. */
  lemma KeyAtFloor(s: seq<Breakpoint>, p: int)
    requires Sorted(s)
    ensures p in Keys(s) <==> 0 <= FloorIndex(s, p) && s[FloorIndex(s, p)].key == p
  {
    var i := FloorIndex(s, p);
    if p in Keys(s) {
      var e :| e in s && e.key == p;
      var j :| 0 <= j < |s| && s[j] == e;
      assert j <= i;
    } else if 0 <= i {
      assert s[i] in s;
    }
  }

  /** At its own key, an entry's value is the intensity. */
  lemma IntensityAtKey(s: seq<Breakpoint>, i: int, before: int)
    requires Sorted(s) && 0 <= i < |s|
    ensures IntensityFrom(s, s[i].key, before) == s[i].value
  {
    IntensityFromFloor(s, i, s[i].key, before);
  }

  /** From the last key on, the intensity is the last entry's value. */
  lemma IntensityBeyondLast(s: seq<Breakpoint>, x: int)
    requires Sorted(s) && s != [] && s[|s| - 1].key <= x
    ensures Intensity(s, x) == s[|s| - 1].value
  {
    IntensityFromFloor(s, |s| - 1, x, 0);
  }

  /**
    Two sorted maps without adjacent repeats whose first entries differ from
    the common `before` value, and that describe the same function, are equal.
  */
  lemma {:induction false} UniqueFrom(s: seq<Breakpoint>, t: seq<Breakpoint>, before: int)
    requires Sorted(s) && NoRepeats(s) && (s == [] || s[0].value != before)
    requires Sorted(t) && NoRepeats(t) && (t == [] || t[0].value != before)
    requires forall x :: IntensityFrom(s, x, before) == IntensityFrom(t, x, before)
    ensures s == t
  {
    if s == [] {
      if t != [] {
        IntensityAtKey(t, 0, before);
        assert false;
      }
    } else if t == [] {
      IntensityAtKey(s, 0, before);
      assert false;
    } else {
      IntensityAtKey(s, 0, before);
      IntensityAtKey(t, 0, before);
      if s[0].key < t[0].key {
        assert false;
      } else if t[0].key < s[0].key {
        assert false;
      }
      var k, v := s[0].key, s[0].value;
      assert IntensityFrom(t, k, before) == v;
      forall x
        ensures IntensityFrom(s[1..], x, v) == IntensityFrom(t[1..], x, v)
      {
        if x < k {
          assert s[1..] == [] || x < s[1].key;
          assert t[1..] == [] || x < t[1].key;
        } else {
          assert IntensityFrom(s, x, before) == IntensityFrom(s[1..], x, v);
          assert IntensityFrom(t, x, before) == IntensityFrom(t[1..], x, v);
        }
      }
      assert s[1..] == [] || s[1..][0].value != v;
      assert t[1..] == [] || t[1..][0].value != v;
      UniqueFrom(s[1..], t[1..], v);
      assert s == [s[0]] + s[1..];
      assert t == [t[0]] + t[1..];
    }
  }

  /** Canonical maps that describe the same function are the same sequence. */
  lemma CanonicalUnique(s: seq<Breakpoint>, t: seq<Breakpoint>)
    requires Canonical(s) && Canonical(t)
    requires forall x :: Intensity(s, x) == Intensity(t, x)
    ensures s == t
  {
    forall x
      ensures IntensityFrom(s, x, 0) == IntensityFrom(t, x, 0)
    {
      assert Intensity(s, x) == Intensity(t, x);
    }
    UniqueFrom(s, t, 0);
  }
}
