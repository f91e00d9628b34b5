/**
  The steps of the intensity manager as functions on breakpoint maps, and what
  each step does to the intensity function.

  `Split` is `insertInterval`, `SetRange` is `set`, `Merge` is
  `mergeIntervals` (its scan is `Repeats`, its removal `WithoutKeys`, and
  `Squash` is the same pass written as one recursion), and `Add` is `add`.
*/
module Operations {
  import opened Wrappers
  import opened Segments

  /** The exception `add` throws for an empty or reversed range. */
  datatype Error = IllegalArgument(message: string)

  const RangeMessage := "from must be less than to"

  /** The change an `add(from, to, amount)` makes at x: `amount` on [from, to), 0 elsewhere. */
  function RangeDelta(from: int, to: int, amount: int, x: int): int
  {
    if from <= x < to then amount else 0
  }

  // ---------------------------------------------------------------------------
  // insertInterval

  /** The map with `e` placed at position k (a `put` of a new key). */
  function Insert(s: seq<Breakpoint>, k: int, e: Breakpoint): (r: seq<Breakpoint>)
    requires 0 <= k <= |s|
    ensures |r| == |s| + 1 && r[k] == e
    ensures forall j :: 0 <= j < k ==> r[j] == s[j]
    ensures forall j :: k < j < |r| ==> r[j] == s[j - 1]
  {
    s[..k] + [e] + s[k..]
  }

  /**
    `insertInterval(p)`: if p is not a key, add the entry (p, v) where v is the
    value of the floor entry of p, or 0 when p has no floor entry.
  */
  function Split(s: seq<Breakpoint>, p: int): (r: seq<Breakpoint>)
    requires Sorted(s)
    ensures Sorted(r)
  {
    var i := FloorIndex(s, p);
    if 0 <= i && s[i].key == p then s
    else Insert(s, i + 1, Breakpoint(p, if i < 0 then 0 else s[i].value))
  }

  /** The split leaves the intensity at x unchanged. */
  lemma SplitIntensity(s: seq<Breakpoint>, p: int, x: int)
    requires Sorted(s)
    ensures Intensity(Split(s, p), x) == Intensity(s, x)
  {
    var i := FloorIndex(s, p);
    if i < 0 || s[i].key != p {
      var r := Split(s, p);
      var f := FloorIndex(s, x);
      IntensityFromFloor(s, f, x, 0);
      if x < p {
        IntensityFromFloor(r, f, x, 0);
      } else if f == i {
        IntensityFromFloor(r, i + 1, x, 0);
      } else {
        IntensityFromFloor(r, f + 1, x, 0);
      }
    }
  }

  /** Placing n at position k keeps every entry and adds only n. */
  lemma InsertEntries(s: seq<Breakpoint>, k: int, n: Breakpoint, r: seq<Breakpoint>)
    requires 0 <= k <= |s| && |r| == |s| + 1 && r[k] == n
    requires forall j :: 0 <= j < k ==> r[j] == s[j]
    requires forall j :: k < j < |r| ==> r[j] == s[j - 1]
    ensures forall e :: e in s ==> e in r
    ensures forall e :: e in r ==> e in s || e == n
  {
    forall e | e in s ensures e in r {
      var j :| 0 <= j < |s| && s[j] == e;
      if j < k { assert r[j] == e; } else { assert r[j + 1] == e; }
    }
    forall e | e in r ensures e in s || e == n {
      var j :| 0 <= j < |r| && r[j] == e;
      if j < k { assert s[j] == e; } else if j > k { assert s[j - 1] == e; }
    }
  }

  /** After the split every old entry is still there, and the only new one is p with the intensity at p. */
  lemma SplitEntries(s: seq<Breakpoint>, p: int)
    requires Sorted(s)
    ensures Breakpoint(p, Intensity(s, p)) in Split(s, p)
    ensures forall e :: e in s ==> e in Split(s, p)
    ensures forall e :: e in Split(s, p) ==> e in s || e == Breakpoint(p, Intensity(s, p))
  {
    var i := FloorIndex(s, p);
    var n := Breakpoint(p, Intensity(s, p));
    IntensityAtFloor(s, p, 0);
    if 0 <= i && s[i].key == p {
      assert n == s[i];
    } else {
      var r := Split(s, p);
      assert r[i + 1] == n;
      InsertEntries(s, i + 1, n, r);
    }
  }

  /** The split adds p to the keys and no other key. */
  lemma SplitKeys(s: seq<Breakpoint>, p: int)
    requires Sorted(s)
    ensures Keys(Split(s, p)) == Keys(s) + {p}
  {
    SplitEntries(s, p);
  }

  /**
    After the split p is a key holding the intensity at p; every old entry is
    still there, nothing else is added, and the intensity is unchanged everywhere.
  */
  lemma SplitSpec(s: seq<Breakpoint>, p: int)
    requires Sorted(s)
    ensures Breakpoint(p, Intensity(s, p)) in Split(s, p)
    ensures forall e :: e in s ==> e in Split(s, p)
    ensures forall e :: e in Split(s, p) ==> e in s || e == Breakpoint(p, Intensity(s, p))
    ensures Keys(Split(s, p)) == Keys(s) + {p}
    ensures forall x :: Intensity(Split(s, p), x) == Intensity(s, x)
  {
    SplitEntries(s, p);
    SplitKeys(s, p);
    forall x ensures Intensity(Split(s, p), x) == Intensity(s, x) {
      SplitIntensity(s, p, x);
    }
  }
  // ---------------------------------------------------------------------------
  // set

  /** One entry after the `set` loop: shifted by `amount` when its key lies in [from, to). */
  function ShiftEntry(e: Breakpoint, from: int, to: int, amount: int): (r: Breakpoint)
    ensures r.key == e.key && r.value == e.value + RangeDelta(from, to, amount, e.key)
  {
    if from <= e.key < to then Breakpoint(e.key, e.value + amount) else e
  }
  /** The loop of `set`: `amount` added to every entry whose key lies in [from, to). */
  function ShiftRange(s: seq<Breakpoint>, from: int, to: int, amount: int): (r: seq<Breakpoint>)
    ensures |r| == |s|
    ensures forall i :: 0 <= i < |s| ==> r[i] == ShiftEntry(s[i], from, to, amount)
    ensures Sorted(s) ==> Sorted(r)
  {
    seq(|s|, i requires 0 <= i < |s| => ShiftEntry(s[i], from, to, amount))
  }

  /** With from and to at indices a and b, the shift changes the intensity at x by the range delta. */
  lemma ShiftRangeIntensity(s: seq<Breakpoint>, from: int, to: int, amount: int, a: int, b: int, x: int)
    requires Sorted(s) && 0 <= a < |s| && 0 <= b < |s| && s[a].key == from && s[b].key == to
    ensures Intensity(ShiftRange(s, from, to, amount), x) == Intensity(s, x) + RangeDelta(from, to, amount, x)
  {
    ShiftedIntensity(s, ShiftRange(s, from, to, amount), from, to, amount, a, b, x);
  }

  /** The pointwise argument of ShiftRangeIntensity, for any r that is s entry by entry shifted. */
  lemma ShiftedIntensity(s: seq<Breakpoint>, r: seq<Breakpoint>, from: int, to: int, amount: int, a: int, b: int, x: int)
    requires Sorted(s) && Sorted(r) && |r| == |s|
    requires forall i :: 0 <= i < |s| ==> r[i] == ShiftEntry(s[i], from, to, amount)
    requires 0 <= a < |s| && 0 <= b < |s| && s[a].key == from && s[b].key == to
    ensures Intensity(r, x) == Intensity(s, x) + RangeDelta(from, to, amount, x)
  {
    var f := FloorIndex(s, x);
    IntensityFromFloor(s, f, x, 0);
    IntensityFromFloor(r, f, x, 0);
    if from <= x {
      assert a <= f;
      assert s[a].key <= s[f].key;
    }
    if to <= x {
      assert b <= f;
      assert s[b].key <= s[f].key;
    }
  }

  /**
    When from and to are both keys, shifting the entries in [from, to) raises
    the intensity by `amount` exactly on [from, to).
  */
  lemma ShiftRangeSpec(s: seq<Breakpoint>, from: int, to: int, amount: int)
    requires Sorted(s) && from in Keys(s) && to in Keys(s)
    ensures Sorted(ShiftRange(s, from, to, amount))
    ensures forall x :: Intensity(ShiftRange(s, from, to, amount), x) == Intensity(s, x) + RangeDelta(from, to, amount, x)
  {
    var a :| 0 <= a < |s| && s[a].key == from;
    var b :| 0 <= b < |s| && s[b].key == to;
    forall x
      ensures Intensity(ShiftRange(s, from, to, amount), x) == Intensity(s, x) + RangeDelta(from, to, amount, x)
    {
      ShiftRangeIntensity(s, from, to, amount, a, b, x);
    }
  }
  /** The shift keeps every key. */
  lemma ShiftRangeKeys(s: seq<Breakpoint>, from: int, to: int, amount: int)
    ensures Keys(ShiftRange(s, from, to, amount)) == Keys(s)
  {
    var r := ShiftRange(s, from, to, amount);
    forall k | k in Keys(r) ensures k in Keys(s) {
      var i :| 0 <= i < |r| && r[i].key == k;
      assert s[i] in s;
    }
    forall k | k in Keys(s) ensures k in Keys(r) {
      var i :| 0 <= i < |s| && s[i].key == k;
      assert r[i] in r;
    }
  }

  /** `set(from, to, amount)`: both boundaries split, then the entries in [from, to) shifted. */
  function SetRange(s: seq<Breakpoint>, from: int, to: int, amount: int): (r: seq<Breakpoint>)
    requires Sorted(s)
    ensures Sorted(r)
  {
    ShiftRange(Split(Split(s, from), to), from, to, amount)
  }

  /** After both splits of `set`, `from` is a key. */
  lemma SetRangeStart(s: seq<Breakpoint>, from: int, to: int)
    requires Sorted(s)
    ensures from in Keys(Split(Split(s, from), to))
  {
    SplitKeys(s, from);
    SplitKeys(Split(s, from), to);
  }

  /** `set` raises the intensity by `amount` exactly on [from, to). */
  lemma SetRangeIntensity(s: seq<Breakpoint>, from: int, to: int, amount: int)
    requires Sorted(s)
    ensures forall x :: Intensity(SetRange(s, from, to, amount), x) == Intensity(s, x) + RangeDelta(from, to, amount, x)
  {
    var s1 := Split(s, from);
    var s2 := Split(s1, to);
    SplitSpec(s, from);
    SplitSpec(s1, to);
    assert from in Keys(s2) && to in Keys(s2);
    ShiftRangeSpec(s2, from, to, amount);
  }
  /** After `set`, from and to are keys, and no other key was added. */
  lemma SetRangeKeys(s: seq<Breakpoint>, from: int, to: int, amount: int)
    requires Sorted(s)
    ensures Keys(SetRange(s, from, to, amount)) == Keys(s) + {from, to}
  {
    var s1 := Split(s, from);
    var s2 := Split(s1, to);
    SplitKeys(s, from);
    SplitKeys(s1, to);
    ShiftRangeKeys(s2, from, to, amount);
  }
  /** Shifting a map keeps every entry outside [from, to) and raises every entry inside it. */
  lemma ShiftRangeEntries(s: seq<Breakpoint>, from: int, to: int, amount: int)
    ensures forall e :: e in s && !(from <= e.key < to) ==> e in ShiftRange(s, from, to, amount)
    ensures forall e :: e in s && from <= e.key < to ==> Breakpoint(e.key, e.value + amount) in ShiftRange(s, from, to, amount)
  {
    var r := ShiftRange(s, from, to, amount);
    forall e | e in s
      ensures !(from <= e.key < to) ==> e in r
      ensures from <= e.key < to ==> Breakpoint(e.key, e.value + amount) in r
    {
      var i :| 0 <= i < |s| && s[i] == e;
      assert r[i] in r;
    }
  }

  /** After `set`, the entries in [from, to) gained `amount` and all others kept their values. */
  lemma SetRangeEntries(s: seq<Breakpoint>, from: int, to: int, amount: int)
    requires Sorted(s)
    ensures forall e :: e in s && !(from <= e.key < to) ==> e in SetRange(s, from, to, amount)
    ensures forall e :: e in s && from <= e.key < to ==> Breakpoint(e.key, e.value + amount) in SetRange(s, from, to, amount)
  {
    var s1 := Split(s, from);
    SplitEntries(s, from);
    SplitEntries(s1, to);
    ShiftRangeEntries(Split(s1, to), from, to, amount);
  }

  /**
    After `set`, from and to are keys; the entries in [from, to) gained
    `amount`, all others kept their values, and nothing else was added; so the
    intensity rose by `amount` exactly on [from, to).
  */
  lemma SetRangeSpec(s: seq<Breakpoint>, from: int, to: int, amount: int)
    requires Sorted(s)
    ensures Sorted(SetRange(s, from, to, amount))
    ensures Keys(SetRange(s, from, to, amount)) == Keys(s) + {from, to}
    ensures forall e :: e in s && !(from <= e.key < to) ==> e in SetRange(s, from, to, amount)
    ensures forall e :: e in s && from <= e.key < to ==> Breakpoint(e.key, e.value + amount) in SetRange(s, from, to, amount)
    ensures forall x :: Intensity(SetRange(s, from, to, amount), x) == Intensity(s, x) + RangeDelta(from, to, amount, x)
  {
    SetRangeIntensity(s, from, to, amount);
    SetRangeKeys(s, from, to, amount);
    SetRangeEntries(s, from, to, amount);
  }

  /**
    With from > to the range [from, to) holds no key, so `set` only inserts the
    two points (the Java `subMap` call then throws).
  */
  lemma SetRangeReversed(s: seq<Breakpoint>, from: int, to: int, amount: int)
    requires Sorted(s) && from > to
    ensures SetRange(s, from, to, amount) == Split(Split(s, from), to)
  {
  }

  /** `set` does not clean up: `set(10, 20, 0)` on a new manager leaves two zero entries. */
  lemma SetLeavesZeros()
    ensures SetRange([], 10, 20, 0) == [Breakpoint(10, 0), Breakpoint(20, 0)]
    ensures !Canonical(SetRange([], 10, 20, 0))
  {
    assert Split([], 10) == [Breakpoint(10, 0)];
    assert Split([Breakpoint(10, 0)], 20) == [Breakpoint(10, 0), Breakpoint(20, 0)];
  }

  // ---------------------------------------------------------------------------
  // mergeIntervals

  /**
    First loop of `mergeIntervals`: poll the first entry while its value is 0.
    What is left is a suffix, everything removed held 0, and no leading 0 remains.
  */
  function DropLeadingZeros(s: seq<Breakpoint>): (r: seq<Breakpoint>)
    ensures |r| <= |s| && r == s[|s| - |r|..]
    ensures forall i :: 0 <= i < |s| - |r| ==> s[i].value == 0
    ensures NoLeadingZero(r)
    ensures Sorted(s) ==> Sorted(r)
  {
    if s != [] && s[0].value == 0 then DropLeadingZeros(s[1..]) else s
  }

  /** Dropping leading zeros keeps the intensity. */
  lemma {:induction false} DropLeadingZerosIntensity(s: seq<Breakpoint>)
    requires Sorted(s)
    ensures forall x :: Intensity(DropLeadingZeros(s), x) == Intensity(s, x)
  {
    if s != [] && s[0].value == 0 {
      DropLeadingZerosIntensity(s[1..]);
      forall x
        ensures Intensity(DropLeadingZeros(s), x) == Intensity(s, x)
      {
        if x < s[0].key {
          assert s[1..] == [] || x < s[1..][0].key;
        }
      }
    }
  }

  /**
    Keys the scan of `mergeIntervals` marks for removal, in order: an entry is
    marked when its value equals `last`, the value last kept (None: nothing
    kept yet); otherwise it is kept and becomes `last`.
  */
  function Repeats(s: seq<Breakpoint>, last: Option<int>): (r: seq<int>)
    ensures |r| + |Squash(s, last)| == |s|
  {
    if s == [] then []
    else if Some(s[0].value) == last then [s[0].key] + Repeats(s[1..], last)
    else Repeats(s[1..], Some(s[0].value))
  }

  /** One step of the scan of `mergeIntervals`, at index i. */
  lemma RepeatsStep(s: seq<Breakpoint>, i: int, last: Option<int>)
    requires 0 <= i < |s|
    ensures Repeats(s[i..], last) ==
      if Some(s[i].value) == last then [s[i].key] + Repeats(s[i + 1..], last)
      else Repeats(s[i + 1..], Some(s[i].value))
  {
    assert s[i..][1..] == s[i + 1..];
  }

  /** The map with every entry whose key is listed in `ks` removed (`remove` for each key). */
  function WithoutKeys(s: seq<Breakpoint>, ks: seq<int>): (r: seq<Breakpoint>)
    ensures |r| <= |s|
    ensures forall e :: e in r ==> e in s && e.key !in ks
    ensures forall e :: e in s && e.key !in ks ==> e in r
  {
    if s == [] then []
    else (if s[0].key in ks then [] else [s[0]]) + WithoutKeys(s[1..], ks)
  }

  /** The second phase as one recursion: keep an entry only when its value differs from the last kept one. */
  function Squash(s: seq<Breakpoint>, last: Option<int>): seq<Breakpoint>
  {
    if s == [] then []
    else if Some(s[0].value) == last then Squash(s[1..], last)
    else [s[0]] + Squash(s[1..], Some(s[0].value))
  }

  /** Every entry of a tail is an entry of the map, with a greater key than the first. */
  lemma TailEntries(s: seq<Breakpoint>)
    requires Sorted(s) && s != []
    ensures forall e :: e in s[1..] ==> e in s && s[0].key < e.key
  {
    forall e | e in s[1..] ensures e in s && s[0].key < e.key {
      var i :| 0 <= i < |s| - 1 && s[1..][i] == e;
      assert s[i + 1] == e;
    }
  }

  /** `Squash` only deletes entries. */
  lemma {:induction false} SquashSubsequence(s: seq<Breakpoint>, last: Option<int>)
    requires Sorted(s)
    ensures forall e :: e in Squash(s, last) ==> e in s
  {
    if s != [] {
      TailEntries(s);
      if Some(s[0].value) == last {
        SquashSubsequence(s[1..], last);
      } else {
        SquashSubsequence(s[1..], Some(s[0].value));
      }
    }
  }

  /** An entry whose key is below every key of a sorted map can be put in front of it. */
  lemma ConsSorted(e: Breakpoint, q: seq<Breakpoint>)
    requires Sorted(q) && forall i :: 0 <= i < |q| ==> e.key < q[i].key
    ensures Sorted([e] + q)
  {
    var r := [e] + q;
    forall i, j | 0 <= i < j < |r| ensures r[i].key < r[j].key {
      if i == 0 { assert r[j] == q[j - 1]; } else { assert r[i] == q[i - 1] && r[j] == q[j - 1]; }
    }
  }

  /** `Squash` keeps the keys ascending. */
  lemma {:induction false} SquashSorted(s: seq<Breakpoint>, last: Option<int>)
    requires Sorted(s)
    ensures Sorted(Squash(s, last))
  {
    if s != [] {
      var v := s[0].value;
      if Some(v) == last {
        SquashSorted(s[1..], last);
      } else {
        var q := Squash(s[1..], Some(v));
        SquashSorted(s[1..], Some(v));
        SquashSubsequence(s[1..], Some(v));
        TailEntries(s);
        forall i | 0 <= i < |q| ensures s[0].key < q[i].key {
          assert q[i] in q;
        }
        ConsSorted(s[0], q);
      }
    }
  }

  /** `Squash` leaves no adjacent repeats, and its first value differs from `last`. */
  lemma {:induction false} SquashNoRepeatsHead(s: seq<Breakpoint>, last: Option<int>)
    ensures NoRepeats(Squash(s, last))
    ensures Squash(s, last) == [] || Some(Squash(s, last)[0].value) != last
  {
    if s != [] {
      var v := s[0].value;
      if Some(v) == last {
        SquashNoRepeatsHead(s[1..], last);
      } else {
        var q := Squash(s[1..], Some(v));
        SquashNoRepeatsHead(s[1..], Some(v));
        var r := [s[0]] + q;
        forall i | 0 < i < |r| ensures r[i - 1].value != r[i].value {
          if i > 1 { assert r[i - 1] == q[i - 2] && r[i] == q[i - 1]; }
        }
      }
    }
  }

  /**
    `Squash` leaves strictly ascending keys, no adjacent repeats and a first
    value different from `last`; with nothing kept yet it keeps the first entry.
  */
  lemma SquashForm(s: seq<Breakpoint>, last: Option<int>)
    requires Sorted(s)
    ensures Sorted(Squash(s, last)) && NoRepeats(Squash(s, last))
    ensures Squash(s, last) == [] || Some(Squash(s, last)[0].value) != last
    ensures last == None && s != [] ==> Squash(s, last) != [] && Squash(s, last)[0] == s[0]
  {
    SquashSorted(s, last);
    SquashNoRepeatsHead(s, last);
  }

  /** `Squash` keeps the intensity when `last` is the value before the first key (or None). */
  lemma {:induction false} SquashIntensity(s: seq<Breakpoint>, last: Option<int>, before: int)
    requires Sorted(s)
    requires last == None || last == Some(before)
    ensures forall x :: IntensityFrom(Squash(s, last), x, before) == IntensityFrom(s, x, before)
  {
    if s != [] {
      var t := s[1..];
      var v := s[0].value;
      if Some(v) == last {
        SquashIntensity(t, last, before);
        forall x
          ensures IntensityFrom(Squash(s, last), x, before) == IntensityFrom(s, x, before)
        {
          if x < s[0].key {
            assert t == [] || x < t[0].key;
          }
        }
      } else {
        SquashIntensity(t, Some(v), v);
        var q := Squash(t, Some(v));
        assert Squash(s, last) == [s[0]] + q;
        assert ([s[0]] + q)[1..] == q;
      }
    }
  }

  /**
    Of each run of adjacent equal values, `Squash(s, None)` keeps exactly the
    first entry; with a `last` value, a leading run equal to it goes too.
  */
  lemma {:induction false} SquashKeepsRunStarts(s: seq<Breakpoint>, last: Option<int>)
    requires Sorted(s)
    ensures forall i :: 0 <= i < |s| ==>
      (s[i] in Squash(s, last) <==> if i == 0 then Some(s[0].value) != last else s[i - 1].value != s[i].value)
  {
    if s != [] {
      var t := s[1..];
      var v := s[0].value;
      SquashSubsequence(t, Some(v));
      SquashKeepsRunStarts(t, Some(v));
      TailEntries(s);
      forall i | 0 <= i < |s|
        ensures s[i] in Squash(s, last) <==> if i == 0 then Some(s[0].value) != last else s[i - 1].value != s[i].value
      {
        if i > 0 {
          assert s[i] == t[i - 1];
          assert s[i] != s[0];
        } else {
          assert s[0] !in t;
        }
      }
    }
  }

  /** Removing no keys changes nothing. */
  lemma {:induction false} WithoutNoKeys(s: seq<Breakpoint>)
    ensures WithoutKeys(s, []) == s
  {
    if s != [] {
      WithoutNoKeys(s[1..]);
      assert s == [s[0]] + s[1..];
    }
  }

  /** Removing the keys `ks` and then `k` is removing the keys `ks + [k]`. */
  lemma {:induction false} WithoutKeysSnoc(s: seq<Breakpoint>, ks: seq<int>, k: int)
    ensures WithoutKeys(WithoutKeys(s, ks), [k]) == WithoutKeys(s, ks + [k])
  {
    if s != [] {
      WithoutKeysSnoc(s[1..], ks, k);
      if s[0].key !in ks {
        var t := WithoutKeys(s[1..], ks);
        assert ([s[0]] + t)[1..] == t;
        assert ([s[0]] + t)[0] == s[0];
        assert (s[0].key in ks + [k]) == (s[0].key == k);
      } else {
        assert s[0].key in ks + [k];
        assert WithoutKeys(s, ks) == WithoutKeys(s[1..], ks);
        assert WithoutKeys(s, ks + [k]) == WithoutKeys(s[1..], ks + [k]);
      }
    }
  }

  /** One more key removed, as the removal loop of `mergeIntervals` does it. */
  lemma WithoutKeysPrefix(s: seq<Breakpoint>, ks: seq<int>, j: int)
    requires 0 <= j < |ks|
    ensures WithoutKeys(WithoutKeys(s, ks[..j]), [ks[j]]) == WithoutKeys(s, ks[..j + 1])
  {
    WithoutKeysSnoc(s, ks[..j], ks[j]);
    assert ks[..j + 1] == ks[..j] + [ks[j]];
  }

  /** A key that no entry carries can be dropped from the list of keys to remove. */
  lemma {:induction false} WithoutAbsentKey(s: seq<Breakpoint>, k: int, ks: seq<int>)
    requires k !in Keys(s)
    ensures WithoutKeys(s, [k] + ks) == WithoutKeys(s, ks)
  {
    if s != [] {
      assert Keys(s[1..]) <= Keys(s) by { SuffixEntries(s, 1); }
      WithoutAbsentKey(s[1..], k, ks);
    }
  }

  /** The scan only marks keys of the map. */
  lemma {:induction false} RepeatsAreKeys(s: seq<Breakpoint>, last: Option<int>)
    ensures forall k :: k in Repeats(s, last) ==> k in Keys(s)
  {
    if s != [] {
      RepeatsAreKeys(s[1..], if Some(s[0].value) == last then last else Some(s[0].value));
      SuffixEntries(s, 1);
    }
  }

  /** Removing the keys the scan marks is the one-pass squash. */
  lemma {:induction false} RemovingRepeatsIsSquash(s: seq<Breakpoint>, last: Option<int>)
    requires Sorted(s)
    ensures WithoutKeys(s, Repeats(s, last)) == Squash(s, last)
  {
    if s != [] {
      var t := s[1..];
      var next := if Some(s[0].value) == last then last else Some(s[0].value);
      RemovingRepeatsIsSquash(t, next);
      RepeatsAreKeys(t, next);
      TailEntries(s);
      assert s[0].key !in Keys(t);
      if Some(s[0].value) == last {
        WithoutAbsentKey(t, s[0].key, Repeats(t, next));
      }
    }
  }

  /** `mergeIntervals`: drop the leading zeros, then squash; the result is canonical. */
  function Merge(s: seq<Breakpoint>): (r: seq<Breakpoint>)
    requires Sorted(s)
    ensures Canonical(r)
  {
    SquashForm(DropLeadingZeros(s), None);
    Squash(DropLeadingZeros(s), None)
  }

  /** After `mergeIntervals` only entries of the input remain. */
  lemma MergeSubsequence(s: seq<Breakpoint>)
    requires Sorted(s)
    ensures forall e :: e in Merge(s) ==> e in s
  {
    var d := DropLeadingZeros(s);
    SquashSubsequence(d, None);
    SuffixEntries(s, |s| - |d|);
  }

  lemma SuffixEntries(s: seq<Breakpoint>, k: int)
    requires 0 <= k <= |s|
    ensures forall e :: e in s[k..] ==> e in s
  {
    forall e | e in s[k..] ensures e in s {
      var i :| 0 <= i < |s| - k && s[k..][i] == e;
      assert s[k + i] == e;
    }
  }

  /** `mergeIntervals` leaves the intensity unchanged. */
  lemma MergeIntensity(s: seq<Breakpoint>)
    requires Sorted(s)
    ensures forall x :: Intensity(Merge(s), x) == Intensity(s, x)
  {
    var d := DropLeadingZeros(s);
    DropLeadingZerosIntensity(s);
    SquashIntensity(d, None, 0);
    forall x ensures Intensity(Merge(s), x) == Intensity(s, x) {
      assert Intensity(Merge(s), x) == Intensity(d, x);
    }
  }

  /** Squash changes nothing in a map with no repeats whose first value differs from `last`. */
  lemma {:induction false} SquashNoRepeats(s: seq<Breakpoint>, last: Option<int>)
    requires NoRepeats(s) && (s == [] || Some(s[0].value) != last)
    ensures Squash(s, last) == s
  {
    if s != [] {
      SquashNoRepeats(s[1..], Some(s[0].value));
      assert s == [s[0]] + s[1..];
    }
  }

  /** A canonical map is left as it is by `mergeIntervals`. */
  lemma MergeCanonical(s: seq<Breakpoint>)
    requires Canonical(s)
    ensures Merge(s) == s
  {
    SquashNoRepeats(s, None);
  }

  /** Running `mergeIntervals` a second time changes nothing. */
  lemma MergeIdempotent(s: seq<Breakpoint>)
    requires Sorted(s)
    ensures Merge(Merge(s)) == Merge(s)
  {
    MergeCanonical(Merge(s));
  }

  // ---------------------------------------------------------------------------
  // add

  /** `add(from, to, amount)`: reject an empty range, otherwise `set` then `mergeIntervals`. */
  function Add(s: seq<Breakpoint>, from: int, to: int, amount: int): (r: Result<seq<Breakpoint>, Error>)
    requires Sorted(s)
    ensures r.Failure? <==> from >= to
    ensures r.Success? ==> Canonical(r.value)
  {
    if from >= to then Failure(IllegalArgument(RangeMessage))
    else Success(Merge(SetRange(s, from, to, amount)))
  }

  /** `r` describes the intensity of `s` raised by `amount` on [from, to) and unchanged elsewhere. */
  ghost predicate Raised(r: seq<Breakpoint>, s: seq<Breakpoint>, from: int, to: int, amount: int)
  {
    forall x :: Intensity(r, x) == Intensity(s, x) + RangeDelta(from, to, amount, x)
  }

  /**
    `add` fails exactly on an empty or reversed range; otherwise it leaves a
    canonical map whose intensity is the old one raised by `amount` on
    [from, to) and unchanged elsewhere.
  */
  lemma AddSpec(s: seq<Breakpoint>, from: int, to: int, amount: int)
    requires Sorted(s)
    ensures from >= to ==> Add(s, from, to, amount) == Failure(IllegalArgument(RangeMessage))
    ensures from < to ==> Raised(Add(s, from, to, amount).value, s, from, to, amount)
  {
    if from < to {
      SetRangeSpec(s, from, to, amount);
      MergeIntensity(SetRange(s, from, to, amount));
    }
  }

  /** Maps raised by the same total over the same range from the same map are equal when canonical. */
  lemma RaisedTwice(s: seq<Breakpoint>, s1: seq<Breakpoint>, r1: seq<Breakpoint>, r2: seq<Breakpoint>,
                    from: int, to: int, a: int, b: int, total: int)
    requires Canonical(r1) && Canonical(r2) && total == a + b
    requires Raised(s1, s, from, to, a) && Raised(r1, s1, from, to, b) && Raised(r2, s, from, to, total)
    ensures r1 == r2
  {
    CanonicalUnique(r1, r2);
  }

  /** Two `add`s over the same range amount to one `add` of their sum `total`. */
  lemma AddAdditive(s: seq<Breakpoint>, from: int, to: int, a: int, b: int, total: int)
    requires Sorted(s) && from < to && total == a + b
    ensures Add(Add(s, from, to, a).value, from, to, b) == Add(s, from, to, total)
  {
    var s1 := Add(s, from, to, a).value;
    AddSpec(s, from, to, a);
    AddSpec(s1, from, to, b);
    AddSpec(s, from, to, total);
    RaisedTwice(s, s1, Add(s1, from, to, b).value, Add(s, from, to, total).value, from, to, a, b, total);
  }

  /** On a canonical map, `add` with amount 0 changes nothing. */
  lemma AddZeroIsNoOp(s: seq<Breakpoint>, from: int, to: int)
    requires Canonical(s) && from < to
    ensures Add(s, from, to, 0) == Success(s)
  {
    AddSpec(s, from, to, 0);
    CanonicalUnique(Add(s, from, to, 0).value, s);
  }

  /** On a canonical map, adding `amount` and then `minus`, its negation, restores the map. */
  lemma AddCancels(s: seq<Breakpoint>, from: int, to: int, amount: int, minus: int)
    requires Canonical(s) && from < to && minus == -amount
    ensures Add(Add(s, from, to, amount).value, from, to, minus) == Success(s)
  {
    AddAdditive(s, from, to, amount, minus, 0);
    AddZeroIsNoOp(s, from, to);
  }

  /** The map is empty or its last entry holds 0: the intensity returns to 0 after the last key. */
  predicate ZeroAtEnd(s: seq<Breakpoint>)
  {
    s == [] || s[|s| - 1].value == 0
  }

  /** Raising a range of a map that ends at 0 gives a map that ends at 0. */
  lemma RaisedKeepsZeroAtEnd(r: seq<Breakpoint>, s: seq<Breakpoint>, from: int, to: int, amount: int)
    requires Sorted(r) && Sorted(s) && ZeroAtEnd(s) && Raised(r, s, from, to, amount)
    ensures ZeroAtEnd(r)
  {
    if r != [] {
      var x := to;
      if s != [] && x < s[|s| - 1].key { x := s[|s| - 1].key; }
      if x < r[|r| - 1].key { x := r[|r| - 1].key; }
      assert Intensity(r, x) == Intensity(s, x) + RangeDelta(from, to, amount, x);
      IntensityBeyondLast(r, x);
      if s != [] {
        IntensityBeyondLast(s, x);
      }
    }
  }

  /** `add` keeps the last entry at 0. */
  lemma AddKeepsZeroAtEnd(s: seq<Breakpoint>, from: int, to: int, amount: int)
    requires Sorted(s) && ZeroAtEnd(s) && from < to
    ensures ZeroAtEnd(Add(s, from, to, amount).value)
  {
    AddSpec(s, from, to, amount);
    RaisedKeepsZeroAtEnd(Add(s, from, to, amount).value, s, from, to, amount);
  }

  // ---------------------------------------------------------------------------
  // a client's sequence of calls on a fresh manager

  /** One call `add(from, to, amount)`. */
  datatype Call = Call(from: int, to: int, amount: int)

  /**
    The map after `calls` on a new manager, whose map starts empty; a call
    that throws leaves the map as it was.
  */
  function Replay(calls: seq<Call>): (s: seq<Breakpoint>)
    ensures Sorted(s)
  {
    if calls == [] then []
    else
      var prev := Replay(calls[..|calls| - 1]);
      var c := calls[|calls| - 1];
      match Add(prev, c.from, c.to, c.amount)
      case Success(r) => AddSpec(prev, c.from, c.to, c.amount); r
      case Failure(_) => prev
  }

  /** The intensity the calls add up to at x. */
  function TotalDelta(calls: seq<Call>, x: int): int
  {
    if calls == [] then 0
    else
      var c := calls[|calls| - 1];
      TotalDelta(calls[..|calls| - 1], x) + RangeDelta(c.from, c.to, c.amount, x)
  }

  /** A map raised by the last call over a map that sums the earlier calls sums all the calls. */
  lemma RaisedByLastCall(r: seq<Breakpoint>, p: seq<Breakpoint>, calls: seq<Call>)
    requires calls != []
    requires forall x :: Intensity(p, x) == TotalDelta(calls[..|calls| - 1], x)
    requires Raised(r, p, calls[|calls| - 1].from, calls[|calls| - 1].to, calls[|calls| - 1].amount)
    ensures forall x :: Intensity(r, x) == TotalDelta(calls, x)
  {
  }

  /**
    After any sequence of `add` calls on a fresh manager the map is canonical, its
    last entry holds 0, and its intensity is the sum of the calls' changes.
  */
  lemma {:induction false} ReplaySpec(calls: seq<Call>)
    ensures Canonical(Replay(calls)) && ZeroAtEnd(Replay(calls))
    ensures forall x :: Intensity(Replay(calls), x) == TotalDelta(calls, x)
  {
    if calls != [] {
      var init := calls[..|calls| - 1];
      var c := calls[|calls| - 1];
      var p := Replay(init);
      ReplaySpec(init);
      AddSpec(p, c.from, c.to, c.amount);
      if c.from < c.to {
        var r := Add(p, c.from, c.to, c.amount).value;
        assert Replay(calls) == r;
        AddKeepsZeroAtEnd(p, c.from, c.to, c.amount);
        RaisedByLastCall(r, p, calls);
      } else {
        assert Replay(calls) == p;
      }
    }
  }

  /** The snapshot after `calls` is the one canonical map with the given intensity. */
  lemma ReplayIs(calls: seq<Call>, expected: seq<Breakpoint>)
    requires Canonical(expected)
    requires forall x :: Intensity(expected, x) == TotalDelta(calls, x)
    ensures Replay(calls) == expected
  {
    ReplaySpec(calls);
    CanonicalUnique(Replay(calls), expected);
  }
}
