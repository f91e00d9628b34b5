# Intensity manager, modelled in Dafny

`IntensityManagerImpl` keeps a scalar *intensity* over the whole integer line.
The intensity is 0 everywhere except on finitely many half-open intervals.
It stores the function as a sorted breakpoint map (`TreeMap<Long, Long>`).
An entry `k -> v` means that the intensity is `v` from `k` up to the next key.
Before the first key the intensity is 0.

- `add(from, to, amount)` rejects `from >= to` with an `IllegalArgumentException`.
  Otherwise it calls `set` and then `mergeIntervals`.
- `set(from, to, amount)` inserts breakpoints at `from` and `to` (`insertInterval`).
  It then adds `amount` to every entry whose key lies in `[from, to)`.
- `insertInterval(point)` leaves an existing key alone.
  A new key gets the value of its floor entry, or 0 when it has none.
- `mergeIntervals()` first polls leading entries that hold 0.
  It then marks every entry whose value equals the last value kept, and removes the marked keys.
- `get()` returns the map.

The project has five modules:

- `Segments` (segments.dfy) holds the map as a sequence of `Breakpoint(key, value)` entries with strictly ascending keys.
  - `Intensity(s, x)` is the function that sequence describes.
  - `FloorIndex` finds the floor entry.
  - `Canonical` holds when the map is sorted, has no leading 0 and no two adjacent equal values.
  - The lemma `CanonicalUnique` proves that equal intensities mean equal canonical maps.
- `Operations` (operations.dfy) gives one specification function per step:
  - `Split` for `insertInterval`;
  - `ShiftRange` and `SetRange` for `set`;
  - `DropLeadingZeros`, `Repeats`, `WithoutKeys`, `Squash` and `Merge` for `mergeIntervals`;
  - `Add`, which returns a `Result`;
  - `Replay` and `TotalDelta` for a sequence of `add` calls on a fresh manager.

  The lemmas beside these functions prove what each step keeps and what it changes. Main results:
  - `add` raises the intensity by exactly `amount` on `[from, to)`.
  - `add` always leaves a canonical map.
  - Two adds over the same range compose. On a canonical map (every map a sequence of `add` calls leaves), an add of 0 changes nothing, and an add followed by its negation restores the map.
  - `mergeIntervals` is idempotent.
  - After any sequence of `add` calls on a new manager, the map is the unique canonical map of the summed intensity. Its last entry holds 0. `Scenarios.RunCalls` proves this of the class itself.
- `IntensityManager` (intensity_manager.dfy) holds the class `IntensityManagerImpl`, whose field `segments` the methods update in place.
  - Each method is proved to leave exactly what its specification function says.
  - The loops of `set` and `mergeIntervals` are their own methods (`AddInRange`, `PollLeadingZeros`, `MarkRepeats`, `RemoveKeys`). Each keeps its loop invariant. The method the source has calls them in the source's order.
- `Scenarios` (scenarios.dfy) replays the repository's unit tests on a new manager. It proves the exact snapshot each test asserts.
  One extra scenario, `RejectsEmptyAndReversedRanges`, is not one of those tests: it exercises the range guard of `add`.
- `Wrappers` (wrappers.dfy) holds `Option`, `Result` and `Outcome`.

One place where the code and the interface's description disagree; the model follows the code.
The interface comment on `set` (IntensityManager.java:25) says it overrides the intensity. The code adds `amount` to each entry in the range (IntensityManagerImpl.java:59-61). `Operations.ShiftRange` models the addition.

`set` does not clean up the map (IntensityManagerImpl.java:52-63); only `add` calls `mergeIntervals`. `IntensityManagerImpl.Set` therefore leaves `SetRange`'s result, which need not be canonical: `set(10, 20, 0)` on a new manager leaves {10: 0, 20: 0}.

`set` with `from > to`: the two `insertInterval` calls run first. Then `TreeMap.subMap` throws `IllegalArgumentException("fromKey > toKey")`. The model returns `Fail(IllegalArgument("fromKey > toKey"))`, and the map keeps the two inserted points. `set` with `from == to` inserts the point and changes nothing else.

## Model

| member | source | states |
|---|---|---|
| Segments.FloorIndex | src/main/java/com/jerrysvc/service/IntensityManagerImpl.java:68 | `floorEntry`: the index is -1 or an entry with key <= x, and every later entry has a key > x |
| Segments.IntensityAtFloor | src/main/java/com/jerrysvc/service/IntensityManagerImpl.java:14-15 | the intensity at x is the value of x's floor entry, or the default 0 when there is none |
| Segments.KeyAtFloor | src/main/java/com/jerrysvc/service/IntensityManagerImpl.java:66-68 | `containsKey(p)` holds exactly when the floor entry of p has key p |
| Segments.CanonicalUnique | src/main/java/com/jerrysvc/service/IntensityManagerImpl.java:30-35 | two canonical maps (sorted, no leading 0, no adjacent equal values) with the same intensity everywhere are the same map |
| Operations.Insert | src/main/java/com/jerrysvc/service/IntensityManagerImpl.java:70 | `put` of a new key: the entry lands at its position, all entries before it are kept, all after it shift by one |
| Operations.Split | src/main/java/com/jerrysvc/service/IntensityManagerImpl.java:65-72 | the map stays sorted after `insertInterval` |
| Operations.SplitEntries | src/main/java/com/jerrysvc/service/IntensityManagerImpl.java:65-72 | after `insertInterval(p)` the map holds `p -> intensity at p`, keeps every old entry, and gains no other entry |
| Operations.SplitKeys | src/main/java/com/jerrysvc/service/IntensityManagerImpl.java:65-72 | the key set after `insertInterval(p)` is the old one plus p |
| Operations.SplitIntensity | src/main/java/com/jerrysvc/service/IntensityManagerImpl.java:65-72 | `insertInterval` does not change the intensity anywhere |
| Operations.SplitSpec | src/main/java/com/jerrysvc/service/IntensityManagerImpl.java:65-72 | all of the above facts about `insertInterval`, together |
| Operations.ShiftEntry | src/main/java/com/jerrysvc/service/IntensityManagerImpl.java:60 | the update of one entry: its key is kept and its value gains `amount` exactly when the key lies in [from, to) |
| Operations.ShiftRange | src/main/java/com/jerrysvc/service/IntensityManagerImpl.java:59-61 | the loop of `set` keeps the length and the order of the keys; each entry in [from, to) gains `amount`, the others are unchanged |
| Operations.ShiftRangeEntries | src/main/java/com/jerrysvc/service/IntensityManagerImpl.java:59-61 | the loop of `set` keeps every entry outside [from, to) and raises every entry inside it by `amount` |
| Operations.ShiftRangeKeys | src/main/java/com/jerrysvc/service/IntensityManagerImpl.java:59-61 | the loop of `set` changes no key |
| Operations.ShiftRangeIntensity | src/main/java/com/jerrysvc/service/IntensityManagerImpl.java:59-61 | once from and to are keys, the loop raises the intensity by `amount` exactly on [from, to) |
| Operations.ShiftRangeSpec | src/main/java/com/jerrysvc/service/IntensityManagerImpl.java:59-61 | the same, with the keys given by membership; the result stays sorted |
| Operations.SetRange | src/main/java/com/jerrysvc/service/IntensityManagerImpl.java:52-63 | `set` is `insertInterval(from)`, `insertInterval(to)`, then the loop over [from, to); the map stays sorted |
| Operations.SetRangeStart | src/main/java/com/jerrysvc/service/IntensityManagerImpl.java:54-55 | after the two `insertInterval` calls of `set`, `from` is a key |
| Operations.SetRangeIntensity | src/main/java/com/jerrysvc/service/IntensityManagerImpl.java:52-63 | for any bounds, `set` raises the intensity by `amount` on [from, to) and leaves it elsewhere |
| Operations.SetRangeKeys | src/main/java/com/jerrysvc/service/IntensityManagerImpl.java:52-63 | for any bounds, `set`'s keys are the old ones plus from and to |
| Operations.SetRangeEntries | src/main/java/com/jerrysvc/service/IntensityManagerImpl.java:52-63 | for any bounds, `set` keeps every old entry outside [from, to) and raises every old entry inside it by `amount` |
| Operations.SetRangeSpec | src/main/java/com/jerrysvc/service/IntensityManagerImpl.java:52-63 | all of `set`'s facts together; the map stays sorted |
| Operations.SetRangeReversed | src/main/java/com/jerrysvc/service/IntensityManagerImpl.java:54-59 | for from > to only the two breakpoints are inserted before `subMap` rejects the range |
| Operations.SetLeavesZeros | src/main/java/com/jerrysvc/service/IntensityManagerImpl.java:52-63 | `set(10, 20, 0)` on a new manager leaves {10: 0, 20: 0}, which is not canonical |
| Operations.DropLeadingZeros | src/main/java/com/jerrysvc/service/IntensityManagerImpl.java:76-78 | the result is a suffix of the map, everything dropped held 0, the result does not start with 0, and order is kept |
| Operations.DropLeadingZerosIntensity | src/main/java/com/jerrysvc/service/IntensityManagerImpl.java:75-78 | dropping leading zero entries does not change the intensity |
| Operations.Repeats | src/main/java/com/jerrysvc/service/IntensityManagerImpl.java:81-92 | the keys the scan marks, in key order: an entry is marked when its value equals the last value kept; the number of marked keys plus the number of entries kept is the length of the map |
| Operations.RepeatsStep | src/main/java/com/jerrysvc/service/IntensityManagerImpl.java:84-91 | one iteration of the scan: mark the key when the value equals `lastValue`, otherwise remember the value |
| Operations.RepeatsAreKeys | src/main/java/com/jerrysvc/service/IntensityManagerImpl.java:81-92 | every marked key is a key of the map |
| Operations.WithoutKeys | src/main/java/com/jerrysvc/service/IntensityManagerImpl.java:95-97 | the map after removing the listed keys: it keeps exactly the entries whose key is not listed, and grows no longer |
| Operations.WithoutNoKeys | src/main/java/com/jerrysvc/service/IntensityManagerImpl.java:94-97 | removing no keys leaves the map as it is |
| Operations.WithoutKeysSnoc | src/main/java/com/jerrysvc/service/IntensityManagerImpl.java:95-97 | removing the keys ks and then k is removing ks + [k] |
| Operations.WithoutKeysPrefix | src/main/java/com/jerrysvc/service/IntensityManagerImpl.java:95-97 | one more iteration of the removal loop removes the next marked key |
| Operations.WithoutAbsentKey | src/main/java/com/jerrysvc/service/IntensityManagerImpl.java:96 | `remove` of a key that is not in the map changes nothing |
| Operations.RemovingRepeatsIsSquash | src/main/java/com/jerrysvc/service/IntensityManagerImpl.java:80-97 | marking then removing is the same as keeping each entry whose value differs from the last kept value |
| Operations.SquashSubsequence | src/main/java/com/jerrysvc/service/IntensityManagerImpl.java:80-97 | that pass only deletes entries |
| Operations.SquashSorted | src/main/java/com/jerrysvc/service/IntensityManagerImpl.java:80-97 | that pass keeps the keys ascending |
| Operations.SquashNoRepeatsHead | src/main/java/com/jerrysvc/service/IntensityManagerImpl.java:80-97 | after that pass no two adjacent entries are equal, and the first entry differs from the initial `lastValue` |
| Operations.SquashForm | src/main/java/com/jerrysvc/service/IntensityManagerImpl.java:80-97 | the pass is sorted, has no repeats, and with no initial `lastValue` keeps the first entry |
| Operations.SquashKeepsRunStarts | src/main/java/com/jerrysvc/service/IntensityManagerImpl.java:84-91 | an entry survives exactly when its value differs from the previous entry's value (or from the initial value, for the first) |
| Operations.SquashIntensity | src/main/java/com/jerrysvc/service/IntensityManagerImpl.java:80-97 | removing repeated values does not change the intensity |
| Operations.SquashNoRepeats | src/main/java/com/jerrysvc/service/IntensityManagerImpl.java:80-97 | the pass removes nothing from a map without repeats |
| Operations.Merge | src/main/java/com/jerrysvc/service/IntensityManagerImpl.java:74-98 | `mergeIntervals` leaves a canonical map |
| Operations.MergeSubsequence | src/main/java/com/jerrysvc/service/IntensityManagerImpl.java:74-98 | `mergeIntervals` only deletes entries |
| Operations.MergeIntensity | src/main/java/com/jerrysvc/service/IntensityManagerImpl.java:74-98 | `mergeIntervals` does not change the intensity anywhere |
| Operations.MergeCanonical | src/main/java/com/jerrysvc/service/IntensityManagerImpl.java:74-98 | `mergeIntervals` leaves a canonical map as it is |
| Operations.MergeIdempotent | src/main/java/com/jerrysvc/service/IntensityManagerImpl.java:74-98 | running `mergeIntervals` twice is the same as once |
| Operations.Add | src/main/java/com/jerrysvc/service/IntensityManagerImpl.java:36-49 | `add` fails exactly when from >= to; on success the map is canonical |
| Operations.AddSpec | src/main/java/com/jerrysvc/service/IntensityManagerImpl.java:36-49 | the failure carries "from must be less than to"; on success the intensity is the old one plus `amount` on [from, to) |
| Operations.AddAdditive | src/main/java/com/jerrysvc/service/IntensityManagerImpl.java:36-49 | `add(from, to, a)` then `add(from, to, b)` leaves the same map as `add(from, to, a + b)` |
| Operations.AddZeroIsNoOp | src/test/java/com/jerrysvc/service/IntensityManagerImplTest.java:62-66 | an add of 0 leaves a canonical map exactly as it was |
| Operations.AddCancels | src/test/java/com/jerrysvc/service/IntensityManagerImplTest.java:55-60 | on a canonical map, an add followed by the add of the negated amount over the same range restores the map |
| Operations.RaisedKeepsZeroAtEnd | src/main/java/com/jerrysvc/service/IntensityManagerImpl.java:36-49 | raising a range of a map whose last entry holds 0 gives a map whose last entry holds 0 |
| Operations.AddKeepsZeroAtEnd | src/main/java/com/jerrysvc/service/IntensityManagerImpl.java:36-49 | `add` keeps the last entry at 0 |
| Operations.Replay | src/main/java/com/jerrysvc/service/IntensityManagerImpl.java:17-20 | the map after any sequence of `add` calls on a new manager is sorted |
| Operations.ReplaySpec | src/main/java/com/jerrysvc/service/IntensityManagerImpl.java:17-49 | after any sequence of `add` calls on a new manager the map is canonical, its last entry holds 0, and its intensity is the sum of the calls' changes (a rejected call changes nothing) |
| Operations.ReplayIs | src/main/java/com/jerrysvc/service/IntensityManagerImpl.java:17-49 | the map after a sequence of `add` calls is the only canonical map with that summed intensity |
| IntensityManager.IntensityManagerImpl.constructor | src/main/java/com/jerrysvc/service/IntensityManagerImpl.java:17-20 | a new manager has an empty map |
| IntensityManager.IntensityManagerImpl.Get | src/main/java/com/jerrysvc/service/IntensityManagerImpl.java:26-28 | `get()` returns the current entries |
| IntensityManager.IntensityManagerImpl.InsertInterval | src/main/java/com/jerrysvc/service/IntensityManagerImpl.java:65-72 | the method leaves `Split(old map, point)` and the map stays sorted |
| IntensityManager.IntensityManagerImpl.Set | src/main/java/com/jerrysvc/service/IntensityManagerImpl.java:52-63 | the method leaves `SetRange(old map, from, to, amount)`; it fails with "fromKey > toKey" exactly when from > to |
| IntensityManager.IntensityManagerImpl.AddInRange | src/main/java/com/jerrysvc/service/IntensityManagerImpl.java:59-61 | the loop over `subMap(from, true, to, false)` leaves `ShiftRange(old map, from, to, amount)` |
| IntensityManager.IntensityManagerImpl.PollLeadingZeros | src/main/java/com/jerrysvc/service/IntensityManagerImpl.java:76-78 | the polling loop leaves `DropLeadingZeros(old map)` |
| IntensityManager.IntensityManagerImpl.MarkRepeats | src/main/java/com/jerrysvc/service/IntensityManagerImpl.java:81-92 | the scan collects exactly the keys `Repeats` names, in key order |
| IntensityManager.IntensityManagerImpl.RemoveKeys | src/main/java/com/jerrysvc/service/IntensityManagerImpl.java:95-97 | the removal loop leaves the map without the marked keys |
| IntensityManager.IntensityManagerImpl.MergeIntervals | src/main/java/com/jerrysvc/service/IntensityManagerImpl.java:74-98 | the method leaves `Merge(old map)`, which is canonical |
| IntensityManager.IntensityManagerImpl.Add | src/main/java/com/jerrysvc/service/IntensityManagerImpl.java:36-49 | fails with "from must be less than to" exactly when from >= to, without changing the map; otherwise it leaves the canonical `Add` result, whose intensity is the old one plus `amount` on [from, to) |
| Scenarios.EmptyAddFive | src/test/java/com/jerrysvc/service/IntensityManagerImplTest.java:22-29 | {10: 5, 20: 0} is canonical and is the empty map raised by 5 on [10, 20) |
| Scenarios.FiveAddFive | src/test/java/com/jerrysvc/service/IntensityManagerImplTest.java:31-41 | {10: 10, 20: 0} is {10: 5, 20: 0} raised by 5 on [10, 20) |
| Scenarios.TenAddFive | src/test/java/com/jerrysvc/service/IntensityManagerImplTest.java:31-41 | {10: 15, 20: 0} is {10: 10, 20: 0} raised by 5 on [10, 20) |
| Scenarios.EmptyAddThree | src/test/java/com/jerrysvc/service/IntensityManagerImplTest.java:43-53 | {10: 3, 20: 0} is the empty map raised by 3 on [10, 20) |
| Scenarios.DisjointAddFour | src/test/java/com/jerrysvc/service/IntensityManagerImplTest.java:43-53 | {10: 3, 20: 0, 30: 4, 40: 0} is {10: 3, 20: 0} raised by 4 on [30, 40) |
| Scenarios.FiveSubtractFive | src/test/java/com/jerrysvc/service/IntensityManagerImplTest.java:55-60 | the empty map is {10: 5, 20: 0} lowered by 5 on [10, 20) |
| Scenarios.EmptyAddZero | src/test/java/com/jerrysvc/service/IntensityManagerImplTest.java:62-66 | the empty map is the empty map raised by 0 |
| Scenarios.EmptyAddOne | src/test/java/com/jerrysvc/service/IntensityManagerImplTest.java:68-107 | {10: 1, 30: 0} is the empty map raised by 1 on [10, 30) |
| Scenarios.OverlapAddOne | src/test/java/com/jerrysvc/service/IntensityManagerImplTest.java:68-107 | {10: 1, 20: 2, 30: 1, 40: 0} is {10: 1, 30: 0} raised by 1 on [20, 40) |
| Scenarios.OverlapSubtractTwo | src/test/java/com/jerrysvc/service/IntensityManagerImplTest.java:68-107 | {10: -1, 20: 0, 30: -1, 40: 0} is {10: 1, 20: 2, 30: 1, 40: 0} lowered by 2 on [10, 40) |
| Scenarios.OverlapSubtractOne | src/test/java/com/jerrysvc/service/IntensityManagerImplTest.java:109-152 | {20: 1, 30: 0} is {10: 1, 20: 2, 30: 1, 40: 0} lowered by 1 on [10, 40) |
| Scenarios.PeakSubtractOne | src/test/java/com/jerrysvc/service/IntensityManagerImplTest.java:109-152 | {10: -1, 20: 0, 30: -1, 40: 0} is {20: 1, 30: 0} lowered by 1 on [10, 40) |
| Scenarios.SimplePositiveRange | src/test/java/com/jerrysvc/service/IntensityManagerImplTest.java:22-29 | add(10, 20, 5) on a new manager leaves {10: 5, 20: 0} |
| Scenarios.SameIntervals | src/test/java/com/jerrysvc/service/IntensityManagerImplTest.java:31-41 | add(10, 20, 5) three times leaves {10: 15, 20: 0} |
| Scenarios.DisjointRanges | src/test/java/com/jerrysvc/service/IntensityManagerImplTest.java:43-53 | add(10, 20, 3) then add(30, 40, 4) leaves {10: 3, 20: 0, 30: 4, 40: 0} |
| Scenarios.ReducesToZero | src/test/java/com/jerrysvc/service/IntensityManagerImplTest.java:55-60 | add(10, 20, 5) then add(10, 20, -5) leaves the empty map |
| Scenarios.ZeroAmount | src/test/java/com/jerrysvc/service/IntensityManagerImplTest.java:62-66 | add(10, 20, 0) on a new manager leaves the empty map |
| Scenarios.SequenceAdded | src/test/java/com/jerrysvc/service/IntensityManagerImplTest.java:68-107 | the three snapshots of the test after add(10, 30, 1), add(20, 40, 1) and add(10, 40, -2) |
| Scenarios.MultipleSequentialAdds | src/test/java/com/jerrysvc/service/IntensityManagerImplTest.java:109-152 | the four snapshots of the test after add(10, 30, 1), add(20, 40, 1), add(10, 40, -1) and add(10, 40, -1) |
| Scenarios.RejectsEmptyAndReversedRanges | src/main/java/com/jerrysvc/service/IntensityManagerImpl.java:39-41 | add(5, 5, 1) and add(10, 3, 1) both fail with "from must be less than to" and leave the map as it was |
| Scenarios.RunCalls | src/main/java/com/jerrysvc/service/IntensityManagerImpl.java:17-49 | any sequence of `add` calls on a new manager leaves the map `Replay` describes: canonical, ending at 0, with the summed intensity |

## Left out

- Operations.Add: keys and values are mathematical integers. The Java code adds `long`s, and the 64-bit wrap-around of `segments.get(key) + amount` (IntensityManagerImpl.java:60) is not modelled.
- Operations.ShiftRange: the same 64-bit wrap-around is not modelled.
- IntensityManager.IntensityManagerImpl.AddInRange: the same 64-bit wrap-around is not modelled.
- Concurrency is not modelled. The comment at IntensityManagerImpl.java:18 speaks of thread safety, but `TreeMap` is not synchronised, and the model is sequential.
- `get()` returns the live `TreeMap`, so a caller could mutate it through the alias. `IntensityManagerImpl.Get` returns the entries as a value.
- The `TreeMap` operations are modelled on the sorted entry sequence rather than on a red-black tree:
  - `floorEntry` and `containsKey` by `FloorIndex` and `Keys`;
  - `put` by `Insert` or an update at an index;
  - `pollFirstEntry` by dropping the head;
  - `remove` by `WithoutKeys`;
  - `subMap(...).keySet()` by the index range the loop walks.
- Exceptions are returned as `Outcome` values, not thrown.
- The Spring `@Service` annotation, `CollectionUtils.isEmpty` (an emptiness test) and the web layer are not modelled.
- The interface at IntensityManager.java is not modelled apart from its methods' implementations. Its comment that `set` overrides the intensity is contradicted by the implementation, which the model follows.
- The JUnit/Mockito harness is not modelled. Each test becomes a method in `Scenarios`.
- Operations.ReplaySpec: histories that call `set` directly are not covered. `Replay` folds `add` calls only, and a direct `set` may leave a map that is not canonical (for example {10: 0, 20: 0}).
- Operations.AddZeroIsNoOp: holds on canonical maps only. After a direct `set` the map may not be canonical, and an add of 0 then still cleans it up: on {10: 0, 20: 0}, `mergeIntervals` polls both entries. The same restriction applies to Operations.AddCancels.
