# structures: verified model of the sequential core

This project models, in Dafny, the sequential data-structure logic of the Go
package `structures`:

- **Circular linked list** (`cll.go`, `node.go`): a singly-linked ring of heap
  nodes reached through one `tail` reference, with an incrementally kept `Size`.
  The Dafny class keeps the same fields and relinks the same `next` links.
  It carries a ghost head-to-tail `contents` and the matching ghost `nodes`,
  and a `Valid()` ring invariant ties them to the heap links. Every operation is
  specified against `contents`. `Valid()` also admits the state `RemoveLast`
  leaves behind on a one-element list: `Size == 0` with a stale `tail` that
  points to itself.
- **Least-used balancer** (`balancer.go`): a `SafeMap` from value to
  `{uses, errors}` and an error threshold `MaxErrs`. `Use` hands out some value
  of minimal `uses` and bumps it. `ReportVal` counts errors and drops a value
  once `errors >= MaxErrs`. The guard `errors > -1` tests the counter, not
  `MaxErrs`, and the counter is positive after the increment. So the default
  `MaxErrs = -1` drops a value on its first report; the model keeps this.
- **Keyed stores**: `SafeMap` (`safemap.go`), `StringSet`/`IntSet`
  (`sets.go`, one generic class `ItemSet` with two type synonyms), and the TTL
  `Cache` (`cache.go`) with time passed in as an integer `now`.
- **Diff helpers**: `CompareMaps`, `CompareSlices`, `CompareSliceToMap` and
  `CompareMapToSlice` (`compare.go`), the second `CompareSlices`
  (`slicecomparator.go`), `MapComparator`/`SafeMapComparator`
  (`mapcomparator.go`), and `MapKeys`/`MapVals` (`map.go`).

Go's map iteration order is unspecified. Every `for k := range m` loop is
modelled by a loop that picks any key not yet visited. Results built from
such loops are specified with `Lists(s, S)`: `s` holds every element of the
set `S` exactly once, in some order. `SafeMap.ForEach(f)` returns the order in
which it would call `f`, and each caller's callback becomes a loop over that
sequence. Slice filters are specified by `NotIn(s, excluded)`: the elements of
`s` outside `excluded`, in order, duplicates kept.

Go's `(value, ok)` results become `Option` and `(value, err)` results become
`Result` (module `Wrappers`).

Two points about the balancer are decided by the code:
- `balancer_test.go` calls `NewBalancer[int]`, `Peek`, `Remove`, `Stats`,
  `UseTimeoutBalancerOpt` and value leases. `balancer.go` defines none of
  these. The model follows `balancer.go`, the least-used selector above.
- `ReportVal` (balancer.go:135) drops a value once `errors >= MaxErrs`. Its
  `errors > -1` test is about the counter, which is at least 1 after the
  increment, so the default `MaxErrs = -1` drops a value on its first report.

## Model

| member | source | states |
|---|---|---|
| CircularList.Node.constructor | node.go:5-8 | a node holds the given value and link |
| CircularList.RotatedBySplit | cll.go:45-49 | rotating k <= n times moves the first k values to the back, in order |
| CircularList.FullRotationRestores | cll.go:45-49 | `Size` rotations restore the original order |
| CircularList.DeleteFirstAt | cll.go:114-144 | removing the first occurrence of x, found at index i, drops exactly index i |
| CircularList.DeleteFirstAbsent | cll.go:114-144 | removing an absent value leaves the sequence unchanged |
| CircularList.DeleteFirstMultiset | cll.go:114-144 | removal takes out exactly one copy of x when x occurs, none otherwise |
| CircularList.CircularLinkedList.constructor | cll.go:15-17 | a new list is valid and empty |
| CircularList.CircularLinkedList.IsEmpty | cll.go:21-23 | true exactly when the contents are empty, i.e. `Size == 0` |
| CircularList.CircularLinkedList.First | cll.go:27-32 | the head value, or none on an empty list |
| CircularList.CircularLinkedList.Last | cll.go:36-41 | the tail value, or none on an empty list |
| CircularList.CircularLinkedList.Rotate | cll.go:45-49 | `[a] + rest` becomes `rest + [a]`; `Size` unchanged; no-op when empty, including with a stale tail |
| CircularList.CircularLinkedList.AddFirst | cll.go:53-62 | contents become `[x] + old`, `Size` grows by one, ring invariant kept |
| CircularList.CircularLinkedList.AddLast | cll.go:66-69 | contents become `old + [x]` (head unchanged), `Size` grows by one |
| CircularList.CircularLinkedList.RemoveFirst | cll.go:73-91 | returns the old head and leaves `old[1..]`; none and no change when empty |
| CircularList.CircularLinkedList.RemoveLast | cll.go:95-112 | returns the old tail and leaves `old[..n-1]`; none when empty; on a singleton `Size` becomes 0 while `tail` stays set |
| CircularList.CircularLinkedList.Unlink | cll.go:122-129 | unlinking a non-tail node through its predecessor (or the tail for the head) drops exactly that node |
| CircularList.CircularLinkedList.Remove | cll.go:114-144 | contents become `DeleteFirst(old, x)`: first occurrence gone, rest in order, tail moved back or list emptied as needed |
| CircularList.CircularLinkedList.Vals | cll.go:148-158 | returns the contents head to tail, `Size` of them |
| CircularList.CircularLinkedList.Add | cll.go:160-162 | the same as `AddFirst` |
| CircularList.AddFirstThenRemoveFirst | cll.go:53-91 | `AddFirst(x)` then `RemoveFirst()` yields x and the original list |
| CircularList.RemoveLastOnSingleton | cll.go:95-112 | after `RemoveLast` on a singleton the list behaves as empty, and `AddLast` then gives a one-element list |
| Balancing.ApplyBalancerOpts | balancer.go:33-37 | options apply in order from `MaxErrs = -1`: the last `MaxErrsBalancerOpt(n)` sets n, none leaves -1 |
| Balancing.DefaultEvictsOnFirstReport | balancer.go:128-139 | with `MaxErrs <= 1`, including the default -1, one report drops a tracked value |
| Balancing.ReportThreshold | balancer.go:128-139 | with `MaxErrs = n >= 1`, a value survives k < n reports with k errors and is dropped by the n-th |
| Balancing.ReportOthersUntouched | balancer.go:128-139 | values not reported keep their presence and stats |
| Balancing.ReportShrinks | balancer.go:128-139 | reports never add or restore a value |
| Balancing.Balancer.constructor | balancer.go:33-42 | a new balancer tracks nothing; `MaxErrs` comes from the options |
| Balancing.Balancer.Add | balancer.go:44-56 | absent values get stats `{0, 0}`; tracked values keep theirs; the key set grows by exactly the given values |
| Balancing.Balancer.Vals | balancer.go:58-63 | lists every tracked value exactly once |
| Balancing.Balancer.Use | balancer.go:65-103 | empty pool: error, no change; otherwise a tracked least-used value, whose `uses` alone goes up by one |
| Balancing.Balancer.DelVals | balancer.go:105-109 | exactly the given values stop being tracked; `Has` is false for them |
| Balancing.Balancer.ClearVals | balancer.go:111-115 | no value is tracked afterwards |
| Balancing.Balancer.ResetProxiesStats | balancer.go:117-126 | tracked listed values get `{0, 0}`; others and the key set unchanged |
| Balancing.DefaultBalancerOpts | balancer.go:21-25 | the default configuration has `MaxErrs = -1` |
| Balancing.BalancerOpt.Apply | balancer.go:27-31 | `MaxErrsBalancerOpt(n)` sets `MaxErrs` to n, whatever was set before |
| Balancing.Balancer.Has | balancer.go:141-144 | true exactly when the value is a key of the stats map (looked up through `Get`) |
| Balancing.Balancer.ReportVal | balancer.go:128-139 | the map becomes `ReportAll(old, MaxErrs, vals)`: one error per tracked listed value, dropped at `errors >= MaxErrs` |
| Balancing.TwoUsesCoverPool | balancer.go:65-103 | two uses of a fresh two-value pool return both values |
| Balancing.DefaultReportDrops | balancer.go:128-144 | with default options one report makes `Has` false |
| SafeMaps.SafeMap.constructor | safemap.go:10-19 | exactly one argument map is adopted; none or several give an empty map |
| SafeMaps.SafeMap.Get | safemap.go:27-32 | present exactly when the key is in the map, with its value |
| SafeMaps.SafeMap.Set | safemap.go:21-25 | afterwards `Get(k)` is `v`; every other entry unchanged |
| SafeMaps.SafeMap.Delete | safemap.go:34-38 | afterwards `Get(k)` is absent; other entries unchanged; absent key is a no-op |
| SafeMaps.SafeMap.Len | safemap.go:40-44 | the number of keys; 0 exactly when the map is empty |
| SafeMaps.SafeMap.ForEach | safemap.go:46-52 | visits every pair exactly once with its stored value, `Len()` visits, map unchanged |
| Sets.ItemSet.constructor | sets.go:15-17 | the zero-value set is usable and empty |
| Sets.ItemSet.Add | sets.go:12-23 | `Has(t)` afterwards; adding a member changes nothing; other members kept; returns the receiver (also `IntSet`, sets.go:78-89) |
| Sets.ItemSet.Clear | sets.go:26-30 | `Size() == 0` and `Has` false for every element |
| Sets.ItemSet.Delete | sets.go:33-41 | returns whether the item was a member; afterwards not a member; others unchanged |
| Sets.ItemSet.Has | sets.go:43-49 | true exactly when the item is an element (also `IntSet.Has`, sets.go:109-115) |
| Sets.ItemSet.Size | sets.go:62-67 | the number of elements; 0 exactly when the set is empty (also `IntSet.Size`, sets.go:128-133) |
| Sets.ItemSet.Items | sets.go:52-60 | `Strings()`/`Ints()` list every element exactly once, `Size()` of them |
| Sets.AddTwiceDeleteOnce | sets.go:12-41 | adding twice gives size 1; delete reports the member and leaves size 0 |
| Caches.Cache.constructor | cache.go:38-46 | a new cache is empty with the given expiry |
| Caches.Cache.DeleteExpired | cache.go:48-59 | removes and returns each key with `now - stamp >= expiry` once; fresher keys keep their stamps |
| Caches.Cache.Add | cache.go:61-66 | every given key is stamped `now`, overwriting earlier stamps; other keys unchanged |
| Caches.Cache.Delete | cache.go:88-94 | removes exactly the given keys, ignoring absent ones |
| Caches.Cache.Contains | cache.go:96-101 | true exactly when the key carries a stamp; a contained key makes `Len()` positive |
| Caches.Cache.Len | cache.go:103-107 | the number of stamped keys; 0 exactly when the cache is empty |
| Caches.Cache.Keys | cache.go:109-117 | every stamped key once, `Len()` of them |
| Caches.Cache.Clear | cache.go:119-123 | the cache is empty |
| Caches.AddFive | cache_test.go:11-16 | adding five distinct keys gives `Len() == 5` |
| Caches.AddFiveDeleteThree | cache_test.go:18-24 | adding five and deleting three gives `Len() == 2` |
| Caches.ContainsAdded | cache_test.go:26-32 | an added key is contained, another is not |
| Caches.AllExpire | cache_test.go:34-42 | once `expiry` has elapsed, all five keys are deleted and returned |
| MapHelpers.ValuesAt | map.go:5-7 | the values looked up along a key order, one per key |
| MapHelpers.ValuesMultisetIndependentOfOrder | map.go:3-9 | any two key orders give the same multiset of values |
| MapHelpers.MapVals | map.go:3-9 | `len(m)` values, those stored along some listing of the keys, each one `m[k]` for a key k |
| MapHelpers.MapKeys | map.go:11-17 | every key exactly once, `len(m)` of them |
| Listing.ListsCardinality | map.go:11-17 | a duplicate-free listing of a set has as many entries as the set |
| Listing.KeysNotIn | compare.go:6-10 | the range-over-map loop lists exactly the keys not excluded, each once |
| Listing.FilterNotIn | compare.go:20-24 | the range-over-slice loop computes `NotIn`, the in-order filter |
| Listing.NotIn | compare.go:19-24 | the filter is never longer than its input |
| Listing.NotInMembership | compare.go:19-29 | a value survives exactly when it occurs in the slice and is not excluded |
| Listing.NotInCount | compare.go:19-24 | duplicates are kept: survivors occur as often as in the input |
| Listing.NotInConcat | compare.go:19-24 | the filter distributes over concatenation, so order is preserved |
| Listing.NotInAll | compare.go:19-31 | excluding every element leaves nothing |
| Listing.NotInNone | compare.go:19-24 | excluding nothing that occurs leaves the slice as it is |
| Listing.NotInLists | mapcomparator.go:36-48 | filtering a listing of a key set lists the keys left |
| Compare.CompareMaps | compare.go:5-17 | `removed` lists keys of m1 not in m2, `added` keys of m2 not in m1, each once; disjoint; both empty for equal key sets |
| Compare.CompareSlices | compare.go:19-31 | `removed`/`added` are the in-order filters of s1/s2 by the other slice; disjoint; length bounds; both empty when s1 == s2 |
| Compare.CompareSliceToMap | compare.go:33-45 | `removed` is s1 in order without m2's keys; `added` lists m2's keys not in s1 |
| Compare.CompareMapToSlice | compare.go:47-59 | `removed` lists m1's keys not in s2; `added` is s2 in order without m1's keys |
| SliceComparator.CompareSlices | slicecomparator.go:5-17 | the same results as `Compare.CompareSlices`, with length bounds and empty results for equal slices |
| MapComparators.MapComparator.constructor | mapcomparator.go:7-16 | exactly one argument becomes the baseline, otherwise empty |
| MapComparators.MapComparator.CompareTo | mapcomparator.go:22-34 | removed = baseline keys not in data, added = data keys not in baseline, each once; disjoint; empty for equal key sets |
| MapComparators.MapComparator.CompareToSafe | mapcomparator.go:36-48 | the same key sets against a `SafeMap`'s contents |
| MapComparators.MapComparator.RemovedKeys | mapcomparator.go:50-57 | the removed half of `CompareTo` |
| MapComparators.MapComparator.RemovedKeysSafe | mapcomparator.go:59-66 | the removed half of `CompareToSafe` |
| MapComparators.MapComparator.AddedKeys | mapcomparator.go:68-75 | the added half of `CompareTo` |
| MapComparators.MapComparator.AddedKeysSafe | mapcomparator.go:77-84 | the added half of `CompareToSafe` |
| MapComparators.MapComparator.Data | mapcomparator.go:18-20 | returns the baseline map, the one `CompareTo` compares against |
| MapComparators.MapComparator.Set | mapcomparator.go:86-88 | the baseline becomes `data`, which `Data()` returns |
| MapComparators.SafeMapComparator.constructor | mapcomparator.go:94-103 | exactly one argument `SafeMap` becomes the baseline, otherwise a fresh empty one |
| MapComparators.SafeMapComparator.CompareTo | mapcomparator.go:109-121 | the same key-set differences with a `SafeMap` baseline; disjoint; empty for equal key sets |
| MapComparators.SafeMapComparator.CompareToSafe | mapcomparator.go:123-135 | the same key sets with `SafeMap`s on both sides |
| MapComparators.SafeMapComparator.RemovedKeys | mapcomparator.go:137-144 | the removed half of `CompareTo` |
| MapComparators.SafeMapComparator.RemovedKeysSafe | mapcomparator.go:146-153 | the removed half of `CompareToSafe` |
| MapComparators.SafeMapComparator.AddedKeys | mapcomparator.go:155-162 | the added half of `CompareTo` |
| MapComparators.SafeMapComparator.AddedKeysSafe | mapcomparator.go:164-171 | the added half of `CompareToSafe` |
| MapComparators.SafeMapComparator.Data | mapcomparator.go:105-107 | returns the baseline `SafeMap` object itself, not a copy |
| MapComparators.SafeMapComparator.Set | mapcomparator.go:173-175 | the baseline becomes `data`, which `Data()` returns |

## Left out

- Locking: the `sync.RWMutex` in `SafeMap`, the sets and `Cache` is dropped. Each operation holds its lock throughout, so each is modelled as one atomic sequential step.
- Balancing.Balancer: unlike the stores, its methods are not atomic in Go. `Balancer` has no lock of its own (balancer.go:5-8). Each method is a chain of separately locked `SafeMap` calls. `Use`, for example, calls `Len`, `ForEachWithBreak`, `ForEach` and then `Get` (balancer.go:67-95). The stats records are then written with no lock held: `uses++` (balancer.go:100), `errors++` (balancer.go:134) and the resets (balancer.go:123-124). Two concurrent `Use` calls can therefore pick the same value and lose an increment, and two concurrent `ReportVal` calls can lose an error count. The model runs each method as one sequential step. The contracts of `Use`, `Add`, `ResetProxiesStats` and `ReportVal` (its `ReportAll` equation) describe a balancer used from one goroutine at a time.
- Map iteration order: Go's is unspecified. Results are stated as listings of sets, and `Use` is stated as choosing "some least-used value".
- Aliasing of Go maps: `NewSafeMap(m)`, `NewMapComparator(m)` and `MapComparator.Set(m)` share the caller's map. Dafny maps are values, so a later write to `m` by someone else does not show up in the model. `SafeMapComparator` shares its `SafeMap` object, and the model keeps that sharing.
- `SafeMap.Len`, `Cache.Len`, `Cache.Contains`, `ItemSet.Size`, `ItemSet.Has`, `Balancer.Has` and the comparators' `Data` are one-line accessors. Their contracts tie them to the stored map (`Len` is 0 exactly when the map is empty). `Len` and `Size` also appear in the contracts of `ForEach`, `Keys`, `Items` and `Clear`; `Has` appears in those of `Add`, `Clear`, `Delete` and `DelVals`.
- `ForEachWithBreak` and `Keys`, which `balancer.go` calls on its `SafeMap`, are not defined in `safemap.go`. `Use` models the first as "some key of the map"; `ClearVals` models the second as "all keys, once each".
- Balancing.Balancer.Use: the contract says a least-used value is chosen, not which one, because that depends on map iteration order. The "failed to get val" branch is kept but cannot be reached sequentially; it only matters when another goroutine deletes the value.
- Integer widths: `uses`, `errors`, `Size` and cache stamps are unbounded integers. 64-bit wrap-around, and the saturation of `time.Time.Sub`, would need about 2^63 operations or nanoseconds and are not modelled.
- Time: `time.Now()` in `Cache.Add` and `Cache.DeleteExpired` becomes a `now` parameter, and `expiry` is an integer in the same unit.
- Cache options: `NewCacheOptions`, `AutoDeleteCacheOpt` and the AutoDelete path of `Cache.Add` (cache.go:67-84) are left out. That path spawns goroutines that sleep. The model is the default cache without auto-delete, and `cache_test.go`'s auto-delete tests are not modelled.
- The nil map of a zero-value `StringSet`/`IntSet`: Go reads a nil map as empty, so the model starts from an empty map. `Add` allocating it on first use is not observable and is not modelled.
- Formatting: `CircularLinkedList.String` (cll.go:166-183) and `Node.String` (node.go:10-14) are `fmt` formatting and are left out.
- Other files: concurrency.go, graphql.go and any.go (goroutines, JSON marshalling, boxing to `[]any`) are not part of this model. Neither is the lease/timeout balancer API that balancer_test.go exercises, because balancer.go does not define it.
- Go equality is taken as reflexive. Go never finds a NaN key in a map, and `slices.Contains` never finds a NaN element. After `SafeMap.Set(NaN, v)`, `Get(NaN)` reports absent; `Set` promises otherwise. `CompareSlices([NaN], [NaN])` returns `[NaN]` twice; both `CompareSlices` promise empty results for equal slices. The same holds for maps and sets keyed by floats. Dafny's `==` is reflexive, so the model does not cover NaN.
- SliceComparator.CompareSlices: the Go function takes `[]any` and compares with `slices.Contains`. Comparing two elements that share an uncomparable dynamic type (two `[]int`, say) panics at run time (slicecomparator.go:7, 13). The model's element type must support equality, so this panic is not modelled.
- Uncomparable dynamic types: since Go 1.20 an interface type such as `any` satisfies `comparable`. So every `comparable` type parameter may be instantiated with an interface type, and comparing or hashing two values that share an uncomparable dynamic type (such as `[]int`) panics at run time. This covers `CircularLinkedList.Remove` (cll.go:122, 135); `SafeMap.Set`, `Get` and `Delete` (safemap.go:21-38); `Cache.Add`, `Delete` and `Contains` (cache.go:61-101); the sets, map comparators and `MapKeys`/`MapVals` over such keys; and `CompareSlices`, `CompareSliceToMap` and `CompareMapToSlice` (compare.go:21, 26, 35, 40, 49, 54). The model's `T(==)`/`K(==)` element types always compare, so none of these panics is modelled.
- SafeMaps.SafeMap.constructor: `NewSafeMap(nil)` adopts a nil map (safemap.go:11-14), and a later `Set` on it panics. The model adopts an empty map instead, so its `Set` always succeeds.
- Balancing.BalancerOpt.Apply: in Go, `BalancerOpt` is an open function type, and a caller may pass any function of `*BalancerOpts`. The model knows only the option the package defines, `MaxErrsBalancerOpt` (balancer.go:27-31).
