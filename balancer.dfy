/**
 * `Balancer`: a least-used selector over a pool of string values. Each
 * tracked value has a stats record `{uses, errors}` in a `SafeMap`; `Use`
 * hands out a value whose `uses` is minimal and counts the use, `ReportVal`
 * counts errors and drops a value once its error count reaches `MaxErrs`.
 *
 * In Go the map holds references to stats records that are bumped in place.
 * Each record belongs to exactly one key and never escapes, so the model
 * stores the records as values and writes the bumped record back.
 */
module Balancing {
  import opened Wrappers
  import opened Listing
  import opened SafeMaps

  datatype BalancerStats = BalancerStats(uses: int, errors: int)

  /** The stats a newly added or reset value starts with. */
  const FreshStats := BalancerStats(0, 0)

  /** `BalancerOpts`: the configuration; `MaxErrs` of -1 is the default. */
  datatype BalancerOpts = BalancerOpts(maxErrs: int)

  /** `BalancerOpt`: an option; `MaxErrsBalancerOpt(n)` sets `MaxErrs` to `n`. */
  datatype BalancerOpt = MaxErrsBalancerOpt(n: int) {
    function Apply(o: BalancerOpts): (r: BalancerOpts)
      ensures r.maxErrs == n && r == BalancerOpts(n)
    {
      o.(maxErrs := n)
    }
  }

  function DefaultBalancerOpts(): (r: BalancerOpts)
    ensures r.maxErrs == -1
  {
    BalancerOpts(-1)
  }

  /**
   * The option loop of `NewBalancer`: start from the defaults and apply the
   * options in order, so the last `MaxErrsBalancerOpt` wins and none leaves -1.
   */
  method ApplyBalancerOpts(opts: seq<BalancerOpt>) returns (o: BalancerOpts)
    ensures o.maxErrs == if opts == [] then -1 else opts[|opts| - 1].n
  {
    o := DefaultBalancerOpts();
    for i := 0 to |opts|
      invariant o.maxErrs == if i == 0 then -1 else opts[i - 1].n
    {
      o := opts[i].Apply(o);
    }
  }

  /** `v` is tracked and no tracked value has been used less often. */
  ghost predicate LeastUsed(m: map<string, BalancerStats>, v: string) {
    v in m && forall k | k in m :: m[v].uses <= m[k].uses
  }

  /** One error report against `v`, as `ReportVal` handles a single argument. */
  function ReportOne(m: map<string, BalancerStats>, maxErrs: int, v: string): map<string, BalancerStats> {
    if v !in m then m
    else
      var errors := m[v].errors + 1;
      if errors > -1 && errors >= maxErrs then m - {v}
      else m[v := m[v].(errors := errors)]
  }

  /** Error reports against `vals`, in order. */
  function ReportAll(m: map<string, BalancerStats>, maxErrs: int, vals: seq<string>): map<string, BalancerStats> {
    if vals == [] then m
    else ReportOne(ReportAll(m, maxErrs, vals[..|vals| - 1]), maxErrs, vals[|vals| - 1])
  }

  /** `n` reports against the same value. */
  function Repeat(v: string, n: nat): (r: seq<string>)
    ensures |r| == n && forall i :: 0 <= i < n ==> r[i] == v
  {
    if n == 0 then [] else Repeat(v, n - 1) + [v]
  }

  /**
   * With the default `MaxErrs` of -1 (or any `MaxErrs` of at most 1), the
   * first report drops a tracked value: the `> -1` guard tests the error
   * count, which is always positive after the increment, not `MaxErrs`.
   */
  lemma DefaultEvictsOnFirstReport(m: map<string, BalancerStats>, maxErrs: int, v: string)
    requires v in m && m[v].errors >= 0 && maxErrs <= 1
    ensures v !in ReportOne(m, maxErrs, v)
  {
  }

  /**
   * With `MaxErrs = n >= 1`, a value with no errors survives `k < n` reports
   * with `k` errors and keeps its `uses`, and is dropped by the `n`-th.
   */
  lemma {:induction false} ReportThreshold(m: map<string, BalancerStats>, maxErrs: int, v: string, k: nat)
    requires v in m && m[v].errors == 0 && 1 <= maxErrs && k <= maxErrs
    ensures k < maxErrs ==> v in ReportAll(m, maxErrs, Repeat(v, k)) && ReportAll(m, maxErrs, Repeat(v, k))[v] == m[v].(errors := k)
    ensures k == maxErrs ==> v !in ReportAll(m, maxErrs, Repeat(v, k))
  {
    if k > 0 {
      ReportThreshold(m, maxErrs, v, k - 1);
      assert Repeat(v, k)[..k - 1] == Repeat(v, k - 1);
    }
  }

  /** Reports only ever touch the reported values: every other entry stays as it was. */
  lemma {:induction false} ReportOthersUntouched(m: map<string, BalancerStats>, maxErrs: int, vals: seq<string>, k: string)
    requires k !in vals
    ensures k in ReportAll(m, maxErrs, vals) <==> k in m
    ensures k in m ==> ReportAll(m, maxErrs, vals)[k] == m[k]
  {
    if vals != [] {
      assert k !in vals[..|vals| - 1];
      ReportOthersUntouched(m, maxErrs, vals[..|vals| - 1], k);
    }
  }

  /** Reports never add a value and never bring one back. */
  lemma {:induction false} ReportShrinks(m: map<string, BalancerStats>, maxErrs: int, vals: seq<string>)
    ensures ReportAll(m, maxErrs, vals).Keys <= m.Keys
  {
    if vals != [] {
      ReportShrinks(m, maxErrs, vals[..|vals| - 1]);
    }
  }

  class Balancer {
    const data: SafeMap<string, BalancerStats>
    var maxErrs: int

    /** Use and error counts never go negative. */
    ghost predicate Valid()
      reads this, data
    {
      forall v | v in data.data :: data.data[v].uses >= 0 && data.data[v].errors >= 0
    }

    /** `NewBalancer(opts...)`: no tracked values; `MaxErrs` from the options, -1 without any. */
    constructor (opts: seq<BalancerOpt>)
      ensures Valid() && fresh(data) && data.data == map[]
      ensures maxErrs == if opts == [] then -1 else opts[|opts| - 1].n
    {
      var o := ApplyBalancerOpts(opts);
      data := new SafeMap([]);
      maxErrs := o.maxErrs;
    }

    /** `Add(vals...)`: absent values start with fresh stats; tracked values keep theirs. */
    method Add(vals: seq<string>)
      requires Valid()
      modifies data
      ensures Valid()
      ensures data.data.Keys == old(data.data.Keys) + Elems(vals)
      ensures forall v | v in old(data.data) :: data.data[v] == old(data.data[v])
      ensures forall v | v in vals && v !in old(data.data) :: data.data[v] == FreshStats
    {
      for i := 0 to |vals|
        invariant Valid()
        invariant data.data.Keys == old(data.data.Keys) + Elems(vals[..i])
        invariant forall v | v in old(data.data) :: data.data[v] == old(data.data[v])
        invariant forall v | v in vals[..i] && v !in old(data.data) :: data.data[v] == FreshStats
      {
        assert vals[..i + 1] == vals[..i] + [vals[i]];
        var has := data.Get(vals[i]);
        if has.None? {
          data.Set(vals[i], FreshStats);
        }
      }
      assert vals[..|vals|] == vals;
    }

    /** `Vals()`: every tracked value exactly once. */
    method Vals() returns (vals: seq<string>)
      ensures Lists(vals, data.data.Keys)
    {
      var visits := data.ForEach();
      vals := [];
      for i := 0 to |visits|
        invariant vals == Firsts(visits[..i])
      {
        vals := vals + [visits[i].0];
      }
      assert visits[..|visits|] == visits;
    }

    /**
     * `Use()`: on an empty pool, an error and no change. Otherwise a tracked
     * value whose `uses` is minimal; its `uses` goes up by one and nothing
     * else changes. Which minimal value depends on Go's map order, so the
     * model picks the first key and the visiting order freely.
     */
    method Use() returns (r: Result<string>)
      requires Valid()
      modifies data
      ensures Valid()
      ensures old(data.data) == map[] ==> r.Err? && data.data == old(data.data)
      ensures old(data.data) != map[] ==>
        && r.Ok?
        && LeastUsed(old(data.data), r.value)
        && data.data == old(data.data)[r.value := old(data.data)[r.value].(uses := old(data.data)[r.value].uses + 1)]
    {
      if data.Len() == 0 {
        assert data.data == map[];
        return Err("no vals available");
      }
      // `ForEachWithBreak` stopping at its first entry: some key of the map.
      var firstVal :| firstVal in data.data;
      var firstValStats := data.data[firstVal];
      var leastUsed := [firstVal];
      var minUses := firstValStats.uses;

      var visits := data.ForEach();
      for i := 0 to |visits|
        invariant leastUsed != [] && leastUsed[0] in data.data
        invariant data.data[leastUsed[0]].uses == minUses
        invariant forall j | 0 <= j < i :: minUses <= visits[j].1.uses
      {
        var (proxy, stats) := visits[i];
        if stats.uses < minUses {
          leastUsed := [proxy];
          minUses := stats.uses;
        } else if stats.uses == minUses {
          leastUsed := leastUsed + [proxy];
        }
      }

      var val := leastUsed[0];
      forall k | k in data.data
        ensures data.data[val].uses <= data.data[k].uses
      {
        assert k in Firsts(visits);
        var j :| 0 <= j < |visits| && Firsts(visits)[j] == k;
      }
      var valStats := data.Get(val);
      if valStats.None? {
        return Err("failed to get val");
      }
      data.Set(val, valStats.value.(uses := valStats.value.uses + 1));
      return Ok(val);
    }

    /** `DelVals(vals...)`: exactly the given values stop being tracked; absent ones are ignored. */
    method DelVals(vals: seq<string>)
      requires Valid()
      modifies data
      ensures Valid()
      ensures data.data == old(data.data) - Elems(vals)
      ensures forall v | v in vals :: !Has(v)
    {
      for i := 0 to |vals|
        invariant data.data == old(data.data) - Elems(vals[..i])
      {
        assert vals[..i + 1] == vals[..i] + [vals[i]];
        data.Delete(vals[i]);
      }
      assert vals[..|vals|] == vals;
    }

    /** `ClearVals()`: deletes every key of the map, so nothing is tracked. */
    method ClearVals()
      requires Valid()
      modifies data
      ensures Valid()
      ensures data.data == map[]
    {
      // `Keys()`: all keys of the map, in some order.
      var keys := KeysNotIn(data.data, {});
      for i := 0 to |keys|
        invariant data.data == old(data.data) - Elems(keys[..i])
      {
        assert keys[..i + 1] == keys[..i] + [keys[i]];
        data.Delete(keys[i]);
      }
      assert keys[..|keys|] == keys;
    }

    /** `ResetProxiesStats(proxies...)`: tracked listed values get fresh stats; untracked ones are skipped. */
    method ResetProxiesStats(proxies: seq<string>)
      requires Valid()
      modifies data
      ensures Valid()
      ensures data.data.Keys == old(data.data.Keys)
      ensures forall v | v in data.data :: data.data[v] == if v in proxies then FreshStats else old(data.data[v])
    {
      for i := 0 to |proxies|
        invariant Valid()
        invariant data.data.Keys == old(data.data.Keys)
        invariant forall v | v in data.data :: data.data[v] == if v in proxies[..i] then FreshStats else old(data.data[v])
      {
        assert proxies[..i + 1] == proxies[..i] + [proxies[i]];
        var stats := data.Get(proxies[i]);
        if stats.None? {
          continue;
        }
        data.Set(proxies[i], FreshStats);
      }
      assert proxies[..|proxies|] == proxies;
    }

    /**
     * `ReportVal(vals...)`: for each tracked value in turn, one more error;
     * the value is dropped when its count reaches `MaxErrs`. Untracked values
     * are skipped.
     */
    method ReportVal(vals: seq<string>)
      requires Valid()
      modifies data
      ensures Valid()
      ensures data.data == ReportAll(old(data.data), maxErrs, vals)
    {
      for i := 0 to |vals|
        invariant Valid()
        invariant data.data == ReportAll(old(data.data), maxErrs, vals[..i])
      {
        assert vals[..i + 1][..i] == vals[..i];
        var val := vals[i];
        var stats := data.Get(val);
        if stats.None? {
          continue;
        }
        var bumped := stats.value.(errors := stats.value.errors + 1);
        data.Set(val, bumped);
        if bumped.errors > -1 && bumped.errors >= maxErrs {
          DelVals([val]);
        }
      }
      assert vals[..|vals|] == vals;
    }

    /** `Has(val)`: whether `val` is tracked. */
    predicate Has(val: string)
      reads this, data
      ensures Has(val) <==> val in data.data
    {
      data.Get(val).Some?
    }
  }

  /**
   * Two uses of a fresh two-value pool hand out both values: the second use
   * must pick the value the first one left unused.
   */
  method TwoUsesCoverPool() returns (first: Result<string>, second: Result<string>)
    ensures first.Ok? && second.Ok?
    ensures first.value != second.value
    ensures {first.value, second.value} == {"a", "b"}
  {
    var b := new Balancer([]);
    b.Add(["a", "b"]);
    assert b.data.data == map["a" := FreshStats, "b" := FreshStats];
    assert "a" in b.data.data;
    first := b.Use();
    var other := if first.value == "a" then "b" else "a";
    assert b.data.data[first.value].uses == 1 && b.data.data[other].uses == 0;
    second := b.Use();
  }

  /** With the default options, one report drops a value and `Has` turns false. */
  method DefaultReportDrops() returns (before: bool, after: bool)
    ensures before && !after
  {
    var b := new Balancer([]);
    b.Add(["x"]);
    before := b.Has("x");
    b.ReportVal(["x"]);
    after := b.Has("x");
  }
}
