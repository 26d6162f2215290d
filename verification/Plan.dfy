/** The shard plan of a mutation run (scripts/mutshard/plan.go): which packages each shard tests.

    Every shard and the aggregate recompute the plan on their own machine, so it must not depend on
    the order the candidates were listed in; and a run is only as fast as its slowest shard, so the
    greedy schedule must stay close to the best one. Both are proved here. */
module Plan {
  import opened Base

  /** A package to mutate and an estimate of what it costs. */
  datatype Candidate = Candidate(path: string, cost: int)

  function PathOf(c: Candidate): string { c.path }

  function CostOf(c: Candidate): int { c.cost }

  function Paths(cands: seq<Candidate>): seq<string> { Map(PathOf, cands) }

  function Load(part: seq<Candidate>): int { SumBy(CostOf, part) }

  function Loads(parts: seq<seq<Candidate>>): seq<int> { Map(Load, parts) }

  /** The longest first; ties break on the path. */
  predicate Before(a: Candidate, b: Candidate) {
    if a.cost != b.cost then a.cost > b.cost else StringLess(a.path, b.path)
  }

  lemma BeforeStrictTotal()
    ensures StrictTotal(Before)
  {
    StringLessStrictTotal();
    assert forall a: Candidate, b: Candidate :: a.path == b.path || StringLess(a.path, b.path) || StringLess(b.path, a.path);
  }

  /** k is the first shard with the smallest load. */
  ghost predicate IsLeastLoaded(loads: seq<int>, k: int) {
    && 0 <= k < |loads|
    && (forall i | 0 <= i < |loads| :: loads[k] <= loads[i])
    && (forall i | 0 <= i < k :: loads[k] < loads[i])
  }

  function LeastLoaded(loads: seq<int>): (k: nat)
    requires loads != []
    ensures IsLeastLoaded(loads, k)
  {
    if |loads| == 1 then 0
    else
      var k := LeastLoaded(loads[..|loads| - 1]);
      if loads[|loads| - 1] < loads[k] then |loads| - 1 else k
  }

  /** The candidates dealt one by one, each onto the shard that is least loaded at that moment. */
  function Deal(cands: seq<Candidate>, n: nat): (parts: seq<seq<Candidate>>)
    requires n >= 1
    ensures |parts| == n
  {
    if cands == [] then seq(n, i => [])
    else
      var parts := Deal(cands[..|cands| - 1], n);
      var k := LeastLoaded(Loads(parts));
      parts[k := parts[k] + [cands[|cands| - 1]]]
  }

  /** The paths of one shard, as the plan lists them. */
  function Listing(part: seq<Candidate>): seq<string> { Sort(StringLess, Paths(part)) }

  /** The plan: the sorted candidates dealt, each shard's paths in order. */
  function Assigned(cands: seq<Candidate>, n: nat): (shards: seq<seq<string>>)
    requires n >= 1
    ensures |shards| == n
  {
    Map(Listing, Deal(Sort(Before, cands), n))
  }

  /** Dealing one more candidate extends the least-loaded shard k and nothing else. */
  lemma DealNext(cands: seq<Candidate>, j: nat, n: nat, k: nat)
    requires n >= 1 && j < |cands| && IsLeastLoaded(Loads(Deal(cands[..j], n)), k)
    ensures var parts := Deal(cands[..j], n);
      && Deal(cands[..j + 1], n) == parts[k := parts[k] + [cands[j]]]
      && Paths(parts[k] + [cands[j]]) == Paths(parts[k]) + [cands[j].path]
      && Load(parts[k] + [cands[j]]) == Load(parts[k]) + cands[j].cost
  {
    var parts := Deal(cands[..j], n);
    assert cands[..j + 1][..j] == cands[..j];
    var least := LeastLoaded(Loads(parts));
    assert k == least;
    SumByConcat(CostOf, parts[k], [cands[j]]);
    MapConcat(PathOf, parts[k], [cands[j]]);
  }

  /** The two arrays of the scheduler describe parts. */
  ghost predicate Holds(shards: seq<seq<string>>, loads: seq<int>, parts: seq<seq<Candidate>>) {
    && |shards| == |loads| == |parts|
    && (forall m | 0 <= m < |parts| :: shards[m] == Paths(parts[m]))
    && (forall m | 0 <= m < |parts| :: loads[m] == Load(parts[m]))
  }

  lemma HoldsNext(shards: seq<seq<string>>, loads: seq<int>, cands: seq<Candidate>, j: nat, n: nat, k: nat)
    requires n >= 1 && j < |cands| && Holds(shards, loads, Deal(cands[..j], n)) && IsLeastLoaded(loads, k)
    ensures Holds(shards[k := shards[k] + [cands[j].path]], loads[k := loads[k] + cands[j].cost], Deal(cands[..j + 1], n))
  {
    assert loads == Loads(Deal(cands[..j], n));
    DealNext(cands, j, n, k);
  }

  lemma HoldsNothing(shards: seq<seq<string>>, loads: seq<int>, n: nat)
    requires n >= 1 && |shards| == |loads| == n
    requires forall m | 0 <= m < n :: shards[m] == [] && loads[m] == 0
    ensures Holds(shards, loads, Deal([], n))
  {
  }

  /** The scheduler as it runs: a load and a growing list per shard, updated in place. */
  method Assign(cands: seq<Candidate>, n: nat) returns (shards: array<seq<string>>)
    requires n >= 1
    ensures fresh(shards) && shards[..] == Assigned(cands, n)
  {
    var sorted := Sort(Before, cands);
    shards := DealOut(sorted, n);
    SortEach(shards, Deal(sorted, n));
  }

  /** Assign's middle loop: every candidate onto the shard least loaded when its turn comes. */
  method DealOut(sorted: seq<Candidate>, n: nat) returns (shards: array<seq<string>>)
    requires n >= 1
    ensures fresh(shards) && shards[..] == Map(Paths, Deal(sorted, n))
  {
    shards := new seq<string>[n](i => []);
    var loads := new int[n](i => 0);
    var j := 0;
    assert sorted[..0] == [];
    HoldsNothing(shards[..], loads[..], n);
    while j < |sorted|
      invariant 0 <= j <= |sorted|
      invariant Holds(shards[..], loads[..], Deal(sorted[..j], n))
    {
      var k := LeastLoadedIndex(loads);
      HoldsNext(shards[..], loads[..], sorted, j, n, k);
      Place(shards, loads, k, sorted[j], Deal(sorted[..j + 1], n));
      j := j + 1;
    }
    assert sorted[..j] == sorted;
  }

  /** Puts c on shard k; more are the parts the two arrays then describe. */
  method Place(shards: array<seq<string>>, loads: array<int>, k: nat, c: Candidate, ghost more: seq<seq<Candidate>>)
    requires k < shards.Length == loads.Length
    requires Holds(shards[..][k := shards[k] + [c.path]], loads[..][k := loads[k] + c.cost], more)
    modifies shards, loads
    ensures Holds(shards[..], loads[..], more)
    ensures shards[..] == old(shards[..])[k := old(shards[k]) + [c.path]]
    ensures loads[..] == old(loads[..])[k := old(loads[k]) + c.cost]
  {
    ghost var paths, costs := shards[..], loads[..];
    shards[k] := shards[k] + [c.path];
    loads[k] := loads[k] + c.cost;
    assert shards[..] == paths[k := paths[k] + [c.path]];
    assert loads[..] == costs[k := costs[k] + c.cost];
  }

  /** Assign's last loop: each shard's paths sorted where they stand. */
  method SortEach(shards: array<seq<string>>, ghost parts: seq<seq<Candidate>>)
    requires shards[..] == Map(Paths, parts)
    modifies shards
    ensures shards[..] == Map(Listing, parts)
  {
    for i := 0 to shards.Length
      invariant |parts| == shards.Length
      invariant forall m | 0 <= m < i :: shards[m] == Listing(parts[m])
      invariant forall m | i <= m < shards.Length :: shards[m] == Paths(parts[m])
    {
      shards[i] := Sort(StringLess, shards[i]);
    }
  }

  /** Assign's inner loop: the first index of the smallest load. */
  method LeastLoadedIndex(loads: array<int>) returns (k: nat)
    requires loads.Length >= 1
    ensures IsLeastLoaded(loads[..], k)
  {
    k := 0;
    for i := 1 to loads.Length
      invariant IsLeastLoaded(loads[..i], k)
    {
      if loads[i] < loads[k] {
        k := i;
      }
    }
    assert loads[..loads.Length] == loads[..];
  }

  /** The order candidates are dealt in: costlier ones first, and of two that cost the same the one whose
      path comes first. */
  lemma DealtInOrder(cands: seq<Candidate>, i: nat, j: nat)
    requires i < j < |Sort(Before, cands)|
    ensures var a, b := Sort(Before, cands)[i], Sort(Before, cands)[j];
      a.cost > b.cost || (a.cost == b.cost && !StringLess(b.path, a.path))
  {
    BeforeStrictTotal();
    SortSorts(Before, cands);
  }

  // ---- the plan depends only on what there is to mutate -------------------------------------

  /** Whatever order the candidates come in, every machine computes the same plan. */
  lemma PlanIgnoresOrder(a: seq<Candidate>, b: seq<Candidate>, n: nat)
    requires n >= 1 && multiset(a) == multiset(b)
    ensures Assigned(a, n) == Assigned(b, n)
  {
    BeforeStrictTotal();
    SortPermutes(Before, a);
    SortPermutes(Before, b);
    SortSorts(Before, a);
    SortSorts(Before, b);
    SortedUnique(Before, Sort(Before, a), Sort(Before, b));
  }

  // ---- the plan is a partition --------------------------------------------------------------

  lemma FlattenEmpty<T>(n: nat)
    ensures Flatten(seq<seq<T>>(n, i => [])) == []
  {
    if n > 0 {
      assert seq<seq<T>>(n, i => [])[1..] == seq(n - 1, i => []);
      FlattenEmpty<T>(n - 1);
    }
  }

  lemma DealKeepsAll(front: seq<Candidate>, last: Candidate, n: nat)
    requires n >= 1 && multiset(Flatten(Deal(front, n))) == multiset(front)
    ensures multiset(Flatten(Deal(front + [last], n))) == multiset(front + [last])
  {
    var parts := Deal(front, n);
    assert (front + [last])[..|front|] == front;
    FlattenUpdate(parts, LeastLoaded(Loads(parts)), last);
  }

  lemma {:induction false} DealIsPartition(cands: seq<Candidate>, n: nat)
    requires n >= 1
    ensures multiset(Flatten(Deal(cands, n))) == multiset(cands)
  {
    if cands == [] {
      FlattenEmpty<Candidate>(n);
    } else {
      var front, last := cands[..|cands| - 1], cands[|cands| - 1];
      DealIsPartition(front, n);
      assert cands == front + [last];
      DealKeepsAll(front, last, n);
    }
  }

  /** The plan lists every candidate's path exactly as often as it was given, each shard sorted. */
  lemma PlanIsPartition(cands: seq<Candidate>, n: nat)
    requires n >= 1
    ensures |Assigned(cands, n)| == n
    ensures multiset(Flatten(Assigned(cands, n))) == multiset(Paths(cands))
    ensures forall k | 0 <= k < n :: SortedBy(StringLess, Assigned(cands, n)[k])
  {
    var sorted := Sort(Before, cands);
    var parts := Deal(sorted, n);
    SortPermutes(Before, cands);
    DealIsPartition(sorted, n);
    MapPermutation(PathOf, Flatten(parts), cands);
    MapFlatten(PathOf, parts);
    FlattenPermuted(Map(p => Map(PathOf, p), parts), Assigned(cands, n));
    forall k | 0 <= k < n ensures SortedBy(StringLess, Assigned(cands, n)[k]) {
      StringLessStrictTotal();
      SortSorts(StringLess, Paths(parts[k]));
    }
  }

  /** Reordering inside the parts does not change what they hold together. */
  lemma {:induction false} FlattenPermuted(raw: seq<seq<string>>, sorted: seq<seq<string>>)
    requires |raw| == |sorted|
    requires forall k | 0 <= k < |raw| :: sorted[k] == Sort(StringLess, raw[k])
    ensures multiset(Flatten(raw)) == multiset(Flatten(sorted))
  {
    if raw != [] {
      SortPermutes(StringLess, raw[0]);
      FlattenPermuted(raw[1..], sorted[1..]);
    }
  }

  ghost predicate Distinct<T(!new)>(s: seq<T>) {
    forall i, j | 0 <= i < j < |s| :: s[i] != s[j]
  }

  lemma DistinctMultiplicity<T(!new)>(s: seq<T>)
    requires forall x :: multiset(s)[x] <= 1
    ensures Distinct(s)
  {
    forall i, j | 0 <= i < j < |s| ensures s[i] != s[j] {
      var rest := s[..i] + s[i + 1..];
      assert rest[j - 1] == s[j];
      MultisetWithout(s, i);
      assert rest[j - 1] in multiset(rest);
    }
  }

  lemma {:induction false} MultiplicityDistinct<T(!new)>(s: seq<T>)
    requires Distinct(s)
    ensures forall x :: multiset(s)[x] <= 1
  {
    if s != [] {
      MultiplicityDistinct(s[1..]);
      assert s == [s[0]] + s[1..];
      assert s[0] !in s[1..];
    }
  }

  lemma {:induction false} PartMultiplicity<T(!new)>(parts: seq<seq<T>>, k: nat, m: nat, x: T)
    requires k < m < |parts|
    ensures multiset(parts[k])[x] <= multiset(Flatten(parts))[x]
    ensures multiset(parts[k])[x] + multiset(parts[m])[x] <= multiset(Flatten(parts))[x]
  {
    if k == 0 {
      PartBound(parts[1..], m - 1, x);
    } else {
      PartMultiplicity(parts[1..], k - 1, m - 1, x);
    }
  }

  lemma {:induction false} PartBound<T(!new)>(parts: seq<seq<T>>, k: nat, x: T)
    requires k < |parts|
    ensures multiset(parts[k])[x] <= multiset(Flatten(parts))[x]
  {
    if k > 0 {
      PartBound(parts[1..], k - 1, x);
    }
  }

  /** For distinct paths, every package is tested by exactly one shard, once. */
  lemma EveryPathOnExactlyOneShard(cands: seq<Candidate>, n: nat, path: string)
    requires n >= 1 && Distinct(Paths(cands))
    ensures path in Paths(cands) <==> exists k :: 0 <= k < n && path in Assigned(cands, n)[k]
    ensures forall k, m | 0 <= k < m < n :: !(path in Assigned(cands, n)[k] && path in Assigned(cands, n)[m])
    ensures forall k | 0 <= k < n :: Distinct(Assigned(cands, n)[k])
  {
    var shards := Assigned(cands, n);
    PlanIsPartition(cands, n);
    MultiplicityDistinct(Paths(cands));
    FlattenMember(shards, path);
    assert path in Paths(cands) <==> path in multiset(Flatten(shards));
    forall k, m | 0 <= k < m < n ensures !(path in shards[k] && path in shards[m]) {
      PartMultiplicity(shards, k, m, path);
    }
    forall k | 0 <= k < n ensures Distinct(shards[k]) {
      forall x ensures multiset(shards[k])[x] <= 1 {
        PartBound(shards, k, x);
      }
      DistinctMultiplicity(shards[k]);
    }
  }

  // ---- the greedy plan is within 4/3 - 1/(3n) of the best one --------------------------------

  /** parts deals exactly cands onto n shards, none loaded beyond limit. */
  ghost predicate Schedules(parts: seq<seq<Candidate>>, cands: seq<Candidate>, limit: int) {
    && multiset(Flatten(parts)) == multiset(cands)
    && (forall k | 0 <= k < |parts| :: Load(parts[k]) <= limit)
  }

  ghost predicate NonNegative(cands: seq<Candidate>) {
    forall c | c in cands :: c.cost >= 0
  }

  /** How much of a shard's room a candidate takes, against a candidate of cost p and a limit t:
      nothing when it is cheaper than p, all of it (2) when p no longer fits beside it, else half. */
  function Weight(p: int, t: int, c: Candidate): int {
    if c.cost < p then 0 else if c.cost <= t - p then 1 else 2
  }

  function Weights(p: int, t: int): Candidate -> int { c => Weight(p, t, c) }

  /** If three candidates of cost p exceed t, a shard loaded within t holds weight at most 2. */
  lemma {:induction false} WeightWithinLimit(part: seq<Candidate>, p: int, t: int)
    requires NonNegative(part) && 0 <= p && 3 * p > t
    ensures var w := SumBy(Weights(p, t), part);
      && w >= 0
      && Load(part) >= 0
      && (w >= 1 ==> Load(part) >= p)
      && (w >= 2 ==> Load(part) > t - p)
      && (w >= 3 ==> Load(part) > t)
  {
    if part != [] {
      assert forall c | c in part[1..] :: c in part;
      WeightWithinLimit(part[1..], p, t);
      assert part[0] in part;
    }
  }

  /** A shard of candidates at least as costly as p, loaded beyond t - p, holds weight at least 2. */
  lemma {:induction false} WeightBeyondLimit(part: seq<Candidate>, p: int, t: int)
    requires 0 <= p <= t
    requires forall c | c in part :: c.cost >= p
    ensures SumBy(Weights(p, t), part) >= |part|
    ensures Load(part) > t - p ==> SumBy(Weights(p, t), part) >= 2
  {
    if part != [] {
      assert forall c | c in part[1..] :: c in part;
      WeightBeyondLimit(part[1..], p, t);
      assert part[0] in part;
      if |part| == 1 {
        assert part[1..] == [];
      }
    }
  }

  lemma FlattenContains(parts: seq<seq<Candidate>>, k: nat, cands: seq<Candidate>)
    requires k < |parts| && multiset(Flatten(parts)) == multiset(cands)
    ensures forall c | c in parts[k] :: c in cands
  {
    forall c | c in parts[k] ensures c in cands {
      FlattenMember(parts, c);
      assert c in multiset(Flatten(parts));
    }
  }

  lemma {:induction false} SumByNonNegative<T>(f: T -> int, s: seq<T>)
    requires forall x | x in s :: f(x) >= 0
    ensures SumBy(f, s) >= 0
  {
    if s != [] {
      assert forall x | x in s[1..] :: x in s;
      SumByNonNegative(f, s[1..]);
      assert s[0] in s;
    }
  }

  /** What the candidates up to and including i total is no more than what all of them do. */
  lemma PrefixTotal(f: Candidate -> int, cands: seq<Candidate>, i: nat)
    requires i < |cands| && forall c | c in cands :: f(c) >= 0
    ensures SumBy(f, cands[..i]) + f(cands[i]) <= SumBy(f, cands)
  {
    assert cands == cands[..i] + ([cands[i]] + cands[i + 1..]);
    SumByConcat(f, cands[..i], [cands[i]] + cands[i + 1..]);
    SumByNonNegative(f, cands[i + 1..]);
  }

  /** The total of f over a schedule is the total over the candidates. */
  lemma ScheduleTotal(f: Candidate -> int, parts: seq<seq<Candidate>>, cands: seq<Candidate>)
    requires multiset(Flatten(parts)) == multiset(cands)
    ensures Sum(Map(p => SumBy(f, p), parts)) == SumBy(f, cands)
  {
    SumByFlatten(f, parts);
    SumByPermutation(f, Flatten(parts), cands);
  }

  /** Averaging: the least load and the next candidate fit under n times any schedule's limit. */
  lemma LeastLoadAverage(cands: seq<Candidate>, i: nat, n: nat, best: seq<seq<Candidate>>, limit: int)
    requires n >= 1 && i < |cands| && NonNegative(cands)
    requires |best| == n && Schedules(best, cands, limit)
    ensures var loads := Loads(Deal(cands[..i], n));
      n * loads[LeastLoaded(loads)] + cands[i].cost <= n * limit
  {
    var parts := Deal(cands[..i], n);
    var loads := Loads(parts);
    DealIsPartition(cands[..i], n);
    ScheduleTotal(CostOf, parts, cands[..i]);
    ScheduleTotal(CostOf, best, cands);
    PrefixTotal(CostOf, cands, i);
    assert Map(p => SumBy(CostOf, p), parts) == loads;
    var bests := Map(p => SumBy(CostOf, p), best);
    assert forall k | 0 <= k < n :: bests[k] == Load(best[k]);
    AtLeastEach(loads, loads[LeastLoaded(loads)]);
    AtMostEach(bests, limit);
  }

  lemma {:induction false} AtLeastEach(s: seq<int>, lo: int)
    requires forall i | 0 <= i < |s| :: lo <= s[i]
    ensures |s| * lo <= Sum(s)
  {
    if s != [] {
      AtLeastEach(s[1..], lo);
    }
  }

  lemma {:induction false} AtMostEach(s: seq<int>, hi: int)
    requires forall i | 0 <= i < |s| :: s[i] <= hi
    ensures Sum(s) <= |s| * hi
  {
    if s != [] {
      AtMostEach(s[1..], hi);
    }
  }

  /** Counting: when three candidates as costly as the next one exceed the limit of some schedule,
      the next one still fits on the least-loaded shard. Otherwise every shard would already weigh 2
      and the next candidate would make 2n + 1, while no schedule within the limit weighs over 2n. */
  lemma LeastLoadFits(cands: seq<Candidate>, i: nat, n: nat, best: seq<seq<Candidate>>, limit: int)
    requires n >= 1 && i < |cands| && NonNegative(cands) && SortedBy(Before, cands)
    requires |best| == n && Schedules(best, cands, limit)
    requires 3 * cands[i].cost > limit
    ensures var loads := Loads(Deal(cands[..i], n)); loads[LeastLoaded(loads)] + cands[i].cost <= limit
  {
    var parts, p := Deal(cands[..i], n), cands[i].cost;
    var loads := Loads(parts);
    CandidateWithinLimit(cands, i, best, limit);
    assert cands[i] in cands;
    if loads[LeastLoaded(loads)] + p > limit {
      var w := Weights(p, limit);
      DealIsPartition(cands[..i], n);
      forall k | 0 <= k < n ensures SumBy(w, parts[k]) >= 2 {
        assert loads[k] == Load(parts[k]);
        FullShardWeight(cands, i, parts, k, limit);
      }
      forall k | 0 <= k < n ensures SumBy(w, best[k]) <= 2 {
        FlattenContains(best, k, cands);
        WeightWithinLimit(best[k], p, limit);
      }
      AtLeastEach(Map(s => SumBy(w, s), parts), 2);
      AtMostEach(Map(s => SumBy(w, s), best), 2);
      ScheduleTotal(w, parts, cands[..i]);
      ScheduleTotal(w, best, cands);
      PrefixTotal(w, cands, i);
    }
  }

  /** A shard the next candidate does not fit on weighs 2 at least: everything on it is as costly. */
  lemma FullShardWeight(cands: seq<Candidate>, i: nat, parts: seq<seq<Candidate>>, k: nat, limit: int)
    requires i < |cands| && NonNegative(cands) && SortedBy(Before, cands) && cands[i] in cands
    requires 3 * cands[i].cost > limit >= cands[i].cost
    requires multiset(Flatten(parts)) == multiset(cands[..i]) && k < |parts|
    requires Load(parts[k]) + cands[i].cost > limit
    ensures SumBy(Weights(cands[i].cost, limit), parts[k]) >= 2
  {
    FlattenContains(parts, k, cands[..i]);
    forall c: Candidate | c in parts[k] ensures c.cost >= cands[i].cost {
      var j :| 0 <= j < i && cands[..i][j] == c;
      assert !Before(cands[i], cands[j]);
    }
    WeightBeyondLimit(parts[k], cands[i].cost, limit);
  }

  /** No schedule's limit is below the cost of any one candidate. */
  lemma CandidateWithinLimit(cands: seq<Candidate>, i: nat, best: seq<seq<Candidate>>, limit: int)
    requires i < |cands| && NonNegative(cands) && Schedules(best, cands, limit)
    ensures cands[i].cost <= limit
  {
    assert cands[i] in multiset(Flatten(best));
    FlattenMember(best, cands[i]);
    var k :| 0 <= k < |best| && cands[i] in best[k];
    FlattenContains(best, k, cands);
    var j :| 0 <= j < |best[k]| && best[k][j] == cands[i];
    PrefixTotal(CostOf, best[k], j);
    SumByNonNegative(CostOf, best[k][..j]);
  }

  /** The largest load that is at most (4n - 1) / 3n times limit. */
  function GrahamBound(n: nat, limit: int): int
    requires n >= 1
  {
    ((4 * n - 1) * limit) / (3 * n)
  }

  lemma DivideBound(a: int, m: int, x: int)
    requires m > 0
    ensures m * x <= a <==> x <= a / m
  {
    if x <= a / m {
      assert m * x <= m * (a / m) <= a;
    } else {
      assert m * x >= m * (a / m + 1) == m * (a / m) + m > a;
    }
  }

  lemma MultiplyMonotone(m: nat, x: int, y: int)
    requires x <= y
    ensures m * x <= m * y
  {
  }

  lemma GrahamArithmetic(n: nat, mu: int, p: int, limit: int)
    requires n >= 1 && 0 <= p <= limit && n * mu + p <= n * limit
    requires 3 * p > limit ==> mu + p <= limit
    ensures mu + p <= GrahamBound(n, limit)
  {
    var m: nat := n - 1;
    var mp, ml, nmu, nl := m * p, m * limit, n * mu, n * limit;
    assert n * (mu + p) == nmu + p + mp;
    assert (4 * n - 1) * limit == 3 * nl + ml;
    assert 0 <= ml;
    if 3 * p > limit {
      MultiplyMonotone(n, mu + p, limit);
    } else {
      MultiplyMonotone(m, 3 * p, limit);
      assert m * (3 * p) == 3 * mp;
    }
    assert 3 * (n * (mu + p)) <= 3 * nl + ml;
    assert (3 * n) * (mu + p) == 3 * (n * (mu + p));
    DivideBound(3 * nl + ml, 3 * n, mu + p);
  }

  lemma GrahamBoundNonNegative(n: nat, limit: int)
    requires n >= 1 && limit >= 0
    ensures GrahamBound(n, limit) >= 0
  {
    assert (4 * n - 1) * limit >= 0;
    DivideBound((4 * n - 1) * limit, 3 * n, 0);
  }

  lemma LastPlacement(cands: seq<Candidate>, i: nat, n: nat, best: seq<seq<Candidate>>, limit: int, k: nat)
    requires n >= 1 && i < |cands| && NonNegative(cands) && SortedBy(Before, cands)
    requires |best| == n && Schedules(best, cands, limit)
    requires IsLeastLoaded(Loads(Deal(cands[..i], n)), k)
    ensures Load(Deal(cands[..i], n)[k]) + cands[i].cost <= GrahamBound(n, limit)
  {
    var loads := Loads(Deal(cands[..i], n));
    assert k == LeastLoaded(loads);
    assert cands[i] in cands;
    CandidateWithinLimit(cands, i, best, limit);
    LeastLoadAverage(cands, i, n, best, limit);
    if 3 * cands[i].cost > limit {
      LeastLoadFits(cands, i, n, best, limit);
    }
    GrahamArithmetic(n, loads[k], cands[i].cost, limit);
  }

  /** No part is loaded beyond bound. */
  ghost predicate WithinBound(parts: seq<seq<Candidate>>, bound: int) {
    forall k | 0 <= k < |parts| :: Load(parts[k]) <= bound
  }

  lemma OneLoadChanged(parts: seq<seq<Candidate>>, more: seq<seq<Candidate>>, k: nat, bound: int)
    requires |more| == |parts| && k < |parts| && Load(more[k]) <= bound
    requires WithinBound(parts, bound)
    requires forall m | 0 <= m < |parts| && m != k :: more[m] == parts[m]
    ensures WithinBound(more, bound)
  {
    forall m | 0 <= m < |more| && m != k ensures Load(more[m]) <= bound {
      assert Load(parts[m]) <= bound;
    }
  }

  /** The bound holds of every prefix of the deal, against a schedule of all the candidates. */
  lemma {:induction false} DealBound(cands: seq<Candidate>, i: nat, n: nat, best: seq<seq<Candidate>>, limit: int)
    requires n >= 1 && i <= |cands| && NonNegative(cands) && SortedBy(Before, cands)
    requires |best| == n && Schedules(best, cands, limit)
    ensures WithinBound(Deal(cands[..i], n), GrahamBound(n, limit))
  {
    if i == 0 {
      assert 0 <= limit by {
        FlattenContains(best, 0, cands);
        SumByNonNegative(CostOf, best[0]);
      }
      GrahamBoundNonNegative(n, limit);
      assert cands[..i] == [];
    } else {
      DealBound(cands, i - 1, n, best, limit);
      OneMoreWithinBound(cands, i - 1, n, best, limit);
    }
  }

  lemma OneMoreWithinBound(cands: seq<Candidate>, i: nat, n: nat, best: seq<seq<Candidate>>, limit: int)
    requires n >= 1 && i < |cands| && NonNegative(cands) && SortedBy(Before, cands)
    requires |best| == n && Schedules(best, cands, limit)
    requires WithinBound(Deal(cands[..i], n), GrahamBound(n, limit))
    ensures WithinBound(Deal(cands[..i + 1], n), GrahamBound(n, limit))
  {
    var k := LeastLoaded(Loads(Deal(cands[..i], n)));
    LastPlacement(cands, i, n, best, limit, k);
    DealNext(cands, i, n, k);
    OneLoadChanged(Deal(cands[..i], n), Deal(cands[..i + 1], n), k, GrahamBound(n, limit));
  }

  /** The cost the candidates give a path; 0 for a path that is none of theirs. */
  function PathCost(cands: seq<Candidate>, path: string): int {
    if cands == [] then 0 else if cands[0].path == path then cands[0].cost else PathCost(cands[1..], path)
  }

  function Priced(cands: seq<Candidate>): string -> Candidate {
    path => Candidate(path, PathCost(cands, path))
  }

  /** What one shard's packages cost. */
  function ShardCost(cands: seq<Candidate>, shard: seq<string>): int {
    Load(Map(Priced(cands), shard))
  }

  /** What the slowest of the shards costs. */
  function Slowest(cands: seq<Candidate>, shards: seq<seq<string>>): (cost: int)
    requires shards != []
    ensures exists k :: 0 <= k < |shards| && cost == ShardCost(cands, shards[k])
    ensures forall k | 0 <= k < |shards| :: ShardCost(cands, shards[k]) <= cost
  {
    var first := ShardCost(cands, shards[0]);
    if |shards| == 1 then first
    else
      var rest := Slowest(cands, shards[1..]);
      assert forall k | 0 < k < |shards| :: shards[k] == shards[1..][k - 1];
      if first < rest then rest else first
  }

  lemma {:induction false} PathCostOf(cands: seq<Candidate>, i: nat)
    requires i < |cands| && Distinct(Paths(cands))
    ensures PathCost(cands, cands[i].path) == cands[i].cost
  {
    if i > 0 {
      var paths := Paths(cands);
      assert paths[0] != paths[i];
      assert Paths(cands[1..]) == paths[1..];
      PathCostOf(cands[1..], i - 1);
    }
  }

  /** Pricing the paths of some of the candidates gives those candidates back. */
  lemma PricedPaths(cands: seq<Candidate>, part: seq<Candidate>)
    requires Distinct(Paths(cands)) && forall c | c in part :: c in cands
    ensures Map(Priced(cands), Paths(part)) == part
  {
    forall j | 0 <= j < |part| ensures Priced(cands)(part[j].path) == part[j] {
      assert part[j] in cands;
      var i :| 0 <= i < |cands| && cands[i] == part[j];
      PathCostOf(cands, i);
    }
  }

  /** A shard of the plan costs what was dealt to it. */
  lemma PlanShardCost(cands: seq<Candidate>, n: nat, k: nat)
    requires k < n && Distinct(Paths(cands))
    ensures ShardCost(cands, Assigned(cands, n)[k]) == Load(Deal(Sort(Before, cands), n)[k])
  {
    var sorted := Sort(Before, cands);
    var part := Deal(sorted, n)[k];
    SortPermutes(Before, cands);
    DealIsPartition(sorted, n);
    FlattenContains(Deal(sorted, n), k, cands);
    SortPermutes(StringLess, Paths(part));
    MapPermutation(Priced(cands), Paths(part), Listing(part));
    PricedPaths(cands, part);
    SumByPermutation(CostOf, Map(Priced(cands), Listing(part)), part);
  }

  /** No cost is lost or counted twice: what the shards cost adds up to what the candidates cost. */
  lemma PlanKeepsCost(cands: seq<Candidate>, n: nat)
    requires n >= 1 && Distinct(Paths(cands))
    ensures Sum(Map(shard => ShardCost(cands, shard), Assigned(cands, n))) == Load(cands)
  {
    var sorted := Sort(Before, cands);
    var parts := Deal(sorted, n);
    SortPermutes(Before, cands);
    DealIsPartition(sorted, n);
    ScheduleTotal(CostOf, parts, cands);
    forall k | 0 <= k < n ensures ShardCost(cands, Assigned(cands, n)[k]) == SumBy(CostOf, parts[k]) {
      PlanShardCost(cands, n, k);
    }
    assert Map(shard => ShardCost(cands, shard), Assigned(cands, n)) == Map(p => SumBy(CostOf, p), parts);
  }

  /** Any way to split the paths over n shards is a schedule of the candidates. */
  lemma SplitIsSchedule(cands: seq<Candidate>, split: seq<seq<string>>) returns (best: seq<seq<Candidate>>)
    requires Distinct(Paths(cands)) && split != []
    requires multiset(Flatten(split)) == multiset(Paths(cands))
    ensures |best| == |split| && Schedules(best, Sort(Before, cands), Slowest(cands, split))
  {
    var f := Priced(cands);
    best := Map(s => Map(f, s), split);
    MapFlatten(f, split);
    MapPermutation(f, Flatten(split), Paths(cands));
    PricedPaths(cands, cands);
    SortPermutes(Before, cands);
    assert forall k | 0 <= k < |split| :: Load(best[k]) == ShardCost(cands, split[k]);
  }

  /** Graham's bound: the slowest shard of the plan takes at most 4/3 - 1/(3n) times what the
      slowest shard takes under any other split of the same packages over n shards. */
  lemma PlanIsNearlyOptimal(cands: seq<Candidate>, n: nat, split: seq<seq<string>>)
    requires n >= 1 && NonNegative(cands) && Distinct(Paths(cands))
    requires |split| == n && multiset(Flatten(split)) == multiset(Paths(cands))
    ensures 3 * n * Slowest(cands, Assigned(cands, n)) <= (4 * n - 1) * Slowest(cands, split)
  {
    var sorted, limit := Sort(Before, cands), Slowest(cands, split);
    var best := SplitIsSchedule(cands, split);
    BeforeStrictTotal();
    SortSorts(Before, cands);
    SortPermutes(Before, cands);
    SortKeepsNonNegative(cands);
    DealBound(sorted, |sorted|, n, best, limit);
    assert sorted[..|sorted|] == sorted;
    var k :| 0 <= k < n && Slowest(cands, Assigned(cands, n)) == ShardCost(cands, Assigned(cands, n)[k]);
    PlanShardCost(cands, n, k);
    DivideBound((4 * n - 1) * limit, 3 * n, Slowest(cands, Assigned(cands, n)));
  }

  lemma SortKeepsNonNegative(cands: seq<Candidate>)
    requires NonNegative(cands)
    ensures NonNegative(Sort(Before, cands))
  {
    SortPermutes(Before, cands);
    forall c | c in Sort(Before, cands) ensures c.cost >= 0 {
      assert c in multiset(Sort(Before, cands));
      assert c in cands;
    }
  }

  // ---- makePlan ------------------------------------------------------------------------------

  /** What a run covers: the whole tree, or the changes since base; narrowed to pkg when it is set. */
  datatype Scope = Scope(base: string, tree: bool, pkg: string) {
    /** dir is in the scope's package or below it. */
    predicate Covers(dir: string) {
      pkg == "" || dir == pkg || pkg + "/" <= dir
    }

    predicate NamesNoWork() {
      !tree && (base == "" || base == ZERO_SHA)
    }
  }

  const ZERO_SHA := "0000000000000000000000000000000000000000"

  /** A base that names no commit: none given, or the forty zeros git writes for none. */
  ghost predicate NamesNoCommit(base: string) {
    base == "" || (|base| == 40 && forall i | 0 <= i < 40 :: base[i] == '0')
  }

  /** path is the package pkg or stands below it; every path does when no package is named. */
  ghost predicate Inside(pkg: string, path: string) {
    pkg == "" || path == pkg || exists rest :: path == pkg + "/" + rest
  }

  lemma NoWorkExactly(scope: Scope)
    ensures scope.NamesNoWork() <==> !scope.tree && NamesNoCommit(scope.base)
  {
    if |scope.base| == 40 && forall i | 0 <= i < 40 :: scope.base[i] == '0' {
      assert scope.base == ZERO_SHA;
    }
  }

  lemma CoversExactly(scope: Scope, dir: string)
    ensures scope.Covers(dir) <==> Inside(scope.pkg, dir)
  {
    var below := scope.pkg + "/";
    if below <= dir {
      assert dir == scope.pkg + "/" + dir[|below|..];
    }
    if rest :| dir == scope.pkg + "/" + rest {
      assert below <= dir;
    }
  }

  datatype Skip = NoBase | NothingMutable

  datatype ShardPlan = ShardPlan(shards: seq<seq<string>>, skip: Option<Skip>)

  datatype PlanError = ShardCount(given: int)

  function Covered(scope: Scope, cands: seq<Candidate>): seq<Candidate> {
    if cands == [] then []
    else (if scope.Covers(cands[0].path) then [cands[0]] else []) + Covered(scope, cands[1..])
  }

  lemma CoveredAppend(scope: Scope, cands: seq<Candidate>, c: Candidate)
    ensures Covered(scope, cands + [c]) == Covered(scope, cands) + if scope.Covers(c.path) then [c] else []
  {
    if cands != [] {
      assert (cands + [c])[1..] == cands[1..] + [c];
      CoveredAppend(scope, cands[1..], c);
    }
  }

  /** The candidates a scope keeps, in their order. */
  method Narrow(scope: Scope, cands: seq<Candidate>) returns (inside: seq<Candidate>)
    ensures inside == Covered(scope, cands)
    ensures inside == [] <==> forall j | 0 <= j < |cands| :: !Inside(scope.pkg, cands[j].path)
  {
    inside := [];
    for i := 0 to |cands|
      invariant inside == Covered(scope, cands[..i])
      invariant inside == [] <==> forall j | 0 <= j < i :: !Inside(scope.pkg, cands[j].path)
    {
      assert cands[..i + 1] == cands[..i] + [cands[i]];
      CoveredAppend(scope, cands[..i], cands[i]);
      CoversExactly(scope, cands[i].path);
      if scope.Covers(cands[i].path) {
        inside := inside + [cands[i]];
      }
    }
    assert cands[..|cands|] == cands;
  }

  /** The plan of one scope over n shards; cands is what the tree or the changeset offers. */
  method MakePlan(scope: Scope, n: int, cands: seq<Candidate>) returns (r: Result<ShardPlan, PlanError>)
    ensures n < 1 <==> r.Err?
    ensures n < 1 ==> r == Err(ShardCount(n))
    ensures r.Ok? ==> |r.value.shards| == n
    ensures r.Ok? ==> (r.value.skip == Some(NoBase) <==> !scope.tree && NamesNoCommit(scope.base))
    ensures r.Ok? ==> (r.value.skip.None? <==>
              (scope.tree || !NamesNoCommit(scope.base)) && exists c :: c in cands && Inside(scope.pkg, c.path))
    ensures r.Ok? && r.value.skip.None? ==> r.value.shards == Assigned(Covered(scope, cands), n)
    ensures r.Ok? && r.value.skip.Some? ==> forall k | 0 <= k < n :: r.value.shards[k] == []
  {
    if n < 1 {
      return Err(ShardCount(n));
    }
    var none := seq(n, i => []);
    NoWorkExactly(scope);
    if scope.NamesNoWork() {
      return Ok(ShardPlan(none, Some(NoBase)));
    }
    var inside := Narrow(scope, cands);
    if inside == [] {
      return Ok(ShardPlan(none, Some(NothingMutable)));
    }
    var shards := Assign(inside, n);
    return Ok(ShardPlan(shards[..], None));
  }

  /** A candidate is planned, as often as it is offered, exactly when it is inside the scope's package. */
  lemma {:induction false} CoveredExactly(scope: Scope, cands: seq<Candidate>, c: Candidate)
    ensures multiset(Covered(scope, cands))[c] == if Inside(scope.pkg, c.path) then multiset(cands)[c] else 0
  {
    if cands != [] {
      CoveredExactly(scope, cands[1..], c);
      CoversExactly(scope, c.path);
      assert cands == [cands[0]] + cands[1..];
    }
  }

  /** Narrowing a scope never takes in a sibling that merely shares the package's prefix. */
  lemma CoversOnlyBelow(scope: Scope, dir: string, c: char)
    requires scope.pkg != "" && c != '/'
    ensures !scope.Covers(scope.pkg + [c] + dir)
  {
    assert (scope.pkg + [c] + dir)[|scope.pkg|] == c;
    assert (scope.pkg + "/")[|scope.pkg|] == '/';
  }
}
