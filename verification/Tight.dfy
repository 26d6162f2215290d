/** Graham's bound on the shard plan cannot be improved, for any number of shards (scripts/mutshard/plan.go).

    Two candidates of each cost from 2n - 1 down to n + 1, and three of cost n. The scheduler ends with
    one shard at 4n - 1 and the others at 3n - 1; another split costs 3n on every shard. */
module Tight {
  import opened Base
  import opened Plan

  function Name(i: nat): string { seq(i + 1, j => 'a') }

  function Cost(n: nat, i: nat): int {
    if i == 2 * n then n else 2 * n - 1 - i / 2
  }

  function Family(n: nat): (cands: seq<Candidate>)
    ensures |cands| == 2 * n + 1
    ensures forall i | 0 <= i < |cands| :: cands[i] == Candidate(Name(i), Cost(n, i))
  {
    seq(2 * n + 1, i requires 0 <= i < 2 * n + 1 => Candidate(Name(i), Cost(n, i)))
  }

  lemma FamilyIsProper(n: nat)
    requires n >= 1
    ensures Distinct(Paths(Family(n))) && NonNegative(Family(n))
  {
    var paths := Paths(Family(n));
    forall i, j | 0 <= i < j < |paths| ensures paths[i] != paths[j] {
      assert |Name(i)| != |Name(j)|;
    }
  }

  // ---- the plan -----------------------------------------------------------------------------------------

  lemma {:induction false} LongerIsLater(i: nat, j: nat)
    requires i < j
    ensures StringLess(Name(i), Name(j))
  {
    assert Name(j)[1..] == Name(j - 1);
    if i > 0 {
      assert Name(i)[1..] == Name(i - 1);
      LongerIsLater(i - 1, j - 1);
    } else {
      assert Name(0)[1..] == "";
    }
  }

  lemma FamilyIsSorted(n: nat)
    requires n >= 1
    ensures Sort(Before, Family(n)) == Family(n)
  {
    var cands := Family(n);
    forall i, j | 0 <= i < j < |cands| ensures !Before(cands[j], cands[i]) {
      LongerIsLater(i, j);
      StringLessAsymmetric(Name(i), Name(j));
    }
    BeforeStrictTotal();
    SortPermutes(Before, cands);
    SortSorts(Before, cands);
    SortedUnique(Before, Sort(Before, cands), cands);
  }

  /** One more cost on the least-loaded shard. */
  function Put(loads: seq<int>, cost: int): (after: seq<int>)
    requires loads != []
    ensures |after| == |loads|
  {
    loads[LeastLoaded(loads) := loads[LeastLoaded(loads)] + cost]
  }

  /** The loads after the first j candidates. */
  function LoadsAfter(n: nat, j: nat): (loads: seq<int>)
    requires n >= 1
    ensures |loads| == n
  {
    if j == 0 then seq(n, k => 0) else Put(LoadsAfter(n, j - 1), Cost(n, j - 1))
  }

  /** The same for any candidates. */
  function GreedyLoads(cands: seq<Candidate>, n: nat): (loads: seq<int>)
    requires n >= 1
    ensures |loads| == n
  {
    if cands == [] then seq(n, k => 0) else Put(GreedyLoads(cands[..|cands| - 1], n), cands[|cands| - 1].cost)
  }

  lemma LoadsWithOne(parts: seq<seq<Candidate>>, k: nat, c: Candidate)
    requires k < |parts|
    ensures Loads(parts[k := parts[k] + [c]]) == Loads(parts)[k := Loads(parts)[k] + c.cost]
  {
    SumByConcat(CostOf, parts[k], [c]);
    assert [c][1..] == [];
  }

  lemma DealtLoads(cands: seq<Candidate>, n: nat, loads: seq<int>)
    requires n >= 1 && cands != [] && Loads(Deal(cands[..|cands| - 1], n)) == loads
    ensures Loads(Deal(cands, n)) == Put(loads, cands[|cands| - 1].cost)
  {
    LoadsWithOne(Deal(cands[..|cands| - 1], n), LeastLoaded(loads), cands[|cands| - 1]);
  }

  /** They are the loads of the deal. */
  lemma {:induction false} LoadsOfDeal(cands: seq<Candidate>, n: nat)
    requires n >= 1
    ensures Loads(Deal(cands, n)) == GreedyLoads(cands, n)
  {
    if cands == [] {
    } else {
      LoadsOfDeal(cands[..|cands| - 1], n);
      DealtLoads(cands, n, GreedyLoads(cands[..|cands| - 1], n));
    }
  }

  lemma GreedyNext(cands: seq<Candidate>, n: nat, front: seq<Candidate>, cost: int)
    requires n >= 1 && cands != [] && cands[..|cands| - 1] == front && cands[|cands| - 1].cost == cost
    ensures GreedyLoads(cands, n) == Put(GreedyLoads(front, n), cost)
  {
  }

  lemma {:induction false} FamilyLoads(n: nat, j: nat)
    requires n >= 1 && j <= 2 * n + 1
    ensures GreedyLoads(Family(n)[..j], n) == LoadsAfter(n, j)
  {
    if j > 0 {
      FamilyLoads(n, j - 1);
      assert Family(n)[..j][..j - 1] == Family(n)[..j - 1];
      GreedyNext(Family(n)[..j], n, Family(n)[..j - 1], Cost(n, j - 1));
    }
  }

  lemma NextEmpty(loads: seq<int>, n: nat, j: nat)
    requires j < n == |loads| && forall k | 0 <= k < n :: loads[k] == if k < j then Cost(n, k) else 0
    ensures LeastLoaded(loads) == j
  {
    assert loads[j] == 0;
    assert forall k | 0 <= k < j :: loads[k] > 0;
  }

  /** The first n candidates each find an empty shard. */
  lemma {:induction false} FirstRound(n: nat, j: nat)
    requires n >= 1 && j <= n
    ensures forall k | 0 <= k < n :: LoadsAfter(n, j)[k] == if k < j then Cost(n, k) else 0
  {
    if j > 0 {
      FirstRound(n, j - 1);
      NextEmpty(LoadsAfter(n, j - 1), n, j - 1);
    }
  }

  /** touched are the shards dealt to in the second round; the others hold what they held after the first,
      and no shard more than 3n - 1. */
  ghost predicate SecondRound(n: nat, j: nat, loads: seq<int>, touched: set<nat>) {
    && n <= j && |loads| == n && |touched| <= j - n
    && (forall k | 0 <= k < n && k !in touched :: loads[k] == Cost(n, k))
    && (forall k | 0 <= k < n :: loads[k] <= 3 * n - 1)
  }

  lemma {:induction false} CountDown(lo: nat, hi: nat) returns (s: set<nat>)
    requires lo <= hi
    ensures |s| == hi - lo && forall k: nat :: k in s <==> lo <= k < hi
  {
    if lo == hi {
      s := {};
    } else {
      s := CountDown(lo, hi - 1);
      s := s + {hi - 1};
    }
  }

  lemma SubsetIsSmaller(a: set<nat>, b: set<nat>)
    requires a <= b
    ensures |a| <= |b|
    decreases a
  {
    if a != {} {
      var x :| x in a;
      SubsetIsSmaller(a - {x}, b - {x});
    }
  }

  /** Some shard from lo on is untouched. */
  lemma Untouched(lo: nat, hi: nat, touched: set<nat>) returns (k: nat)
    requires lo <= hi && |touched| < hi - lo
    ensures lo <= k < hi && k !in touched
  {
    var s := CountDown(lo, hi);
    if s <= touched {
      SubsetIsSmaller(s, touched);
      assert false;
    }
    k :| k in s && k !in touched;
  }

  /** The j-th candidate fits to 3n - 1 with the one it answers. */
  lemma PairsFit(n: nat, j: nat)
    requires n >= 1 && n <= j < 2 * n
    ensures Cost(n, 2 * n - 1 - j) + Cost(n, j) == 3 * n - 1
  {
  }

  lemma CostsFall(n: nat, i: nat, j: nat)
    requires i <= j < 2 * n
    ensures Cost(n, j) <= Cost(n, i)
  {
  }

  /** The least-loaded shard has room for the next candidate. */
  lemma SecondRoundFits(n: nat, j: nat, loads: seq<int>, touched: set<nat>, least: nat)
    requires n >= 1 && j < 2 * n && SecondRound(n, j, loads, touched) && least == LeastLoaded(loads)
    ensures loads[least] + Cost(n, j) <= 3 * n - 1
  {
    var k := Untouched(2 * n - 1 - j, n, touched);
    CostsFall(n, 2 * n - 1 - j, k);
    PairsFit(n, j);
    assert loads[k] == Cost(n, k);
  }

  lemma SecondRoundStep(n: nat, j: nat, loads: seq<int>, touched: set<nat>, least: nat)
    requires n >= 1 && j < 2 * n && SecondRound(n, j, loads, touched) && least == LeastLoaded(loads)
    ensures SecondRound(n, j + 1, loads[least := loads[least] + Cost(n, j)], touched + {least})
  {
    SecondRoundFits(n, j, loads, touched, least);
    assert |touched + {least}| <= |touched| + 1;
  }

  lemma SecondRoundStarts(n: nat, loads: seq<int>)
    requires n >= 1 && loads == LoadsAfter(n, n)
    ensures SecondRound(n, n, loads, {})
  {
    FirstRound(n, n);
  }

  lemma {:induction false} SecondRoundHolds(n: nat, j: nat) returns (touched: set<nat>)
    requires n >= 1 && n <= j <= 2 * n
    ensures SecondRound(n, j, LoadsAfter(n, j), touched)
  {
    if j == n {
      SecondRoundStarts(n, LoadsAfter(n, n));
      touched := {};
    } else {
      touched := SecondRoundHolds(n, j - 1);
      var loads := LoadsAfter(n, j - 1);
      var least := LeastLoaded(loads);
      SecondRoundStep(n, j - 1, loads, touched, least);
      touched := touched + {least};
    }
  }

  /** What the first 2m candidates cost. */
  lemma {:induction false} PrefixCost(n: nat, m: nat)
    requires n >= 1 && m <= n
    ensures SumBy(CostOf, Family(n)[..2 * m]) == m * (4 * n - 1 - m)
  {
    var cands := Family(n);
    if m == 0 {
      assert cands[..0] == [];
    } else {
      var a, b := cands[2 * m - 2], cands[2 * m - 1];
      PrefixCost(n, m - 1);
      assert cands[..2 * m] == cands[..2 * m - 2] + [a, b];
      SumByConcat(CostOf, cands[..2 * m - 2], [a, b]);
      assert [a, b][1..] == [b] && [b][1..] == [];
      assert (2 * m - 2) / 2 == m - 1 && (2 * m - 1) / 2 == m - 1;
      assert SumBy(CostOf, [b]) == b.cost && SumBy(CostOf, [a, b]) == a.cost + b.cost;
      PrefixArithmetic(n, m);
    }
  }

  lemma PrefixArithmetic(n: int, m: int)
    ensures (m - 1) * (4 * n - 1 - (m - 1)) + 2 * (2 * n - m) == m * (4 * n - 1 - m)
  {
  }

  lemma {:induction false} FullToTheBrim(s: seq<int>, hi: int)
    requires (forall i | 0 <= i < |s| :: s[i] <= hi) && Sum(s) == |s| * hi
    ensures forall i | 0 <= i < |s| :: s[i] == hi
  {
    if s != [] {
      AtMostEach(s[1..], hi);
      FullToTheBrim(s[1..], hi);
    }
  }

  lemma TotalArithmetic(n: int)
    ensures n * (4 * n - 1 - n) == n * (3 * n - 1)
  {
    assert 4 * n - 1 - n == 3 * n - 1;
  }

  lemma TwoRoundsTotal(n: nat)
    requires n >= 1
    ensures Sum(LoadsAfter(n, 2 * n)) == n * (3 * n - 1)
  {
    var first := Family(n)[..2 * n];
    var parts := Deal(first, n);
    DealIsPartition(first, n);
    LoadsOfDeal(first, n);
    FamilyLoads(n, 2 * n);
    assert Map(p => SumBy(CostOf, p), parts) == Loads(parts);
    ScheduleTotal(CostOf, parts, first);
    PrefixCost(n, n);
    TotalArithmetic(n);
  }

  /** After two rounds every shard is loaded alike. */
  lemma TwoRounds(n: nat, loads: seq<int>)
    requires n >= 1 && loads == LoadsAfter(n, 2 * n)
    ensures |loads| == n && forall k | 0 <= k < n :: loads[k] == 3 * n - 1
  {
    var touched := SecondRoundHolds(n, 2 * n);
    TwoRoundsTotal(n);
    FullToTheBrim(loads, 3 * n - 1);
  }

  lemma SlowestIs(cands: seq<Candidate>, shards: seq<seq<string>>, k: nat, cost: int)
    requires k < |shards| && ShardCost(cands, shards[k]) == cost
    requires forall m | 0 <= m < |shards| :: ShardCost(cands, shards[m]) <= cost
    ensures Slowest(cands, shards) == cost
  {
  }

  /** The last candidate tops one of them. */
  lemma LastOne(n: nat) returns (k: nat)
    requires n >= 1
    ensures k < n && LoadsAfter(n, 2 * n + 1)[k] == 4 * n - 1
    ensures var loads := LoadsAfter(n, 2 * n + 1); forall m | 0 <= m < n :: loads[m] <= 4 * n - 1
  {
    var loads := LoadsAfter(n, 2 * n);
    TwoRounds(n, loads);
    k := LeastLoaded(loads);
  }

  lemma FamilyLoad(n: nat, m: nat)
    requires m < n
    ensures Load(Deal(Family(n), n)[m]) == LoadsAfter(n, 2 * n + 1)[m]
  {
    LoadsOfDeal(Family(n), n);
    FamilyLoads(n, 2 * n + 1);
    assert Family(n)[..2 * n + 1] == Family(n);
  }

  lemma FamilyShardCost(n: nat, m: nat)
    requires m < n
    ensures ShardCost(Family(n), Assigned(Family(n), n)[m]) == LoadsAfter(n, 2 * n + 1)[m]
  {
    FamilyLoad(n, m);
    FamilyIsProper(n);
    PlanShardCost(Family(n), n, m);
    FamilyIsSorted(n);
  }

  lemma PlanOfFamily(n: nat)
    requires n >= 1
    ensures Slowest(Family(n), Assigned(Family(n), n)) == 4 * n - 1
  {
    var k := LastOne(n);
    forall m | 0 <= m < n ensures ShardCost(Family(n), Assigned(Family(n), n)[m]) == LoadsAfter(n, 2 * n + 1)[m] {
      FamilyShardCost(n, m);
    }
    SlowestIs(Family(n), Assigned(Family(n), n), k, 4 * n - 1);
  }

  // ---- another split ------------------------------------------------------------------------------------

  /** The first m shards of a better split: each costlier candidate with a cheaper one. */
  function Pairs(paths: seq<string>, m: nat): (parts: seq<seq<string>>)
    requires 2 * m + 3 <= |paths|
    ensures |parts| == m
    ensures forall s | 0 <= s < m :: parts[s] == [paths[s], paths[|paths| - 4 - s]]
  {
    seq(m, s requires 0 <= s < m => [paths[s], paths[|paths| - 4 - s]])
  }

  /** And the three cheapest together. */
  function Regrouped(paths: seq<string>, m: nat): (split: seq<seq<string>>)
    requires |paths| == 2 * m + 3
    ensures |split| == m + 1
  {
    Pairs(paths, m) + [paths[2 * m..]]
  }

  function Better(n: nat): (split: seq<seq<string>>)
    requires n >= 1
    ensures |split| == n
  {
    Regrouped(Paths(Family(n)), n - 1)
  }

  lemma {:induction false} FlattenSnoc<T>(parts: seq<seq<T>>, last: seq<T>)
    ensures Flatten(parts + [last]) == Flatten(parts) + last
  {
    if parts == [] {
      assert [] + [last] == [last] && [last][1..] == [];
      assert Flatten([last]) == last + Flatten<T>([]);
    } else {
      assert (parts + [last])[1..] == parts[1..] + [last];
      FlattenSnoc(parts[1..], last);
    }
  }

  lemma PairsGrow(paths: seq<string>, m: nat)
    requires m > 0 && 2 * m + 3 <= |paths|
    ensures Flatten(Pairs(paths, m)) == Flatten(Pairs(paths, m - 1)) + [paths[m - 1], paths[|paths| - 3 - m]]
  {
    assert Pairs(paths, m) == Pairs(paths, m - 1) + [[paths[m - 1], paths[|paths| - 3 - m]]];
    FlattenSnoc(Pairs(paths, m - 1), [paths[m - 1], paths[|paths| - 3 - m]]);
  }

  /** Two more, taken off the two ends of what is left. */
  lemma BothEndsGrow(flat: seq<string>, s: seq<string>, m: nat, lo: nat, hi: nat)
    requires m < |s| && lo < hi <= |s| && multiset(flat) == multiset(s[..m]) + multiset(s[lo + 1..hi])
    ensures multiset(flat + [s[m], s[lo]]) == multiset(s[..m + 1]) + multiset(s[lo..hi])
  {
    assert s[..m + 1] == s[..m] + [s[m]];
    assert s[lo..hi] == [s[lo]] + s[lo + 1..hi];
  }

  /** The first m pairs hold the first m of the paths, and m before the last three. */
  ghost predicate PairsHold(paths: seq<string>, m: nat)
    requires 2 * m + 3 <= |paths|
  {
    var hi := |paths| - 3;
    multiset(Flatten(Pairs(paths, m))) == multiset(paths[..m]) + multiset(paths[hi - m..hi])
  }

  lemma OnePairMore(paths: seq<string>, m: nat)
    requires m > 0 && 2 * m + 3 <= |paths| && PairsHold(paths, m - 1)
    ensures PairsHold(paths, m)
  {
    var hi := |paths| - 3;
    var lo := hi - m;
    assert paths[lo + 1..hi] == paths[hi - (m - 1)..hi];
    BothEndsGrow(Flatten(Pairs(paths, m - 1)), paths, m - 1, lo, hi);
    PairsGrow(paths, m);
  }

  lemma {:induction false} AllPairsHold(paths: seq<string>, m: nat)
    requires 2 * m + 3 <= |paths|
    ensures PairsHold(paths, m)
  {
    if m == 0 {
      assert Pairs(paths, 0) == [];
    } else {
      AllPairsHold(paths, m - 1);
      OnePairMore(paths, m);
    }
  }

  lemma ThreeParts(flat: seq<string>, a: seq<string>, b: seq<string>, rest: seq<string>)
    requires multiset(flat) == multiset(a) + multiset(b)
    ensures multiset(flat + rest) == multiset(a + b + rest)
  {
  }

  lemma RegroupedIsSplit(paths: seq<string>, m: nat)
    requires |paths| == 2 * m + 3
    ensures multiset(Flatten(Regrouped(paths, m))) == multiset(paths)
  {
    var a, b, rest := paths[..m], paths[m..2 * m], paths[2 * m..];
    assert paths == a + b + rest;
    AllPairsHold(paths, m);
    FlattenSnoc(Pairs(paths, m), rest);
    ThreeParts(Flatten(Pairs(paths, m)), a, b, rest);
  }

  lemma LoadOfThree(a: Candidate, b: Candidate, c: Candidate)
    ensures Load([a, b]) == a.cost + b.cost && Load([a, b, c]) == a.cost + b.cost + c.cost
  {
    assert [a, b, c] == [a] + ([b] + [c]) && [a, b] == [a] + [b];
    SumByConcat(CostOf, [a], [b] + [c]);
    SumByConcat(CostOf, [b], [c]);
    SumByConcat(CostOf, [a], [b]);
  }

  /** A shard that lists some of the candidates' paths costs what they do. */
  lemma PartCosts(cands: seq<Candidate>, part: seq<Candidate>, shard: seq<string>)
    requires Distinct(Paths(cands)) && (forall c | c in part :: c in cands) && shard == Paths(part)
    ensures ShardCost(cands, shard) == Load(part)
  {
    PricedPaths(cands, part);
  }

  lemma PairCosts(n: nat, k: nat)
    requires k < n - 1
    ensures ShardCost(Family(n), Better(n)[k]) == 3 * n
  {
    var cands := Family(n);
    var a, b := cands[k], cands[2 * n - 3 - k];
    FamilyIsProper(n);
    PartCosts(cands, [a, b], Better(n)[k]);
    LoadOfThree(a, b, b);
  }

  lemma RestCosts(n: nat)
    requires n >= 1
    ensures ShardCost(Family(n), Better(n)[n - 1]) == 3 * n
  {
    var cands := Family(n);
    var a, b, c := cands[2 * n - 2], cands[2 * n - 1], cands[2 * n];
    FamilyIsProper(n);
    PartCosts(cands, [a, b, c], Better(n)[n - 1]);
    LoadOfThree(a, b, c);
  }

  lemma BetterCosts(n: nat, k: nat)
    requires k < n
    ensures ShardCost(Family(n), Better(n)[k]) == 3 * n
  {
    if k < n - 1 {
      PairCosts(n, k);
    } else {
      RestCosts(n);
    }
  }

  /** The bound cannot be improved for any number of shards: here the plan takes exactly 4/3 - 1/(3n) times
      what another split takes. */
  lemma BoundIsTight(n: nat)
    requires n >= 1
    ensures var cands, split := Family(n), Better(n);
      && Distinct(Paths(cands)) && NonNegative(cands)
      && |split| == n && multiset(Flatten(split)) == multiset(Paths(cands))
      && Slowest(cands, Assigned(cands, n)) == 4 * n - 1 && Slowest(cands, split) == 3 * n
      && 3 * n * Slowest(cands, Assigned(cands, n)) == (4 * n - 1) * Slowest(cands, split)
  {
    FamilyIsProper(n);
    RegroupedIsSplit(Paths(Family(n)), n - 1);
    PlanOfFamily(n);
    forall k | 0 <= k < n ensures ShardCost(Family(n), Better(n)[k]) == 3 * n {
      BetterCosts(n, k);
    }
    SlowestIs(Family(n), Better(n), 0, 3 * n);
  }
}
