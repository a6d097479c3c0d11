/** How far greedy assignment, longest job first, can be from the best assignment. */
module GreedyBound {

  type Cost = c: real | 0.0 <= c

  // ----- loads of an assignment

  function Sum(costs: seq<Cost>): Cost {
    if costs == [] then 0.0 else Sum(costs[..|costs| - 1]) + costs[|costs| - 1]
  }

  /** What the jobs placed on `shard` cost together. */
  function Load(costs: seq<Cost>, placement: seq<nat>, shard: nat): Cost
    requires |costs| == |placement|
  {
    if costs == [] then 0.0
    else
      var n := |costs| - 1;
      Load(costs[..n], placement[..n], shard) + if placement[n] == shard then costs[n] else 0.0
  }

  /** The loads of the first `m` shards together. */
  function LoadSum(costs: seq<Cost>, placement: seq<nat>, m: nat): Cost
    requires |costs| == |placement|
  {
    if m == 0 then 0.0 else LoadSum(costs, placement, m - 1) + Load(costs, placement, m - 1)
  }

  predicate Assigns(placement: seq<nat>, m: nat) {
    forall k :: 0 <= k < |placement| ==> placement[k] < m
  }

  lemma {:induction false} LoadSumGrows(costs: seq<Cost>, placement: seq<nat>, m: nat)
    requires |costs| == |placement| > 0
    ensures var n := |costs| - 1;
            LoadSum(costs, placement, m) ==
            LoadSum(costs[..n], placement[..n], m) + if placement[n] < m then costs[n] else 0.0
    decreases m
  {
    if m > 0 {
      LoadSumGrows(costs, placement, m - 1);
    }
  }

  /** Shards share out all costs. */
  lemma {:induction false} LoadsAddUp(costs: seq<Cost>, placement: seq<nat>, m: nat)
    requires |costs| == |placement| && Assigns(placement, m)
    ensures LoadSum(costs, placement, m) == Sum(costs)
    decreases |costs|
  {
    if costs == [] {
      NoLoad(costs, placement, m);
    } else {
      var n := |costs| - 1;
      LoadSumGrows(costs, placement, m);
      LoadsAddUp(costs[..n], placement[..n], m);
    }
  }

  lemma {:induction false} NoLoad(costs: seq<Cost>, placement: seq<nat>, m: nat)
    requires costs == [] && placement == []
    ensures LoadSum(costs, placement, m) == 0.0
    decreases m
  {
    if m > 0 {
      NoLoad(costs, placement, m - 1);
    }
  }

  lemma {:induction false} LoadSumBounds(costs: seq<Cost>, placement: seq<nat>, m: nat, low: Cost, high: Cost)
    requires |costs| == |placement|
    requires forall s :: 0 <= s < m ==> low <= Load(costs, placement, s) <= high
    ensures m as real * low <= LoadSum(costs, placement, m) <= m as real * high
    decreases m
  {
    hide Load;
    if m > 0 {
      LoadSumBounds(costs, placement, m - 1, low, high);
      OneMoreTime(m, low);
      OneMoreTime(m, high);
    }
  }

  lemma OneMoreTime(m: nat, x: Cost)
    requires m > 0
    ensures m as real * x == (m - 1) as real * x + x
  {}

  lemma {:induction false} LoadOfPrefix(costs: seq<Cost>, placement: seq<nat>, k: nat, shard: nat)
    requires |costs| == |placement| && k <= |costs|
    ensures Load(costs[..k], placement[..k], shard) <= Load(costs, placement, shard)
    decreases |costs|
  {
    var n := |costs| - 1;
    if k < |costs| {
      assert costs[..n][..k] == costs[..k] && placement[..n][..k] == placement[..k];
      LoadOfPrefix(costs[..n], placement[..n], k, shard);
    } else {
      assert costs[..k] == costs && placement[..k] == placement;
    }
  }

  // ----- the greedy rule

  predicate Descending(costs: seq<Cost>) {
    forall i, j :: 0 <= i < j < |costs| ==> costs[i] >= costs[j]
  }

  /** Job `k` went to a shard whose load was least at that time. */
  predicate GreedyAt(costs: seq<Cost>, placement: seq<nat>, m: nat, k: nat)
    requires |costs| == |placement| && k < |costs|
  {
    forall s :: 0 <= s < m ==>
      Load(costs[..k], placement[..k], placement[k]) <= Load(costs[..k], placement[..k], s)
  }

  predicate Greedy(costs: seq<Cost>, placement: seq<nat>, m: nat)
    requires |costs| == |placement|
  {
    Assigns(placement, m) && forall k :: 0 <= k < |costs| ==> GreedyAt(costs, placement, m, k)
  }

  /** Every shard of an assignment stays within the limit. */
  predicate Within(costs: seq<Cost>, placement: seq<nat>, m: nat, limit: Cost)
    requires |costs| == |placement|
  {
    forall s :: 0 <= s < m ==> Load(costs, placement, s) <= limit
  }

  // ----- jobs longer than a third of the limit

  /** A job weighs two when it cannot share a shard with one of cost `p`. */
  function Weights(costs: seq<Cost>, p: Cost, limit: Cost): (weights: seq<Cost>)
    ensures |weights| == |costs|
    ensures forall j :: 0 <= j < |costs| ==> weights[j] == if costs[j] + p > limit then 2.0 else 1.0
  {
    seq(|costs|, j requires 0 <= j < |costs| => if costs[j] + p > limit then 2.0 else 1.0)
  }

  lemma WeightsOfPrefix(costs: seq<Cost>, p: Cost, limit: Cost, n: nat)
    requires n <= |costs|
    ensures Weights(costs, p, limit)[..n] == Weights(costs[..n], p, limit)
  {}

  /** A shard within the limit, all of whose jobs exceed a third of it, weighs at most two. */
  lemma {:induction false} WithinWeighsTwo(costs: seq<Cost>, placement: seq<nat>, shard: nat, p: Cost, limit: Cost)
    requires |costs| == |placement| && 3.0 * p > limit
    requires forall j :: 0 <= j < |costs| ==> costs[j] >= p
    requires Load(costs, placement, shard) <= limit
    ensures var weight, load := Load(Weights(costs, p, limit), placement, shard), Load(costs, placement, shard);
            && (weight == 0.0 || weight == 1.0 || weight == 2.0)
            && (weight == 0.0 ==> load == 0.0)
            && (weight == 1.0 ==> load >= p)
            && (weight == 2.0 ==> load + p > limit)
    decreases |costs|
  {
    if costs != [] {
      var n := |costs| - 1;
      WeightsOfPrefix(costs, p, limit, n);
      WithinWeighsTwo(costs[..n], placement[..n], shard, p, limit);
    }
  }

  /** A shard that could not take a job of cost `p` weighs at least two. */
  lemma {:induction false} FullWeighsTwo(costs: seq<Cost>, placement: seq<nat>, shard: nat, p: Cost, limit: Cost)
    requires |costs| == |placement| && p <= limit
    ensures var weight, load := Load(Weights(costs, p, limit), placement, shard), Load(costs, placement, shard);
            && (weight == 0.0 || weight >= 1.0)
            && (weight == 0.0 ==> load == 0.0)
            && (weight < 2.0 ==> load + p <= limit)
    decreases |costs|
  {
    if costs != [] {
      var n := |costs| - 1;
      WeightsOfPrefix(costs, p, limit, n);
      FullWeighsTwo(costs[..n], placement[..n], shard, p, limit);
    }
  }

  /**
   * When the next job exceeds a third of the limit and all jobs before it are at least as long, a
   * shard with room for it is left: otherwise the jobs would weigh more than any assignment holds.
   */
  lemma LongJobFits(before: seq<Cost>, p: Cost, placement: seq<nat>, other: seq<nat>, m: nat, limit: Cost, shard: nat)
    requires |placement| == |before| && |other| == |before| + 1
    requires Assigns(placement, m) && Assigns(other, m) && Within(before + [p], other, m, limit)
    requires 3.0 * p > limit && forall j :: 0 <= j < |before| ==> before[j] >= p
    requires shard < m && forall s :: 0 <= s < m ==> Load(before, placement, shard) <= Load(before, placement, s)
    ensures Load(before, placement, shard) + p <= limit
  {
    var jobs, n := before + [p], |before|;
    assert jobs[..n] == before;
    assert p <= limit by {
      assert Load(jobs, other, other[n]) >= p;
    }
    if Load(before, placement, shard) + p > limit {
      var all, weights := Weights(jobs, p, limit), Weights(before, p, limit);
      WeightsOfPrefix(jobs, p, limit, n);
      assert Sum(all) >= Sum(weights) + 1.0;
      forall s | 0 <= s < m ensures 0.0 <= Load(all, other, s) <= 2.0 {
        WithinWeighsTwo(jobs, other, s, p, limit);
      }
      forall s | 0 <= s < m ensures 2.0 <= Load(weights, placement, s) <= Sum(weights) {
        FullWeighsTwo(before, placement, s, p, limit);
        LoadIsPart(weights, placement, s);
      }
      LoadsAddUp(all, other, m);
      LoadsAddUp(weights, placement, m);
      LoadSumBounds(all, other, m, 0.0, 2.0);
      LoadSumBounds(weights, placement, m, 2.0, Sum(weights));
    }
  }

  lemma {:induction false} LoadIsPart(costs: seq<Cost>, placement: seq<nat>, shard: nat)
    requires |costs| == |placement|
    ensures Load(costs, placement, shard) <= Sum(costs)
    decreases |costs|
  {
    if costs != [] {
      LoadIsPart(costs[..|costs| - 1], placement[..|costs| - 1], shard);
    }
  }

  // ----- the bound

  /** At most 4/3 - 1/(3m) times the limit. */
  predicate WithinRatio(m: nat, load: Cost, limit: Cost) {
    3.0 * m as real * load <= (4.0 * m as real - 1.0) * limit
  }

  /** Where the last job placed on a shard leaves its load. */
  lemma LastPlacement(costs: seq<Cost>, placement: seq<nat>, other: seq<nat>, m: nat, limit: Cost, k: nat)
    requires |costs| == |placement| == |other| && k < |costs|
    requires Descending(costs) && Greedy(costs, placement, m)
    requires Assigns(other, m) && Within(costs, other, m, limit)
    ensures WithinRatio(m, Load(costs[..k], placement[..k], placement[k]) + costs[k], limit)
  {
    hide WithinRatio;
    var jobs, rival, p := costs[..k + 1], other[..k + 1], costs[k];
    var load := Load(costs[..k], placement[..k], placement[k]);
    assert GreedyAt(costs, placement, m, k);
    assert jobs[..k] == costs[..k];
    forall s | 0 <= s < m ensures 0.0 <= Load(jobs, rival, s) <= limit {
      LoadOfPrefix(costs, other, k + 1, s);
    }
    if 3.0 * p > limit {
      assert jobs == costs[..k] + [p];
      LongJobFits(costs[..k], p, placement[..k], rival, m, limit, placement[k]);
      ScaleBound(m, load + p, limit);
    } else {
      LoadSumBounds(jobs, rival, m, 0.0, limit);
      LoadsAddUp(jobs, rival, m);
      LoadsAddUp(costs[..k], placement[..k], m);
      forall s | 0 <= s < m ensures load <= Load(costs[..k], placement[..k], s) <= Sum(costs[..k]) {
        LoadIsPart(costs[..k], placement[..k], s);
      }
      LoadSumBounds(costs[..k], placement[..k], m, load, Sum(costs[..k]));
      assert Sum(jobs) == Sum(costs[..k]) + p;
      ShareBound(m, load, p, limit);
    }
  }

  lemma ScaleBound(m: nat, load: Cost, limit: Cost)
    requires m > 0 && load <= limit
    ensures WithinRatio(m, load, limit)
  {
    ProductGrows(3.0 * m as real, load, limit);
    ProductGrows(m as real - 1.0, 0.0, limit);
    assert (4.0 * m as real - 1.0) * limit == 3.0 * m as real * limit + (m as real - 1.0) * limit;
  }

  lemma ProductGrows(k: Cost, x: Cost, y: Cost)
    requires x <= y
    ensures k * x <= k * y
  {}

  lemma ShareBound(m: nat, load: Cost, p: Cost, limit: Cost)
    requires m > 0 && m as real * load + p <= m as real * limit && 3.0 * p <= limit
    ensures WithinRatio(m, load + p, limit)
  {
    var n := m as real;
    ProductGrows(n - 1.0, 3.0 * p, limit);
    var all, some, cap := n * load, (n - 1.0) * p, n * limit;
    assert n * (load + p) == all + some + p;
    assert (n - 1.0) * (3.0 * p) == 3.0 * some;
    assert (n - 1.0) * limit == cap - limit;
    assert (4.0 * n - 1.0) * limit == 4.0 * cap - limit;
    assert 3.0 * n * (load + p) == 3.0 * (n * (load + p));
  }

  lemma {:induction false} GreedyBoundUpTo(costs: seq<Cost>, placement: seq<nat>, other: seq<nat>, m: nat, limit: Cost,
                                           shard: nat, n: nat)
    requires |costs| == |placement| == |other| && n <= |costs| && shard < m
    requires Descending(costs) && Greedy(costs, placement, m)
    requires Assigns(other, m) && Within(costs, other, m, limit)
    ensures WithinRatio(m, Load(costs[..n], placement[..n], shard), limit)
    decreases n
  {
    hide WithinRatio;
    if n == 0 {
      assert Load(costs[..0], placement[..0], shard) == 0.0;
      ScaleBound(m, 0.0, limit);
    } else {
      assert costs[..n][..n - 1] == costs[..n - 1] && placement[..n][..n - 1] == placement[..n - 1];
      if placement[n - 1] == shard {
        LastPlacement(costs, placement, other, m, limit, n - 1);
      } else {
        GreedyBoundUpTo(costs, placement, other, m, limit, shard, n - 1);
      }
    }
  }

  /**
   * Longest job first is within 4/3 - 1/(3m) of every assignment: if some assignment of the same jobs
   * keeps all `m` shards within `limit`, no greedy shard exceeds (4m - 1) / 3m times that limit.
   */
  lemma LongestFirstBound(costs: seq<Cost>, placement: seq<nat>, other: seq<nat>, m: nat, limit: Cost)
    requires |costs| == |placement| == |other|
    requires Descending(costs) && Greedy(costs, placement, m)
    requires Assigns(other, m) && Within(costs, other, m, limit)
    ensures forall s :: 0 <= s < m ==> WithinRatio(m, Load(costs, placement, s), limit)
  {
    hide WithinRatio, Load, Greedy, Descending, Within, Assigns;
    assert costs[..|costs|] == costs && placement[..|costs|] == placement;
    forall s | 0 <= s < m ensures WithinRatio(m, Load(costs, placement, s), limit) {
      GreedyBoundUpTo(costs, placement, other, m, limit, s, |costs|);
    }
  }
}
