/** Disjoint repository shards of a CSV: longest estimated time first, or round robin without estimates. */
module RepositoryShards {
  import opened Wrappers
  import opened Sequences
  import opened Sorting
  import opened GreedyBound
  import opened Heap

  datatype Row = Row(repository: string, fields: seq<string>)

  type Costs = map<string, Cost>

  /** The estimates of a cost table; a later line replaces an earlier one, and every value must be positive. */
  method ReadCosts(table: seq<(string, real)>) returns (r: Option<Costs>)
    ensures r.Some? <==> forall k :: 0 <= k < |table| ==> table[k].1 > 0.0
    ensures r.Some? ==> forall name :: name in r.value ==> r.value[name] > 0.0
    ensures r.Some? ==> forall k :: 0 <= k < |table| ==>
              table[k].0 in r.value
              && ((forall j :: k < j < |table| ==> table[j].0 != table[k].0) ==> r.value[table[k].0] == table[k].1)
  {
    var costs: Costs := map[];
    for n := 0 to |table|
      invariant forall k :: 0 <= k < n ==> table[k].1 > 0.0
      invariant forall name :: name in costs ==> costs[name] > 0.0
      invariant forall k :: 0 <= k < n ==>
                  table[k].0 in costs
                  && ((forall j :: k < j < n ==> table[j].0 != table[k].0) ==> costs[table[k].0] == table[k].1)
    {
      if table[n].1 <= 0.0 {
        return None;
      }
      costs := costs[table[n].0 := table[n].1];
    }
    return Some(costs);
  }

  predicate CostLeq(a: Cost, b: Cost) {
    a <= b
  }

  /** The estimates that are known for the given rows. */
  function Known(rows: seq<Row>, costs: Costs): seq<Cost> {
    if rows == [] then []
    else (if rows[0].repository in costs then [costs[rows[0].repository]] else []) + Known(rows[1..], costs)
  }

  /** The upper median of the known estimates, or one. */
  function DefaultCost(rows: seq<Row>, costs: Costs): Cost {
    var known := Known(rows, costs);
    if known == [] then 1.0 else Sort(CostLeq, known)[|known| / 2]
  }

  function CostOf(costs: Costs, default: Cost, row: Row): Cost {
    if row.repository in costs then costs[row.repository] else default
  }

  function TotalCost(costs: Costs, default: Cost, rows: seq<Row>): Cost {
    if rows == [] then 0.0 else TotalCost(costs, default, rows[..|rows| - 1]) + CostOf(costs, default, rows[|rows| - 1])
  }

  lemma {:induction false} KnownArePositive(rows: seq<Row>, costs: Costs)
    requires forall name :: name in costs ==> costs[name] > 0.0
    ensures forall x :: x in Known(rows, costs) ==> x > 0.0
  {
    if rows != [] {
      KnownArePositive(rows[1..], costs);
    }
  }

  /** Unknown repositories get a positive estimate as well. */
  lemma DefaultIsPositive(rows: seq<Row>, costs: Costs)
    requires forall name :: name in costs ==> costs[name] > 0.0
    ensures DefaultCost(rows, costs) > 0.0
  {
    var known := Known(rows, costs);
    KnownArePositive(rows, costs);
    SortKeepsMembers(CostLeq, known);
    if known != [] {
      assert Sort(CostLeq, known)[|known| / 2] in Sort(CostLeq, known);
    }
  }

  function Smaller(known: seq<Cost>, bound: Cost): seq<Cost> {
    Filter(known, (x: Cost) => x < bound)
  }

  function NotLarger(known: seq<Cost>, bound: Cost): seq<Cost> {
    Filter(known, (x: Cost) => x <= bound)
  }

  lemma {:induction false} InsertFiltered(x: Cost, s: seq<Cost>, keep: Cost -> bool)
    ensures |Filter(Insert(CostLeq, x, s), keep)| == |Filter([x] + s, keep)|
  {
    if s != [] && !CostLeq(x, s[0]) {
      InsertFiltered(x, s[1..], keep);
      assert ([x] + s)[1..] == s && ([x] + s[1..])[1..] == s[1..];
    }
  }

  /** Sorting keeps how many estimates satisfy a test. */
  lemma {:induction false} SortFiltered(s: seq<Cost>, keep: Cost -> bool)
    ensures |Filter(Sort(CostLeq, s), keep)| == |Filter(s, keep)|
  {
    if s != [] {
      var rest := Sort(CostLeq, s[1..]);
      SortFiltered(s[1..], keep);
      InsertFiltered(s[0], rest, keep);
      assert ([s[0]] + rest)[1..] == rest;
    }
  }

  lemma {:induction false} FilterIsPart(s: seq<Cost>, keep: Cost -> bool)
    ensures |Filter(s, keep)| <= |s|
    ensures (forall x :: x in s ==> !keep(x)) ==> Filter(s, keep) == []
  {
    if s != [] {
      FilterIsPart(s[1..], keep);
    }
  }

  lemma SortedMedian(s: seq<Cost>, h: nat)
    requires SortedBy(CostLeq, s) && h < |s|
    ensures |Smaller(s, s[h])| <= h < |NotLarger(s, s[h])|
  {
    var smaller, notLarger := (x: Cost) => x < s[h], (x: Cost) => x <= s[h];
    assert s == s[..h] + s[h..] && s == s[..h + 1] + s[h + 1..];
    FilterAppend(s[..h], s[h..], smaller);
    FilterIsPart(s[..h], smaller);
    FilterIsPart(s[h..], smaller);
    FilterAppend(s[..h + 1], s[h + 1..], notLarger);
    FilterKeepsAll(s[..h + 1], notLarger);
  }

  /**
   * Without known estimates the default is one. Otherwise it is a known estimate: at most half of the
   * known ones are smaller and more than half are not larger. It is positive if all estimates are.
   */
  lemma DefaultIsMedian(rows: seq<Row>, costs: Costs)
    ensures var known, default := Known(rows, costs), DefaultCost(rows, costs);
            if known == [] then default == 1.0
            else default in known && |Smaller(known, default)| <= |known| / 2 < |NotLarger(known, default)|
    ensures (forall name :: name in costs ==> costs[name] > 0.0) ==> DefaultCost(rows, costs) > 0.0
  {
    var known := Known(rows, costs);
    if forall name :: name in costs ==> costs[name] > 0.0 {
      DefaultIsPositive(rows, costs);
    }
    hide Known, Filter;
    if known != [] {
      var sorted, default := Sort(CostLeq, known), DefaultCost(rows, costs);
      SortSorts(CostLeq, known);
      SortedMedian(sorted, |known| / 2);
      SortFiltered(known, (x: Cost) => x < default);
      SortFiltered(known, (x: Cost) => x <= default);
      SortKeepsMembers(CostLeq, known);
    }
  }

  // ----- the heap of shards

  datatype Entry = Entry(load: real, count: nat, shard: nat)

  predicate EntryLeq(a: Entry, b: Entry) {
    a.load < b.load || (a.load == b.load && (a.count < b.count || (a.count == b.count && a.shard <= b.shard)))
  }

  lemma EntryLeqIsOrder()
    ensures TotalPreorder(EntryLeq)
  {}

  /** The entry of every shard: its load, its row count, its number. */
  function EntriesOf(groups: seq<seq<Row>>, loads: seq<real>): (entries: seq<Entry>)
    requires |groups| == |loads|
    ensures |entries| == |groups|
  {
    seq(|groups|, s requires 0 <= s < |groups| => Entry(loads[s], |groups[s]|, s))
  }

  lemma HeapEntry(groups: seq<seq<Row>>, loads: seq<real>, heap: seq<Entry>, entry: Entry)
    requires |groups| == |loads| && multiset(heap) == multiset(EntriesOf(groups, loads))
    ensures entry in heap <==>
            entry.shard < |groups| && entry == Entry(loads[entry.shard], |groups[entry.shard]|, entry.shard)
  {
    var entries := EntriesOf(groups, loads);
    assert entry in heap <==> entry in multiset(entries);
    if entry.shard < |groups| && entry == Entry(loads[entry.shard], |groups[entry.shard]|, entry.shard) {
      assert entries[entry.shard] == entry;
    }
  }

  // ----- what every step keeps

  lemma FlattenUpdate(groups: seq<seq<Row>>, s: nat, row: Row)
    requires s < |groups|
    ensures multiset(Flatten(groups[s := groups[s] + [row]])) == multiset(Flatten(groups)) + multiset{row}
  {
    var before, after := groups[..s], groups[s + 1..];
    assert groups == before + ([groups[s]] + after);
    assert groups[s := groups[s] + [row]] == before + ([groups[s] + [row]] + after);
    FlattenAppend(before, [groups[s]] + after);
    FlattenAppend(before, [groups[s] + [row]] + after);
  }

  /** Loads are the costs of their groups. */
  predicate LoadsAre(costs: Costs, default: Cost, groups: seq<seq<Row>>, loads: seq<real>) {
    |groups| == |loads| && forall s :: 0 <= s < |groups| ==> loads[s] == TotalCost(costs, default, groups[s])
  }

  /** No two loads differ by more than the largest single cost. */
  predicate SpreadWithin(loads: seq<real>, largest: real) {
    forall s, t :: 0 <= s < |loads| && 0 <= t < |loads| ==> loads[s] - loads[t] <= largest
  }

  /** Adding a cost to a least load keeps the spread within the larger of the old bound and the cost. */
  lemma SpreadFollows(loads: seq<real>, s: nat, cost: real, largest: real)
    requires s < |loads| && SpreadWithin(loads, largest) && cost >= 0.0
    requires forall t :: 0 <= t < |loads| ==> loads[s] <= loads[t]
    ensures SpreadWithin(loads[s := loads[s] + cost], if cost > largest then cost else largest)
  {}

  lemma LoadsFollow(costs: Costs, default: Cost, groups: seq<seq<Row>>, loads: seq<real>, s: nat, row: Row)
    requires LoadsAre(costs, default, groups, loads) && s < |groups|
    ensures LoadsAre(costs, default, groups[s := groups[s] + [row]], loads[s := loads[s] + CostOf(costs, default, row)])
  {
    assert (groups[s] + [row])[..|groups[s]|] == groups[s];
  }

  function LargestCost(costs: Costs, default: Cost, rows: seq<Row>): Cost {
    if rows == [] then 0.0
    else
      var before, last := LargestCost(costs, default, rows[..|rows| - 1]), CostOf(costs, default, rows[|rows| - 1]);
      if last > before then last else before
  }

  lemma {:induction false} LargestIsAttained(costs: Costs, default: Cost, rows: seq<Row>, k: nat)
    requires k < |rows|
    ensures CostOf(costs, default, rows[k]) <= LargestCost(costs, default, rows)
  {
    if k < |rows| - 1 {
      LargestIsAttained(costs, default, rows[..|rows| - 1], k);
    }
  }

  lemma HeapFollows(groups: seq<seq<Row>>, loads: seq<real>, heap: seq<Entry>, rest: seq<Entry>, least: Entry, row: Row,
                    cost: real)
    requires |groups| == |loads| && multiset(heap) == multiset(EntriesOf(groups, loads))
    requires multiset(heap) == multiset(rest) + multiset{least}
    requires least.shard < |groups| && least == Entry(loads[least.shard], |groups[least.shard]|, least.shard)
    ensures var s := least.shard;
            multiset(rest + [Entry(least.load + cost, least.count + 1, s)]) ==
            multiset(EntriesOf(groups[s := groups[s] + [row]], loads[s := loads[s] + cost]))
  {
    var s, entries, pushed := least.shard, EntriesOf(groups, loads),
        Entry(least.load + cost, least.count + 1, least.shard);
    UpdatedMultiset(entries, s, pushed);
    assert EntriesOf(groups[s := groups[s] + [row]], loads[s := loads[s] + cost]) == entries[s := pushed];
  }

  /** Rows by falling cost, ties by their random number. */
  predicate RowBefore(costs: Costs, default: Cost, tieBreak: map<string, real>, a: Row, b: Row) {
    var x, y := CostOf(costs, default, a), CostOf(costs, default, b);
    var i := if a.repository in tieBreak then tieBreak[a.repository] else 0.0;
    var j := if b.repository in tieBreak then tieBreak[b.repository] else 0.0;
    x > y || (x == y && i <= j)
  }

  lemma RowBeforeIsOrder(costs: Costs, default: Cost, tieBreak: map<string, real>)
    ensures TotalPreorder((a: Row, b: Row) => RowBefore(costs, default, tieBreak, a, b))
  {}

  // ----- which shard takes which row

  /** The rows placed on `shard`, in the order they were taken. */
  function RowsOn(taken: seq<Row>, placement: seq<nat>, shard: nat): seq<Row>
    requires |taken| == |placement|
  {
    if taken == [] then []
    else
      var n := |taken| - 1;
      RowsOn(taken[..n], placement[..n], shard) + if placement[n] == shard then [taken[n]] else []
  }

  /** Shard `s` as the heap sees it after the first `k` rows. */
  function EntryAt(costs: Costs, default: Cost, taken: seq<Row>, placement: seq<nat>, k: nat, s: nat): Entry
    requires k <= |taken| == |placement|
  {
    var rows := RowsOn(taken[..k], placement[..k], s);
    Entry(TotalCost(costs, default, rows), |rows|, s)
  }

  /** Row `k` went to the shard with the least load, fewest rows and least number, in this order. */
  predicate PicksLeast(costs: Costs, default: Cost, taken: seq<Row>, placement: seq<nat>, m: nat, k: nat)
    requires k < |taken| == |placement|
  {
    && placement[k] < m
    && forall s :: 0 <= s < m ==>
         EntryLeq(EntryAt(costs, default, taken, placement, k, placement[k]),
                  EntryAt(costs, default, taken, placement, k, s))
  }

  predicate AllPickLeast(costs: Costs, default: Cost, taken: seq<Row>, placement: seq<nat>, m: nat)
    requires |taken| == |placement|
  {
    forall k :: 0 <= k < |taken| ==> PicksLeast(costs, default, taken, placement, m, k)
  }

  /** The rows, longest first, each taken by a shard that was least at that time. */
  predicate LongestFirst(costs: Costs, default: Cost, tieBreak: map<string, real>, rows: seq<Row>,
                         ordered: seq<Row>, placement: seq<nat>, m: nat)
  {
    && multiset(ordered) == multiset(rows) && |placement| == |ordered|
    && SortedBy((a: Row, b: Row) => RowBefore(costs, default, tieBreak, a, b), ordered)
    && AllPickLeast(costs, default, ordered, placement, m)
  }

  predicate GroupsAre(taken: seq<Row>, placement: seq<nat>, groups: seq<seq<Row>>)
    requires |taken| == |placement|
  {
    forall s :: 0 <= s < |groups| ==> groups[s] == RowsOn(taken, placement, s)
  }

  lemma GroupsFollow(taken: seq<Row>, placement: seq<nat>, groups: seq<seq<Row>>, s: nat, row: Row)
    requires |taken| == |placement| && GroupsAre(taken, placement, groups) && s < |groups|
    ensures GroupsAre(taken + [row], placement + [s], groups[s := groups[s] + [row]])
  {
    assert (taken + [row])[..|taken|] == taken && (placement + [s])[..|taken|] == placement;
  }

  lemma EntryStays(costs: Costs, default: Cost, taken: seq<Row>, placement: seq<nat>, row: Row, shard: nat, k: nat,
                   s: nat)
    requires k <= |taken| == |placement|
    ensures EntryAt(costs, default, taken + [row], placement + [shard], k, s) ==
            EntryAt(costs, default, taken, placement, k, s)
  {
    assert (taken + [row])[..k] == taken[..k] && (placement + [shard])[..k] == placement[..k];
  }

  lemma LeastIsPicked(costs: Costs, default: Cost, taken: seq<Row>, placement: seq<nat>, m: nat,
                      groups: seq<seq<Row>>, loads: seq<real>, heap: seq<Entry>, least: Entry, row: Row)
    requires |taken| == |placement| && |groups| == |loads| == m && AllPickLeast(costs, default, taken, placement, m)
    requires GroupsAre(taken, placement, groups) && LoadsAre(costs, default, groups, loads)
    requires multiset(heap) == multiset(EntriesOf(groups, loads))
    requires least in heap && forall e :: e in heap ==> EntryLeq(least, e)
    ensures AllPickLeast(costs, default, taken + [row], placement + [least.shard], m)
  {
    hide RowsOn, TotalCost;
    var n, longer := |taken|, placement + [least.shard];
    assert taken[..n] == taken && placement[..n] == placement;
    HeapEntry(groups, loads, heap, least);
    forall s | 0 <= s < m
      ensures EntryAt(costs, default, taken + [row], longer, n, s) == Entry(loads[s], |groups[s]|, s)
      ensures EntryLeq(least, Entry(loads[s], |groups[s]|, s))
    {
      EntryStays(costs, default, taken, placement, row, least.shard, n, s);
      HeapEntry(groups, loads, heap, Entry(loads[s], |groups[s]|, s));
    }
    forall k | 0 <= k < n ensures PicksLeast(costs, default, taken + [row], longer, m, k) {
      assert PicksLeast(costs, default, taken, placement, m, k);
      forall s ensures EntryAt(costs, default, taken + [row], longer, k, s) ==
                       EntryAt(costs, default, taken, placement, k, s) {
        EntryStays(costs, default, taken, placement, row, least.shard, k, s);
      }
    }
  }

  /** What holds between two rows of the sharding loop, once the rows `taken` are placed. */
  ghost predicate Balanced(costs: Costs, default: Cost, taken: seq<Row>, placement: seq<nat>, m: nat,
                           groups: seq<seq<Row>>, loads: seq<real>, heap: seq<Entry>)
  {
    && |groups| == |loads| == m && |placement| == |taken|
    && AllPickLeast(costs, default, taken, placement, m)
    && GroupsAre(taken, placement, groups)
    && multiset(Flatten(groups)) == multiset(taken)
    && LoadsAre(costs, default, groups, loads)
    && SpreadWithin(loads, LargestCost(costs, default, taken))
    && multiset(heap) == multiset(EntriesOf(groups, loads))
  }

  lemma BalancedStart(costs: Costs, default: Cost, m: nat)
    ensures Balanced(costs, default, [], [], m, NoGroups(m), NoLoads(m), EntriesOf(NoGroups(m), NoLoads(m)))
  {
    NothingSharded(m);
  }

  /** One row: pop the least loaded shard, extend it, push it back. */
  method PlaceRow(costs: Costs, default: Cost, row: Row, m: nat, groups: seq<seq<Row>>, loads: seq<real>,
                  heap: seq<Entry>, ghost taken: seq<Row>, ghost placement: seq<nat>)
    returns (s: nat, groups': seq<seq<Row>>, loads': seq<real>, heap': seq<Entry>)
    requires m >= 1 && Balanced(costs, default, taken, placement, m, groups, loads, heap)
    ensures Balanced(costs, default, taken + [row], placement + [s], m, groups', loads', heap')
  {
    hide EntriesOf, CostOf, EntryLeq, LoadsAre, SpreadWithin, Flatten, GroupsAre, AllPickLeast;
    HeapEntry(groups, loads, heap, Entry(loads[0], |groups[0]|, 0));
    EntryLeqIsOrder();
    var least, rest := PopLeast(EntryLeq, heap);
    s := least.shard;
    var cost := CostOf(costs, default, row);
    HeapEntry(groups, loads, heap, least);
    LeastLoad(groups, loads, heap, least);
    LeastIsPicked(costs, default, taken, placement, m, groups, loads, heap, least, row);
    GroupsFollow(taken, placement, groups, s, row);
    FlattenUpdate(groups, s, row);
    LoadsFollow(costs, default, groups, loads, s, row);
    SpreadFollows(loads, s, cost, LargestCost(costs, default, taken));
    HeapFollows(groups, loads, heap, rest, least, row, cost);
    assert (taken + [row])[..|taken|] == taken;
    groups' := groups[s := groups[s] + [row]];
    loads' := loads[s := loads[s] + cost];
    heap' := rest + [Entry(least.load + cost, least.count + 1, s)];
  }

  /**
   * Longest estimated time first. After every row the heap holds exactly each shard's load, count and
   * number; every row goes to a least loaded shard; the groups share out the rows taken so far, each
   * in the order taken; loads are the groups' costs; and no two loads differ by more than the largest
   * cost seen.
   */
  method ShardByCost(rows: seq<Row>, costs: Costs, tieBreak: map<string, real>, m: nat)
    returns (groups: seq<seq<Row>>, loads: seq<real>, ghost ordered: seq<Row>, ghost placement: seq<nat>)
    requires m >= 1
    ensures LongestFirst(costs, DefaultCost(rows, costs), tieBreak, rows, ordered, placement, m)
    ensures |groups| == |loads| == m && GroupsAre(ordered, placement, groups)
    ensures multiset(Flatten(groups)) == multiset(rows)
    ensures LoadsAre(costs, DefaultCost(rows, costs), groups, loads)
    ensures SpreadWithin(loads, LargestCost(costs, DefaultCost(rows, costs), rows))
  {
    var default := DefaultCost(rows, costs);
    var before := (a: Row, b: Row) => RowBefore(costs, default, tieBreak, a, b);
    var queue := Sort(before, rows);
    RowBeforeIsOrder(costs, default, tieBreak);
    SortSorts(before, rows);
    groups, loads := NoGroups(m), NoLoads(m);
    var heap := EntriesOf(groups, loads);
    BalancedStart(costs, default, m);
    ordered, placement := queue, [];
    hide AllPickLeast, GroupsAre, LoadsAre, SpreadWithin, Flatten, RowBefore;
    for k := 0 to |queue|
      invariant Balanced(costs, default, queue[..k], placement, m, groups, loads, heap)
    {
      hide Balanced, DefaultCost, Sort;
      assert queue[..k + 1] == queue[..k] + [queue[k]];
      var s;
      s, groups, loads, heap := PlaceRow(costs, default, queue[k], m, groups, loads, heap, queue[..k], placement);
      placement := placement + [s];
    }
    assert queue[..|queue|] == queue;
    LargestOfPermutation(costs, default, queue, rows);
    SpreadWidens(loads, LargestCost(costs, default, queue), LargestCost(costs, default, rows));
  }

  /** Rows are taken by falling cost, and rows of one cost by rising random number. */
  lemma RowsInOrder(costs: Costs, default: Cost, tieBreak: map<string, real>, rows: seq<Row>,
                    ordered: seq<Row>, placement: seq<nat>, m: nat, i: nat, j: nat)
    requires LongestFirst(costs, default, tieBreak, rows, ordered, placement, m) && i < j < |ordered|
    requires ordered[i].repository in tieBreak && ordered[j].repository in tieBreak
    ensures CostOf(costs, default, ordered[i]) >= CostOf(costs, default, ordered[j])
    ensures CostOf(costs, default, ordered[i]) == CostOf(costs, default, ordered[j]) ==>
              tieBreak[ordered[i].repository] <= tieBreak[ordered[j].repository]
  {
    hide CostOf;
    var before := (a: Row, b: Row) => RowBefore(costs, default, tieBreak, a, b);
    assert before(ordered[i], ordered[j]);
  }

  /**
   * Row `k` goes to the shard with the least cost so far; of several such shards to the one with the
   * fewest rows so far, and of several of those to the first.
   */
  lemma ShardIsLeast(costs: Costs, default: Cost, tieBreak: map<string, real>, rows: seq<Row>,
                     ordered: seq<Row>, placement: seq<nat>, m: nat, k: nat, s: nat)
    requires LongestFirst(costs, default, tieBreak, rows, ordered, placement, m) && k < |ordered| && s < m
    ensures var mine, other := RowsOn(ordered[..k], placement[..k], placement[k]),
            RowsOn(ordered[..k], placement[..k], s);
            && TotalCost(costs, default, mine) <= TotalCost(costs, default, other)
            && (TotalCost(costs, default, mine) == TotalCost(costs, default, other) ==>
                  |mine| < |other| || (|mine| == |other| && placement[k] <= s))
  {
    hide TotalCost, RowsOn;
    assert PicksLeast(costs, default, ordered, placement, m, k);
    assert EntryLeq(EntryAt(costs, default, ordered, placement, k, placement[k]),
                    EntryAt(costs, default, ordered, placement, k, s));
  }

  // ----- the bound

  function RowCosts(costs: Costs, default: Cost, rows: seq<Row>): (r: seq<Cost>)
    ensures |r| == |rows|
  {
    Map((row: Row) => CostOf(costs, default, row), rows)
  }

  lemma {:induction false} LoadIsCostOn(costs: Costs, default: Cost, rows: seq<Row>, placement: seq<nat>, s: nat)
    requires |rows| == |placement|
    ensures Load(RowCosts(costs, default, rows), placement, s) == TotalCost(costs, default, RowsOn(rows, placement, s))
    decreases |rows|
  {
    hide CostOf;
    if rows != [] {
      var n := |rows| - 1;
      LoadIsCostOn(costs, default, rows[..n], placement[..n], s);
      assert RowCosts(costs, default, rows)[..n] == RowCosts(costs, default, rows[..n]);
      var on := RowsOn(rows[..n], placement[..n], s);
      assert (on + [rows[n]])[..|on|] == on && on + [] == on;
    }
  }

  lemma {:induction false} TotalAppend(costs: Costs, default: Cost, a: seq<Row>, b: seq<Row>)
    ensures TotalCost(costs, default, a + b) == TotalCost(costs, default, a) + TotalCost(costs, default, b)
    decreases |b|
  {
    hide CostOf;
    if b == [] {
      assert a + b == a;
    } else {
      TotalAppend(costs, default, a, b[..|b| - 1]);
      assert (a + b)[..|a + b| - 1] == a + b[..|b| - 1];
    }
  }

  lemma TotalWithout(costs: Costs, default: Cost, rows: seq<Row>, k: nat)
    requires k < |rows|
    ensures TotalCost(costs, default, rows) ==
            TotalCost(costs, default, Without(rows, k)) + CostOf(costs, default, rows[k])
  {
    var one := [rows[k]];
    assert one[..0] == [] && rows == rows[..k] + (one + rows[k + 1..]);
    assert TotalCost(costs, default, one) == TotalCost(costs, default, one[..0]) + CostOf(costs, default, rows[k]);
    hide TotalCost, CostOf;
    TotalAppend(costs, default, rows[..k], one + rows[k + 1..]);
    TotalAppend(costs, default, one, rows[k + 1..]);
    TotalAppend(costs, default, rows[..k], rows[k + 1..]);
  }

  lemma {:induction false} InSomeGroup(groups: seq<seq<Row>>, row: Row) returns (s: nat, k: nat)
    requires row in Flatten(groups)
    ensures s < |groups| && k < |groups[s]| && groups[s][k] == row
  {
    if row in groups[0] {
      s := 0;
      k :| 0 <= k < |groups[0]| && groups[0][k] == row;
    } else {
      s, k := InSomeGroup(groups[1..], row);
      s := s + 1;
    }
  }

  lemma FlattenWithout(groups: seq<seq<Row>>, s: nat, k: nat)
    requires s < |groups| && k < |groups[s]|
    ensures multiset(Flatten(groups[s := Without(groups[s], k)])) == multiset(Flatten(groups)) - multiset{groups[s][k]}
  {
    var before, after, less := groups[..s], groups[s + 1..], Without(groups[s], k);
    WithoutOne(groups[s], k);
    assert groups == before + ([groups[s]] + after);
    assert groups[s := less] == before + ([less] + after);
    FlattenAppend(before, [groups[s]] + after);
    FlattenAppend(before, [less] + after);
  }

  /** Every way to share out the rows is an assignment of the rows in the order taken. */
  lemma {:induction false} PartitionIsAssignment(costs: Costs, default: Cost, taken: seq<Row>, rivals: seq<seq<Row>>)
    returns (other: seq<nat>)
    requires multiset(Flatten(rivals)) == multiset(taken)
    ensures |other| == |taken| && Assigns(other, |rivals|)
    ensures forall s :: 0 <= s < |rivals| ==>
              Load(RowCosts(costs, default, taken), other, s) == TotalCost(costs, default, rivals[s])
    decreases |taken|
  {
    hide CostOf, TotalCost, Load, RowCosts, Without, Flatten;
    if taken == [] {
      other := [];
      NothingTaken(costs, default, rivals);
    } else {
      var n := |taken| - 1;
      var row := taken[n];
      assert taken == taken[..n] + [row];
      assert row in multiset(Flatten(rivals));
      var s, k := InSomeGroup(rivals, row);
      FlattenWithout(rivals, s, k);
      TotalWithout(costs, default, rivals[s], k);
      var fewer := PartitionIsAssignment(costs, default, taken[..n], rivals[s := Without(rivals[s], k)]);
      other := fewer + [s];
      forall t | 0 <= t < |rivals|
        ensures Load(RowCosts(costs, default, taken), other, t) == TotalCost(costs, default, rivals[t])
      {
        LoadOfLast(costs, default, taken, fewer, s, t);
      }
    }
  }

  lemma NothingTaken(costs: Costs, default: Cost, rivals: seq<seq<Row>>)
    requires multiset(Flatten(rivals)) == multiset([])
    ensures forall s :: 0 <= s < |rivals| ==>
              Load(RowCosts(costs, default, []), [], s) == TotalCost(costs, default, rivals[s])
  {
    forall s | 0 <= s < |rivals| ensures rivals[s] == [] {
      NothingInside(rivals, s);
    }
  }

  lemma LoadOfLast(costs: Costs, default: Cost, taken: seq<Row>, fewer: seq<nat>, s: nat, shard: nat)
    requires |taken| == |fewer| + 1
    ensures var n := |fewer|;
            Load(RowCosts(costs, default, taken), fewer + [s], shard) ==
            Load(RowCosts(costs, default, taken[..n]), fewer, shard)
            + if s == shard then CostOf(costs, default, taken[n]) else 0.0
  {
    hide CostOf;
    assert RowCosts(costs, default, taken)[..|fewer|] == RowCosts(costs, default, taken[..|fewer|]);
    assert (fewer + [s])[..|fewer|] == fewer;
  }

  lemma {:induction false} NothingInside(groups: seq<seq<Row>>, s: nat)
    requires multiset(Flatten(groups)) == multiset([]) && s < |groups|
    ensures groups[s] == []
  {
    assert |multiset(Flatten(groups))| == 0;
    if s > 0 {
      NothingInside(groups[1..], s - 1);
    }
  }

  /**
   * Shard balance for estimated times: if the rows can be shared out over `m` groups in any way that
   * keeps every group within `limit`, the groups built here stay within 4/3 - 1/(3m) of that limit.
   */
  lemma CostBound(costs: Costs, default: Cost, tieBreak: map<string, real>, rows: seq<Row>,
                  ordered: seq<Row>, placement: seq<nat>, m: nat, rivals: seq<seq<Row>>, limit: Cost)
    requires LongestFirst(costs, default, tieBreak, rows, ordered, placement, m)
    requires |rivals| == m && multiset(Flatten(rivals)) == multiset(rows)
    requires forall s :: 0 <= s < m ==> TotalCost(costs, default, rivals[s]) <= limit
    ensures forall s :: 0 <= s < m ==>
              WithinRatio(m, TotalCost(costs, default, RowsOn(ordered, placement, s)), limit)
  {
    hide CostOf, TotalCost, WithinRatio, RowsOn, Flatten;
    var all := RowCosts(costs, default, ordered);
    var other := PartitionIsAssignment(costs, default, ordered, rivals);
    CostsDescend(costs, default, tieBreak, ordered);
    RowsAreGreedy(costs, default, ordered, placement, m);
    LongestFirstBound(all, placement, other, m, limit);
    forall s | 0 <= s < m
      ensures WithinRatio(m, TotalCost(costs, default, RowsOn(ordered, placement, s)), limit)
    {
      LoadIsCostOn(costs, default, ordered, placement, s);
    }
  }

  lemma CostsDescend(costs: Costs, default: Cost, tieBreak: map<string, real>, ordered: seq<Row>)
    requires SortedBy((a: Row, b: Row) => RowBefore(costs, default, tieBreak, a, b), ordered)
    ensures Descending(RowCosts(costs, default, ordered))
  {
    var before := (a: Row, b: Row) => RowBefore(costs, default, tieBreak, a, b);
    forall i, j | 0 <= i < j < |ordered|
      ensures RowCosts(costs, default, ordered)[i] >= RowCosts(costs, default, ordered)[j]
    {
      assert before(ordered[i], ordered[j]);
    }
  }

  lemma RowsAreGreedy(costs: Costs, default: Cost, taken: seq<Row>, placement: seq<nat>, m: nat)
    requires |taken| == |placement| && AllPickLeast(costs, default, taken, placement, m)
    ensures Greedy(RowCosts(costs, default, taken), placement, m)
  {
    hide TotalCost, RowsOn, Load;
    var all := RowCosts(costs, default, taken);
    forall k | 0 <= k < |taken| ensures placement[k] < m && GreedyAt(all, placement, m, k) {
      assert PicksLeast(costs, default, taken, placement, m, k);
      assert all[..k] == RowCosts(costs, default, taken[..k]);
      forall s | 0 <= s < m ensures Load(all[..k], placement[..k], placement[k]) <= Load(all[..k], placement[..k], s) {
        assert EntryLeq(EntryAt(costs, default, taken, placement, k, placement[k]),
                        EntryAt(costs, default, taken, placement, k, s));
        LoadIsCostOn(costs, default, taken[..k], placement[..k], placement[k]);
        LoadIsCostOn(costs, default, taken[..k], placement[..k], s);
      }
    }
  }

  lemma SpreadWidens(loads: seq<real>, a: real, b: real)
    requires SpreadWithin(loads, a) && a <= b
    ensures SpreadWithin(loads, b)
  {}

  lemma {:induction false} LargestIsBounded(costs: Costs, default: Cost, rows: seq<Row>, bound: real)
    requires bound >= 0.0 && forall k :: 0 <= k < |rows| ==> CostOf(costs, default, rows[k]) <= bound
    ensures 0.0 <= LargestCost(costs, default, rows) <= bound
  {
    if rows != [] {
      LargestIsBounded(costs, default, rows[..|rows| - 1], bound);
    }
  }

  lemma {:induction false} LargestIsPositive(costs: Costs, default: Cost, rows: seq<Row>)
    ensures LargestCost(costs, default, rows) >= 0.0
  {
    if rows != [] {
      LargestIsPositive(costs, default, rows[..|rows| - 1]);
    }
  }

  lemma LargestOfPermutation(costs: Costs, default: Cost, a: seq<Row>, b: seq<Row>)
    requires multiset(a) == multiset(b)
    ensures LargestCost(costs, default, a) <= LargestCost(costs, default, b)
  {
    hide CostOf, LargestCost;
    forall k | 0 <= k < |a| ensures CostOf(costs, default, a[k]) <= LargestCost(costs, default, b) {
      assert a[k] in multiset(b);
      var j :| 0 <= j < |b| && b[j] == a[k];
      LargestIsAttained(costs, default, b, j);
    }
    LargestIsPositive(costs, default, b);
    LargestIsBounded(costs, default, a, LargestCost(costs, default, b));
  }

  lemma LeastLoad(groups: seq<seq<Row>>, loads: seq<real>, heap: seq<Entry>, least: Entry)
    requires |groups| == |loads| && multiset(heap) == multiset(EntriesOf(groups, loads))
    requires least in heap && forall e :: e in heap ==> EntryLeq(least, e)
    ensures least.shard < |loads| && forall t :: 0 <= t < |loads| ==> loads[least.shard] <= loads[t]
  {
    HeapEntry(groups, loads, heap, least);
    forall t | 0 <= t < |loads| ensures loads[least.shard] <= loads[t] {
      HeapEntry(groups, loads, heap, Entry(loads[t], |groups[t]|, t));
    }
  }

  lemma {:induction false} FlattenEmpties(groups: seq<seq<Row>>)
    requires forall s :: 0 <= s < |groups| ==> groups[s] == []
    ensures Flatten(groups) == []
  {
    if groups != [] {
      FlattenEmpties(groups[1..]);
    }
  }

  function NoGroups(m: nat): seq<seq<Row>> {
    seq(m, _ => [])
  }

  function NoLoads(m: nat): seq<real> {
    seq(m, _ => 0.0)
  }

  lemma NothingSharded(m: nat)
    ensures Flatten(NoGroups(m)) == []
    ensures SpreadWithin(NoLoads(m), 0.0)
    ensures forall costs, default :: LoadsAre(costs, default, NoGroups(m), NoLoads(m))
  {
    FlattenEmpties(NoGroups(m));
  }

  // ----- without estimates

  /** How many of the first `n` positions a round robin over `m` shards gives to shard `s`. */
  function Share(n: nat, m: nat, s: nat): nat
    requires s < m
  {
    if n == 0 then 0 else Share(n - 1, m, s) + if (n - 1) % m == s then 1 else 0
  }

  lemma {:induction false} ShareIsEven(n: nat, m: nat, s: nat)
    requires s < m
    ensures Share(n, m, s) == n / m + if s < n % m then 1 else 0
  {
    if n > 0 {
      ShareIsEven(n - 1, m, s);
      NextDivision(n - 1, m);
    }
  }

  lemma NextDivision(n: nat, m: nat)
    requires m > 0
    ensures if n % m == m - 1 then (n + 1) / m == n / m + 1 && (n + 1) % m == 0
            else (n + 1) / m == n / m && (n + 1) % m == n % m + 1
  {
    var q, r := n / m, n % m;
    assert n == q * m + r;
    if r == m - 1 {
      assert n + 1 == (q + 1) * m;
      DivisionIs(n + 1, m, q + 1, 0);
    } else {
      DivisionIs(n + 1, m, q, r + 1);
    }
  }

  lemma DivisionIs(n: nat, m: nat, q: nat, r: nat)
    requires m > 0 && n == q * m + r && r < m
    ensures n / m == q && n % m == r
  {
    var q', r' := n / m, n % m;
    assert n == q' * m + r';
    assert q' < q ==> (q' + 1) * m <= q * m;
    assert q < q' ==> (q + 1) * m <= q' * m;
  }

  /** The row of turn `k` stands in group `k` modulo `m`, after those of the earlier rounds. */
  predicate TakesTurn(groups: seq<seq<Row>>, row: Row, k: nat, m: nat)
    requires |groups| == m > 0
  {
    k / m < |groups[k % m]| && groups[k % m][k / m] == row
  }

  lemma TurnsStay(groups: seq<seq<Row>>, row: Row, k: nat, m: nat, s: nat, more: Row)
    requires |groups| == m > 0 && TakesTurn(groups, row, k, m) && s < m
    ensures TakesTurn(groups[s := groups[s] + [more]], row, k, m)
  {}

  lemma TurnIsTaken(groups: seq<seq<Row>>, row: Row, k: nat, m: nat)
    requires |groups| == m > 0 && |groups[k % m]| == Share(k, m, k % m)
    ensures TakesTurn(groups[k % m := groups[k % m] + [row]], row, k, m)
  {
    ShareIsEven(k, m, k % m);
  }

  /** Round robin over the shuffled rows: row `k` goes to shard `k` modulo the number of shards. */
  method ShardRoundRobin(shuffled: seq<Row>, m: nat) returns (groups: seq<seq<Row>>, loads: seq<real>)
    requires m >= 1
    ensures |groups| == |loads| == m
    ensures multiset(Flatten(groups)) == multiset(shuffled)
    ensures forall s :: 0 <= s < m ==>
              |groups[s]| == |shuffled| / m + (if s < |shuffled| % m then 1 else 0) && loads[s] == |groups[s]| as real
    ensures forall k :: 0 <= k < |shuffled| ==> TakesTurn(groups, shuffled[k], k, m)
  {
    groups, loads := NoGroups(m), NoLoads(m);
    NothingSharded(m);
    hide Flatten, TakesTurn;
    for k := 0 to |shuffled|
      invariant |groups| == |loads| == m
      invariant multiset(Flatten(groups)) == multiset(shuffled[..k])
      invariant forall s :: 0 <= s < m ==> |groups[s]| == Share(k, m, s) && loads[s] == |groups[s]| as real
      invariant forall j :: 0 <= j < k ==> TakesTurn(groups, shuffled[j], j, m)
    {
      var row, s := shuffled[k], k % m;
      forall j | 0 <= j < k ensures TakesTurn(groups[s := groups[s] + [row]], shuffled[j], j, m) {
        TurnsStay(groups, shuffled[j], j, m, s, row);
      }
      TurnIsTaken(groups, row, k, m);
      assert shuffled[..k + 1] == shuffled[..k] + [row];
      FlattenUpdate(groups, s, row);
      groups := groups[s := groups[s] + [row]];
      loads := loads[s := loads[s] + 1.0];
    }
    assert shuffled[..|shuffled|] == shuffled;
    forall s | 0 <= s < m ensures Share(|shuffled|, m, s) == |shuffled| / m + if s < |shuffled| % m then 1 else 0 {
      ShareIsEven(|shuffled|, m, s);
    }
  }
}
