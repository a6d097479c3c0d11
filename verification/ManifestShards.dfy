/** Repository-level shards of a file-case manifest: whole groups, largest first, to the least loaded shard. */
module ManifestShards {
  import opened Sequences
  import opened Sorting
  import opened Text
  import G = GreedyBound
  import opened Heap

  datatype Record = Record(id: string, repository: string, bytes: nat)

  /** All cases of one repository, by their positions in the manifest. */
  datatype Group = Group(repository: string, members: seq<nat>)

  function Sum(costs: seq<nat>): nat {
    if costs == [] then 0 else Sum(costs[..|costs| - 1]) + costs[|costs| - 1]
  }

  /** The bytes (or cases) of the groups placed on `shard`. */
  function Load(costs: seq<nat>, placement: seq<nat>, shard: nat): nat
    requires |costs| == |placement|
  {
    if costs == [] then 0
    else
      var n := |costs| - 1;
      Load(costs[..n], placement[..n], shard) + if placement[n] == shard then costs[n] else 0
  }

  function RecordBytes(records: seq<Record>, i: nat): nat {
    if i < |records| then records[i].bytes else 0
  }

  function GroupBytes(records: seq<Record>, group: Group): nat {
    Sum(Map((i: nat) => RecordBytes(records, i), group.members))
  }

  // ----- grouping by repository

  /** Append a case to its repository's group; a new repository opens a group at the end. */
  function Grouped(groups: seq<Group>, repository: string, i: nat): seq<Group> {
    if groups == [] then [Group(repository, [i])]
    else if groups[0].repository == repository then [groups[0].(members := groups[0].members + [i])] + groups[1..]
    else [groups[0]] + Grouped(groups[1..], repository, i)
  }

  /** The groups of the first `n` cases, in order of first appearance. */
  function GroupsOf(records: seq<Record>, n: nat): seq<Group>
    requires n <= |records|
  {
    if n == 0 then [] else Grouped(GroupsOf(records, n - 1), records[n - 1].repository, n - 1)
  }

  /** The bytes of the cases whose repository `shardOf` sends to `shard`. */
  function RepositoryLoad(records: seq<Record>, shardOf: string -> nat, shard: nat): nat {
    if records == [] then 0
    else
      var last := records[|records| - 1];
      RepositoryLoad(records[..|records| - 1], shardOf, shard)
      + if shardOf(last.repository) == shard then last.bytes else 0
  }

  /** What a group adds to `shard`. */
  function Contribution(records: seq<Record>, shardOf: string -> nat, shard: nat, group: Group): nat {
    if shardOf(group.repository) == shard then GroupBytes(records, group) else 0
  }

  function Contributions(records: seq<Record>, shardOf: string -> nat, shard: nat, groups: seq<Group>): seq<nat> {
    Map((g: Group) => Contribution(records, shardOf, shard, g), groups)
  }

  lemma {:induction false} SumAppend(a: seq<nat>, b: seq<nat>)
    ensures Sum(a + b) == Sum(a) + Sum(b)
    decreases |b|
  {
    if b == [] {
      assert a + b == a;
    } else {
      SumAppend(a, b[..|b| - 1]);
      assert (a + b)[..|a + b| - 1] == a + b[..|b| - 1];
    }
  }

  lemma SumOne(x: nat)
    ensures Sum([x]) == x
  {
    assert [x][..0] == [];
  }

  lemma GroupBytesGrow(records: seq<Record>, group: Group, i: nat)
    ensures GroupBytes(records, group.(members := group.members + [i])) ==
            GroupBytes(records, group) + RecordBytes(records, i)
  {
    var f := (j: nat) => RecordBytes(records, j);
    assert Map(f, group.members + [i]) == Map(f, group.members) + [f(i)];
    SumAppend(Map(f, group.members), [f(i)]);
    SumOne(f(i));
  }

  lemma ContributionsSplit(records: seq<Record>, shardOf: string -> nat, shard: nat, a: seq<Group>, b: seq<Group>)
    ensures Sum(Contributions(records, shardOf, shard, a + b)) ==
            Sum(Contributions(records, shardOf, shard, a)) + Sum(Contributions(records, shardOf, shard, b))
  {
    assert Contributions(records, shardOf, shard, a + b) ==
           Contributions(records, shardOf, shard, a) + Contributions(records, shardOf, shard, b);
    SumAppend(Contributions(records, shardOf, shard, a), Contributions(records, shardOf, shard, b));
  }

  lemma ContributionOfOne(records: seq<Record>, shardOf: string -> nat, shard: nat, group: Group)
    ensures Sum(Contributions(records, shardOf, shard, [group])) == Contribution(records, shardOf, shard, group)
  {
    assert Contributions(records, shardOf, shard, [group]) == [Contribution(records, shardOf, shard, group)];
    SumOne(Contribution(records, shardOf, shard, group));
  }

  /** Grouping one more case adds its bytes to its repository's shard and to no other. */
  lemma {:induction false} GroupedContributes(records: seq<Record>, shardOf: string -> nat, shard: nat,
                                              groups: seq<Group>, repository: string, i: nat)
    ensures Sum(Contributions(records, shardOf, shard, Grouped(groups, repository, i))) ==
            Sum(Contributions(records, shardOf, shard, groups))
            + if shardOf(repository) == shard then RecordBytes(records, i) else 0
  {
    hide GroupBytes, Contributions;
    if groups == [] {
      GroupBytesGrow(records, Group(repository, []), i);
      assert [] + [i] == [i];
      ContributionOfOne(records, shardOf, shard, Group(repository, [i]));
      NoBytes(records, repository);
      NoContributions(records, shardOf, shard);
    } else {
      var first, rest := groups[0], groups[1..];
      assert groups == [first] + rest;
      ContributionsSplit(records, shardOf, shard, [first], rest);
      ContributionOfOne(records, shardOf, shard, first);
      if first.repository == repository {
        var grown := first.(members := first.members + [i]);
        GroupBytesGrow(records, first, i);
        ContributionsSplit(records, shardOf, shard, [grown], rest);
        ContributionOfOne(records, shardOf, shard, grown);
      } else {
        GroupedContributes(records, shardOf, shard, rest, repository, i);
        ContributionsSplit(records, shardOf, shard, [first], Grouped(rest, repository, i));
      }
    }
  }

  lemma NoBytes(records: seq<Record>, repository: string)
    ensures GroupBytes(records, Group(repository, [])) == 0
  {}

  lemma NoContributions(records: seq<Record>, shardOf: string -> nat, shard: nat)
    ensures Sum(Contributions(records, shardOf, shard, [])) == 0
  {}

  /** Groups and cases agree on the load of every shard, for every assignment of repositories. */
  lemma {:induction false} GroupsCarryLoad(records: seq<Record>, shardOf: string -> nat, shard: nat, n: nat)
    requires n <= |records|
    ensures Sum(Contributions(records, shardOf, shard, GroupsOf(records, n))) ==
            RepositoryLoad(records[..n], shardOf, shard)
  {
    hide Contributions;
    if n == 0 {
      NoContributions(records, shardOf, shard);
    } else {
      GroupsCarryLoad(records, shardOf, shard, n - 1);
      GroupedContributes(records, shardOf, shard, GroupsOf(records, n - 1), records[n - 1].repository, n - 1);
      assert records[..n][..n - 1] == records[..n - 1];
    }
  }

  // ----- order of the groups

  /** Larger groups first; equal ones by repository name. */
  predicate GroupBefore(records: seq<Record>, a: Group, b: Group) {
    var x, y := GroupBytes(records, a), GroupBytes(records, b);
    x > y || (x == y && LexLeq(a.repository, b.repository))
  }

  lemma GroupBeforeIsOrder(records: seq<Record>)
    ensures TotalPreorder((a: Group, b: Group) => GroupBefore(records, a, b))
  {
    hide GroupBytes;
    forall a: Group, b: Group ensures GroupBefore(records, a, b) || GroupBefore(records, b, a) {
      LexTotal(a.repository, b.repository);
    }
    forall a: Group, b: Group, c: Group | GroupBefore(records, a, b) && GroupBefore(records, b, c)
      ensures GroupBefore(records, a, c)
    {
      if LexLeq(a.repository, b.repository) && LexLeq(b.repository, c.repository) {
        LexTransitive(a.repository, b.repository, c.repository);
      }
    }
  }

  function SortedGroups(records: seq<Record>): seq<Group> {
    Sort((a: Group, b: Group) => GroupBefore(records, a, b), GroupsOf(records, |records|))
  }

  function Costs(records: seq<Record>, groups: seq<Group>): (costs: seq<nat>)
    ensures |costs| == |groups|
  {
    Map((g: Group) => GroupBytes(records, g), groups)
  }

  function Sizes(groups: seq<Group>): (sizes: seq<nat>)
    ensures |sizes| == |groups|
  {
    Map((g: Group) => |g.members|, groups)
  }

  lemma SortedGroupsDescend(records: seq<Record>)
    ensures G.Descending(Reals(Costs(records, SortedGroups(records))))
  {
    hide GroupBytes;
    var before := (a: Group, b: Group) => GroupBefore(records, a, b);
    GroupBeforeIsOrder(records);
    SortSorts(before, GroupsOf(records, |records|));
    var groups := SortedGroups(records);
    forall i, j | 0 <= i < j < |groups| ensures Costs(records, groups)[i] >= Costs(records, groups)[j] {
      assert before(groups[i], groups[j]);
    }
  }

  // ----- group loads are repository loads

  lemma {:induction false} SumPermutes(s: seq<nat>, t: seq<nat>)
    requires multiset(s) == multiset(t)
    ensures Sum(s) == Sum(t)
    decreases |s|
  {
    if s == [] {
      assert |multiset(t)| == 0;
    } else {
      var last := s[|s| - 1];
      assert last in multiset(t);
      var k :| 0 <= k < |t| && t[k] == last;
      assert |Without(s, |s| - 1)| < |s|;
      hide Sum, Without;
      WithoutOne(s, |s| - 1);
      WithoutOne(t, k);
      SumPermutes(Without(s, |s| - 1), Without(t, k));
      SumWithout(s, |s| - 1);
      SumWithout(t, k);
    }
  }

  lemma SumWithout(t: seq<nat>, k: nat)
    requires k < |t|
    ensures Sum(t) == Sum(Without(t, k)) + t[k]
  {
    hide Sum;
    assert t == t[..k] + ([t[k]] + t[k + 1..]);
    SumAppend(t[..k], [t[k]] + t[k + 1..]);
    SumAppend([t[k]], t[k + 1..]);
    SumAppend(t[..k], t[k + 1..]);
    SumOne(t[k]);
  }

  /** The load of a shard is what its groups contribute. */
  lemma {:induction false} LoadIsContributions(records: seq<Record>, shardOf: string -> nat, shard: nat,
                                               groups: seq<Group>, placement: seq<nat>)
    requires |placement| == |groups| && forall k :: 0 <= k < |groups| ==> placement[k] == shardOf(groups[k].repository)
    ensures Load(Costs(records, groups), placement, shard) == Sum(Contributions(records, shardOf, shard, groups))
    decreases |groups|
  {
    hide GroupBytes;
    if groups != [] {
      var n := |groups| - 1;
      LoadIsContributions(records, shardOf, shard, groups[..n], placement[..n]);
      assert Costs(records, groups)[..n] == Costs(records, groups[..n]);
      assert Contributions(records, shardOf, shard, groups)[..n] == Contributions(records, shardOf, shard, groups[..n]);
    }
  }

  /** Loads over the sorted groups are loads over the manifest's cases. */
  lemma GroupLoadIsRepositoryLoad(records: seq<Record>, shardOf: string -> nat, shard: nat, placement: seq<nat>)
    requires var groups := SortedGroups(records);
             |placement| == |groups| && forall k :: 0 <= k < |groups| ==> placement[k] == shardOf(groups[k].repository)
    ensures Load(Costs(records, SortedGroups(records)), placement, shard) == RepositoryLoad(records, shardOf, shard)
  {
    hide Contribution, GroupBefore, Costs, RepositoryLoad;
    var groups, unsorted := SortedGroups(records), GroupsOf(records, |records|);
    LoadIsContributions(records, shardOf, shard, groups, placement);
    ContributionsPermute(records, shardOf, shard, groups, unsorted);
    GroupsCarryLoad(records, shardOf, shard, |records|);
    assert records[..|records|] == records;
  }

  lemma ContributionsPermute(records: seq<Record>, shardOf: string -> nat, shard: nat, a: seq<Group>, b: seq<Group>)
    requires multiset(a) == multiset(b)
    ensures Sum(Contributions(records, shardOf, shard, a)) == Sum(Contributions(records, shardOf, shard, b))
  {
    hide Contribution;
    var f := (g: Group) => Contribution(records, shardOf, shard, g);
    MapPermutes(f, a, b);
    assert Contributions(records, shardOf, shard, a) == Map(f, a);
    assert Contributions(records, shardOf, shard, b) == Map(f, b);
    SumPermutes(Contributions(records, shardOf, shard, a), Contributions(records, shardOf, shard, b));
  }

  // ----- groups cover the manifest

  /** Every member is a case of the group's repository. */
  predicate MembersBelong(records: seq<Record>, groups: seq<Group>) {
    forall g :: g in groups ==> forall i :: i in g.members ==> i < |records| && records[i].repository == g.repository
  }

  predicate InSome(groups: seq<Group>, i: nat) {
    exists g :: g in groups && i in g.members
  }

  predicate Covers(groups: seq<Group>, n: nat) {
    forall i :: 0 <= i < n ==> InSome(groups, i)
  }

  function Repositories(groups: seq<Group>): seq<string> {
    Map((g: Group) => g.repository, groups)
  }

  lemma {:induction false} GroupedMembers(groups: seq<Group>, repository: string, i: nat)
    ensures forall g :: g in Grouped(groups, repository, i) ==>
              forall j :: j in g.members ==>
                (j == i && g.repository == repository)
                || exists h :: h in groups && h.repository == g.repository && j in h.members
    ensures InSome(Grouped(groups, repository, i), i)
    ensures forall j :: InSome(groups, j) ==> InSome(Grouped(groups, repository, i), j)
  {
    if groups != [] {
      var first, rest := groups[0], groups[1..];
      assert forall h :: h in groups <==> h == first || h in rest;
      if first.repository == repository {
        var grown := first.(members := first.members + [i]);
        assert forall g :: g in Grouped(groups, repository, i) <==> g == grown || g in rest;
        assert i in grown.members;
      } else {
        GroupedMembers(rest, repository, i);
        assert forall g :: g in Grouped(groups, repository, i) <==> g == first || g in Grouped(rest, repository, i);
        forall j | InSome(groups, j) ensures InSome(Grouped(groups, repository, i), j) {
          if j !in first.members {
            assert InSome(rest, j);
          }
        }
      }
    } else {
      assert Group(repository, [i]) in Grouped(groups, repository, i);
    }
  }

  lemma {:induction false} GroupedRepositories(groups: seq<Group>, repository: string, i: nat)
    ensures Repositories(Grouped(groups, repository, i)) ==
            Repositories(groups) + if repository in Repositories(groups) then [] else [repository]
  {
    if groups != [] {
      var first, rest := groups[0], groups[1..];
      RepositoriesSplit(first, rest);
      if first.repository == repository {
        RepositoriesSplit(first.(members := first.members + [i]), rest);
        assert groups == [first] + rest;
      } else {
        GroupedRepositories(rest, repository, i);
        hide Repositories;
        RepositoriesSplit(first, Grouped(rest, repository, i));
        assert groups == [first] + rest;
      }
    }
  }

  lemma RepositoriesSplit(first: Group, rest: seq<Group>)
    ensures Repositories([first] + rest) == [first.repository] + Repositories(rest)
  {}

  lemma {:induction false} MembersOfBelong(records: seq<Record>, n: nat)
    requires n <= |records|
    ensures MembersBelong(records, GroupsOf(records, n)) && Covers(GroupsOf(records, n), n)
  {
    hide InSome, Grouped;
    if n > 0 {
      MembersOfBelong(records, n - 1);
      GroupedMembers(GroupsOf(records, n - 1), records[n - 1].repository, n - 1);
    }
  }

  lemma {:induction false} RepositoriesAreDistinct(records: seq<Record>, n: nat)
    requires n <= |records|
    ensures Distinct(Repositories(GroupsOf(records, n)))
  {
    if n > 0 {
      hide Repositories, Grouped;
      RepositoriesAreDistinct(records, n - 1);
      GroupedRepositories(GroupsOf(records, n - 1), records[n - 1].repository, n - 1);
    }
  }

  lemma SortedGroupsAreRight(records: seq<Record>)
    ensures MembersBelong(records, SortedGroups(records)) && Covers(SortedGroups(records), |records|)
    ensures Distinct(Repositories(SortedGroups(records)))
  {
    hide GroupBefore, Sort, Repositories, GroupsOf;
    var groups, unsorted := SortedGroups(records), GroupsOf(records, |records|);
    MembersOfBelong(records, |records|);
    RepositoriesAreDistinct(records, |records|);
    SortKeepsMembers((a: Group, b: Group) => GroupBefore(records, a, b), unsorted);
    RepositoriesPermute(groups, unsorted);
    DistinctPermutes(Repositories(groups), Repositories(unsorted));
    forall i | 0 <= i < |records| ensures InSome(groups, i) {
      assert InSome(unsorted, i);
    }
  }

  lemma RepositoriesPermute(a: seq<Group>, b: seq<Group>)
    requires multiset(a) == multiset(b)
    ensures multiset(Repositories(a)) == multiset(Repositories(b))
  {
    MapPermutes((g: Group) => g.repository, a, b);
    assert Repositories(a) == Map((g: Group) => g.repository, a);
    assert Repositories(b) == Map((g: Group) => g.repository, b);
  }

  // ----- the heap

  datatype Entry = Entry(load: nat, count: nat, shard: nat)

  /** The order of Python's tuples. */
  predicate EntryLeq(a: Entry, b: Entry) {
    a.load < b.load || (a.load == b.load && (a.count < b.count || (a.count == b.count && a.shard <= b.shard)))
  }

  lemma EntryLeqIsOrder()
    ensures TotalPreorder(EntryLeq)
  {}

  /** One entry per shard, with its current load and case count. */
  function EntriesOf(loads: seq<nat>, counts: seq<nat>): (entries: seq<Entry>)
    requires |loads| == |counts|
    ensures |entries| == |loads|
  {
    seq(|loads|, s requires 0 <= s < |loads| => Entry(loads[s], counts[s], s))
  }

  lemma EntryOfShard(loads: seq<nat>, counts: seq<nat>, heap: seq<Entry>, entry: Entry)
    requires |loads| == |counts| && multiset(heap) == multiset(EntriesOf(loads, counts))
    ensures entry in heap <==>
            entry.shard < |loads| && entry == Entry(loads[entry.shard], counts[entry.shard], entry.shard)
  {
    assert entry in heap <==> entry in multiset(EntriesOf(loads, counts));
    var entries := EntriesOf(loads, counts);
    if entry.shard < |loads| && entry == Entry(loads[entry.shard], counts[entry.shard], entry.shard) {
      assert entries[entry.shard] == entry;
    }
  }

  /** Popping an entry and pushing its successor keeps one entry per shard. */
  lemma HeapFollows(heap: seq<Entry>, rest: seq<Entry>, least: Entry, loads: seq<nat>, counts: seq<nat>, pushed: Entry)
    requires |loads| == |counts| && multiset(heap) == multiset(EntriesOf(loads, counts))
    requires multiset(heap) == multiset(rest) + multiset{least}
    requires least.shard == pushed.shard < |loads|
    requires least == Entry(loads[least.shard], counts[least.shard], least.shard)
    ensures multiset(rest + [pushed]) ==
            multiset(EntriesOf(loads[pushed.shard := pushed.load], counts[pushed.shard := pushed.count]))
  {
    var s, entries := least.shard, EntriesOf(loads, counts);
    UpdatedMultiset(entries, s, pushed);
    assert EntriesOf(loads[s := pushed.load], counts[s := pushed.count]) == entries[s := pushed];
  }

  // ----- the assignment

  /** Shard `s` as the heap sees it after the first `k` groups. */
  function EntryAt(costs: seq<nat>, sizes: seq<nat>, placement: seq<nat>, k: nat, s: nat): Entry
    requires |costs| == |sizes| && k <= |costs| && k <= |placement|
  {
    Entry(Load(costs[..k], placement[..k], s), Load(sizes[..k], placement[..k], s), s)
  }

  /** Group `k` went to the shard with the least load, fewest cases and least number, in this order. */
  predicate PicksLeast(costs: seq<nat>, sizes: seq<nat>, placement: seq<nat>, m: nat, k: nat)
    requires |costs| == |sizes| && k < |costs| && k < |placement|
  {
    && placement[k] < m
    && forall s :: 0 <= s < m ==>
         EntryLeq(EntryAt(costs, sizes, placement, k, placement[k]), EntryAt(costs, sizes, placement, k, s))
  }

  predicate LongestFirst(records: seq<Record>, placement: seq<nat>, m: nat) {
    var groups := SortedGroups(records);
    && |placement| == |groups|
    && forall k :: 0 <= k < |groups| ==> PicksLeast(Costs(records, groups), Sizes(groups), placement, m, k)
  }

  function LookupShard(groups: seq<Group>, placement: seq<nat>, repository: string): nat
    requires |placement| == |groups|
  {
    if groups == [] then 0
    else if groups[0].repository == repository then placement[0]
    else LookupShard(groups[1..], placement[1..], repository)
  }

  lemma {:induction false} LookupIsPlacement(groups: seq<Group>, placement: seq<nat>, k: nat)
    requires |placement| == |groups| && k < |groups| && Distinct(Repositories(groups))
    ensures LookupShard(groups, placement, groups[k].repository) == placement[k]
  {
    if k > 0 {
      assert Repositories(groups)[0] != Repositories(groups)[k];
      assert forall j :: 0 <= j < |groups[1..]| ==> Repositories(groups[1..])[j] == Repositories(groups)[j + 1];
      LookupIsPlacement(groups[1..], placement[1..], k - 1);
    }
  }

  /** The shard that a placement of the sorted groups gives to each repository. */
  function ShardOf(records: seq<Record>, placement: seq<nat>): string -> nat
    requires |placement| == |SortedGroups(records)|
  {
    (repository: string) => LookupShard(SortedGroups(records), placement, repository)
  }

  lemma PrefixPicksLeast(costs: seq<nat>, sizes: seq<nat>, placement: seq<nat>, more: seq<nat>, m: nat, k: nat)
    requires |costs| == |sizes| && k < |costs| && k < |placement| && PicksLeast(costs, sizes, placement, m, k)
    ensures PicksLeast(costs, sizes, placement + more, m, k)
  {
    assert (placement + more)[..k] == placement[..k];
    forall s | 0 <= s < m
      ensures EntryAt(costs, sizes, placement + more, k, s) == EntryAt(costs, sizes, placement, k, s)
    {}
  }

  lemma LoadAfter(costs: seq<nat>, placement: seq<nat>, k: nat, s: nat, shard: nat)
    requires k == |placement| < |costs|
    ensures Load(costs[..k + 1], placement + [s], shard) ==
            Load(costs[..k], placement, shard) + if s == shard then costs[k] else 0
  {
    assert costs[..k + 1][..k] == costs[..k] && (placement + [s])[..k] == placement;
  }

  /** The running totals are the loads of the groups placed so far. */
  predicate LoadsAre(costs: seq<nat>, placement: seq<nat>, loads: seq<nat>, m: nat)
    requires |placement| <= |costs|
  {
    |loads| == m && forall s :: 0 <= s < m ==> loads[s] == Load(costs[..|placement|], placement, s)
  }

  predicate PickedSoFar(costs: seq<nat>, sizes: seq<nat>, placement: seq<nat>, m: nat)
    requires |costs| == |sizes| && |placement| <= |costs|
  {
    forall k :: 0 <= k < |placement| ==> PicksLeast(costs, sizes, placement, m, k)
  }

  lemma LoadsStart(costs: seq<nat>, m: nat)
    ensures LoadsAre(costs, [], seq(m, _ => 0), m)
  {}

  lemma LoadsFollow(costs: seq<nat>, placement: seq<nat>, loads: seq<nat>, m: nat, s: nat)
    requires |placement| < |costs| && LoadsAre(costs, placement, loads, m) && s < m
    ensures LoadsAre(costs, placement + [s], loads[s := loads[s] + costs[|placement|]], m)
  {
    hide Load;
    forall shard | 0 <= shard < m
      ensures Load(costs[..|placement| + 1], placement + [s], shard) ==
              loads[shard] + if s == shard then costs[|placement|] else 0
    {
      LoadAfter(costs, placement, |placement|, s, shard);
    }
  }

  lemma LeastIsPicked(costs: seq<nat>, sizes: seq<nat>, placement: seq<nat>, m: nat, loads: seq<nat>, counts: seq<nat>,
                      heap: seq<Entry>, least: Entry)
    requires |costs| == |sizes| && |placement| < |costs|
    requires LoadsAre(costs, placement, loads, m) && LoadsAre(sizes, placement, counts, m)
    requires PickedSoFar(costs, sizes, placement, m)
    requires multiset(heap) == multiset(EntriesOf(loads, counts))
    requires least in heap && forall e :: e in heap ==> EntryLeq(least, e)
    ensures PickedSoFar(costs, sizes, placement + [least.shard], m)
  {
    var k := |placement|;
    var longer := placement + [least.shard];
    assert longer[..k] == placement;
    EntryOfShard(loads, counts, heap, least);
    forall s | 0 <= s < m
      ensures EntryAt(costs, sizes, longer, k, s) == Entry(loads[s], counts[s], s)
      ensures EntryLeq(least, Entry(loads[s], counts[s], s))
    {
      EntryOfShard(loads, counts, heap, Entry(loads[s], counts[s], s));
    }
    forall j | 0 <= j < k ensures PicksLeast(costs, sizes, longer, m, j) {
      PrefixPicksLeast(costs, sizes, placement, [least.shard], m, j);
    }
  }

  lemma CostsAt(records: seq<Record>, groups: seq<Group>, k: nat)
    requires k < |groups|
    ensures Costs(records, groups)[k] == GroupBytes(records, groups[k])
    ensures Sizes(groups)[k] == |groups[k].members|
  {}

  /** The cases of the placed groups have their group's shard. */
  predicate MembersPlaced(groups: seq<Group>, shards: seq<nat>, placement: seq<nat>)
    requires |placement| <= |groups|
  {
    forall j :: 0 <= j < |placement| ==> forall i :: i in groups[j].members ==>
        i < |shards| && shards[i] == placement[j]
  }

  /** Give every case of the next group its shard, in place. */
  method AssignMembers(records: seq<Record>, groups: seq<Group>, shardOf: array<nat>, k: nat, s: nat,
                       ghost placement: seq<nat>)
    requires MembersBelong(records, groups) && Distinct(Repositories(groups))
    requires shardOf.Length == |records| && |placement| == k < |groups| && MembersPlaced(groups, shardOf[..], placement)
    modifies shardOf
    ensures MembersPlaced(groups, shardOf[..], placement + [s])
  {
    var members := groups[k].members;
    forall j, i | 0 <= j < k && i in groups[j].members ensures i !in members {
      assert groups[j] in groups && groups[k] in groups;
      assert Repositories(groups)[j] != Repositories(groups)[k];
    }
    for n := 0 to |members|
      invariant MembersPlaced(groups, shardOf[..], placement)
      invariant forall l :: 0 <= l < n ==> members[l] < shardOf.Length && shardOf[members[l]] == s
    {
      assert groups[k] in groups && members[n] in members;
      shardOf[members[n]] := s;
    }
    forall i | i in members ensures i < shardOf.Length && shardOf[..][i] == s {
      var l :| 0 <= l < |members| && members[l] == i;
    }
  }

  lemma ConcludeShards(records: seq<Record>, m: nat, shards: seq<nat>, loads: seq<nat>, placement: seq<nat>)
    requires |shards| == |records| && |loads| == m && LongestFirst(records, placement, m)
    requires var groups := SortedGroups(records);
             && MembersPlaced(groups, shards, placement)
             && (forall s :: 0 <= s < m ==> loads[s] == Load(Costs(records, groups), placement, s))
    ensures forall i :: 0 <= i < |records| ==> shards[i] == ShardOf(records, placement)(records[i].repository) < m
    ensures forall s :: 0 <= s < m ==> loads[s] == RepositoryLoad(records, ShardOf(records, placement), s)
  {
    hide Costs, GroupBytes, RepositoryLoad, Repositories, SortedGroups, LookupShard;
    var groups := SortedGroups(records);
    SortedGroupsAreRight(records);
    forall k | 0 <= k < |groups| ensures placement[k] == ShardOf(records, placement)(groups[k].repository) < m {
      LookupIsPlacement(groups, placement, k);
      assert PicksLeast(Costs(records, groups), Sizes(groups), placement, m, k);
    }
    forall i | 0 <= i < |records| ensures shards[i] == ShardOf(records, placement)(records[i].repository) < m {
      assert InSome(groups, i);
      var g :| g in groups && i in g.members;
      var k :| 0 <= k < |groups| && groups[k] == g;
    }
    forall s | 0 <= s < m ensures loads[s] == RepositoryLoad(records, ShardOf(records, placement), s) {
      GroupLoadIsRepositoryLoad(records, ShardOf(records, placement), s, placement);
    }
  }

  /** The heap and the totals between two groups of the sharding loop. */
  ghost predicate Balanced(costs: seq<nat>, sizes: seq<nat>, placement: seq<nat>, m: nat, heap: seq<Entry>,
                           loads: seq<nat>, counts: seq<nat>)
  {
    && |costs| == |sizes| && |placement| <= |costs| && |loads| == |counts| == m
    && LoadsAre(costs, placement, loads, m)
    && LoadsAre(sizes, placement, counts, m)
    && PickedSoFar(costs, sizes, placement, m)
    && multiset(heap) == multiset(EntriesOf(loads, counts))
  }

  lemma BalancedStart(costs: seq<nat>, sizes: seq<nat>, m: nat)
    requires |costs| == |sizes|
    ensures var zeros := seq(m, _ => 0);
            Balanced(costs, sizes, [], m, EntriesOf(zeros, zeros), zeros, zeros)
  {
    LoadsStart(costs, m);
    LoadsStart(sizes, m);
  }

  /** One group: pop the least shard, add to its totals, push it back. */
  method PlaceGroup(heap: seq<Entry>, loads: seq<nat>, counts: seq<nat>, bytes: nat, size: nat, m: nat,
                    ghost costs: seq<nat>, ghost sizes: seq<nat>, ghost placement: seq<nat>)
    returns (s: nat, heap': seq<Entry>, loads': seq<nat>, counts': seq<nat>)
    requires m >= 1 && Balanced(costs, sizes, placement, m, heap, loads, counts)
    requires |placement| < |costs| && bytes == costs[|placement|] && size == sizes[|placement|]
    ensures s < m && Balanced(costs, sizes, placement + [s], m, heap', loads', counts')
  {
    hide EntriesOf, LoadsAre, PickedSoFar, EntryLeq;
    EntryOfShard(loads, counts, heap, Entry(loads[0], counts[0], 0));
    EntryLeqIsOrder();
    var least, rest := PopLeast(EntryLeq, heap);
    s := least.shard;
    EntryOfShard(loads, counts, heap, least);
    LeastIsPicked(costs, sizes, placement, m, loads, counts, heap, least);
    LoadsFollow(costs, placement, loads, m, s);
    LoadsFollow(sizes, placement, counts, m, s);
    loads' := loads[s := loads[s] + bytes];
    counts' := counts[s := counts[s] + size];
    var pushed := Entry(least.load + bytes, counts'[s], s);
    HeapFollows(heap, rest, least, loads, counts, pushed);
    heap' := rest + [pushed];
  }

  /**
   * The sharding loop: groups in order, each to the shard popped from the heap. The heap always holds
   * exactly one entry per shard with its current load and case count; every case of a group gets the
   * group's shard.
   */
  method BuildShards(records: seq<Record>, m: nat)
    returns (shards: seq<nat>, caseCounts: seq<nat>, inputBytes: seq<nat>, ghost placement: seq<nat>)
    requires m >= 1
    ensures LongestFirst(records, placement, m)
    ensures |shards| == |records| && |caseCounts| == |inputBytes| == m
    ensures forall i :: 0 <= i < |records| ==> shards[i] == ShardOf(records, placement)(records[i].repository) < m
    ensures forall s :: 0 <= s < m ==> inputBytes[s] == RepositoryLoad(records, ShardOf(records, placement), s)
    ensures forall s :: 0 <= s < m ==> caseCounts[s] == Load(Sizes(SortedGroups(records)), placement, s)
  {
    var groups := SortedGroups(records);
    SortedGroupsAreRight(records);
    ghost var costs, sizes := Costs(records, groups), Sizes(groups);
    var shardOf := new nat[|records|];
    caseCounts, inputBytes := seq(m, _ => 0), seq(m, _ => 0);
    var heap := EntriesOf(inputBytes, caseCounts);
    placement := [];
    BalancedStart(costs, sizes, m);
    assert MembersPlaced(groups, shardOf[..], placement);
    hide Costs, Sizes, SortedGroups, GroupBytes, EntriesOf, Balanced, MembersPlaced, MembersBelong, Repositories,
      Covers, Distinct;
    for k := 0 to |groups|
      invariant |placement| == k
      invariant Balanced(costs, sizes, placement, m, heap, inputBytes, caseCounts)
      invariant MembersPlaced(groups, shardOf[..], placement)
    {
      CostsAt(records, groups, k);
      var s;
      s, heap, inputBytes, caseCounts := PlaceGroup(heap, inputBytes, caseCounts, GroupBytes(records, groups[k]),
                                                    |groups[k].members|, m, costs, sizes, placement);
      AssignMembers(records, groups, shardOf, k, s, placement);
      placement := placement + [s];
    }
    shards := shardOf[..];
    BalancedEnd(records, m, heap, inputBytes, caseCounts, placement);
    ConcludeShards(records, m, shards, inputBytes, placement);
  }

  lemma BalancedEnd(records: seq<Record>, m: nat, heap: seq<Entry>, loads: seq<nat>, counts: seq<nat>,
                    placement: seq<nat>)
    requires var groups := SortedGroups(records);
             && |placement| == |groups|
             && Balanced(Costs(records, groups), Sizes(groups), placement, m, heap, loads, counts)
    ensures |loads| == |counts| == m && LongestFirst(records, placement, m)
    ensures var groups := SortedGroups(records);
            forall s :: 0 <= s < m ==>
              loads[s] == Load(Costs(records, groups), placement, s) && counts[s] == Load(Sizes(groups), placement, s)
  {
    hide SortedGroups, Load, PicksLeast;
    var groups := SortedGroups(records);
    assert Costs(records, groups)[..|groups|] == Costs(records, groups) && Sizes(groups)[..|groups|] == Sizes(groups);
  }

  // ----- the bound

  function Reals(costs: seq<nat>): (reals: seq<G.Cost>)
    ensures |reals| == |costs|
  {
    Map((c: nat) => c as real, costs)
  }

  lemma {:induction false} LoadAsReal(costs: seq<nat>, placement: seq<nat>, shard: nat)
    requires |costs| == |placement|
    ensures G.Load(Reals(costs), placement, shard) == Load(costs, placement, shard) as real
    decreases |costs|
  {
    if costs != [] {
      var n := |costs| - 1;
      LoadAsReal(costs[..n], placement[..n], shard);
      assert Reals(costs)[..n] == Reals(costs[..n]);
    }
  }

  lemma {:induction false} ProductAsReal(a: nat, b: nat)
    ensures (a * b) as real == a as real * b as real
  {
    if a > 0 {
      ProductAsReal(a - 1, b);
      assert a * b == (a - 1) * b + b;
    }
  }

  lemma RatioOfNaturals(m: nat, load: nat, limit: nat)
    requires m >= 1 && G.WithinRatio(m, load as real, limit as real)
    ensures 3 * m * load <= (4 * m - 1) * limit
  {
    ProductAsReal(3 * m, load);
    ProductAsReal(4 * m - 1, limit);
  }

  lemma LeastIsGreedy(costs: seq<nat>, sizes: seq<nat>, placement: seq<nat>, m: nat, k: nat)
    requires |costs| == |sizes| == |placement| && k < |costs| && PicksLeast(costs, sizes, placement, m, k)
    ensures G.GreedyAt(Reals(costs), placement, m, k)
  {
    assert Reals(costs)[..k] == Reals(costs[..k]);
    hide Load, Reals;
    forall s | 0 <= s < m
      ensures G.Load(Reals(costs[..k]), placement[..k], placement[k]) <= G.Load(Reals(costs[..k]), placement[..k], s)
    {
      assert EntryLeq(EntryAt(costs, sizes, placement, k, placement[k]), EntryAt(costs, sizes, placement, k, s));
      LoadAsReal(costs[..k], placement[..k], placement[k]);
      LoadAsReal(costs[..k], placement[..k], s);
    }
  }

  lemma LongestFirstIsGreedy(records: seq<Record>, placement: seq<nat>, m: nat)
    requires LongestFirst(records, placement, m)
    ensures G.Greedy(Reals(Costs(records, SortedGroups(records))), placement, m)
  {
    hide SortedGroups, Costs, Sizes;
    var groups := SortedGroups(records);
    var costs, sizes := Costs(records, groups), Sizes(groups);
    forall k | 0 <= k < |groups| ensures placement[k] < m && G.GreedyAt(Reals(costs), placement, m, k) {
      assert PicksLeast(costs, sizes, placement, m, k);
      LeastIsGreedy(costs, sizes, placement, m, k);
    }
  }

  /**
   * Shard balance. If any assignment of whole repositories keeps all `m` shards within `limit` bytes,
   * the shards built here keep within (4m - 1) / 3m times that limit; so they do for the best one.
   */
  lemma ManifestBound(records: seq<Record>, placement: seq<nat>, m: nat, other: string -> nat, limit: nat)
    requires m >= 1 && LongestFirst(records, placement, m)
    requires forall i :: 0 <= i < |records| ==> other(records[i].repository) < m
    requires forall s :: 0 <= s < m ==> RepositoryLoad(records, other, s) <= limit
    ensures forall s :: 0 <= s < m ==>
              3 * m * RepositoryLoad(records, ShardOf(records, placement), s) <= (4 * m - 1) * limit
  {
    hide SortedGroups, Costs, Sizes, RepositoryLoad, LookupShard, Repositories, PicksLeast, G.GreedyAt, G.WithinRatio,
      Reals;
    var groups := SortedGroups(records);
    var rival := Map((g: Group) => other(g.repository), groups);
    SortedGroupsAreRight(records);
    SortedGroupsDescend(records);
    LongestFirstIsGreedy(records, placement, m);
    GroupsHaveCases(records);
    forall k | 0 <= k < |groups| ensures rival[k] < m {
      assert groups[k] in groups && groups[k].members != [] && groups[k].members[0] in groups[k].members;
    }
    var costs := Costs(records, groups);
    forall s | 0 <= s < m ensures G.Load(Reals(costs), rival, s) <= limit as real {
      GroupLoadIsRepositoryLoad(records, other, s, rival);
      LoadAsReal(costs, rival, s);
    }
    G.LongestFirstBound(Reals(costs), placement, rival, m, limit as real);
    forall k | 0 <= k < |groups| ensures placement[k] == ShardOf(records, placement)(groups[k].repository) {
      LookupIsPlacement(groups, placement, k);
    }
    forall s | 0 <= s < m
      ensures 3 * m * RepositoryLoad(records, ShardOf(records, placement), s) <= (4 * m - 1) * limit
    {
      GroupLoadIsRepositoryLoad(records, ShardOf(records, placement), s, placement);
      LoadAsReal(costs, placement, s);
      RatioOfNaturals(m, Load(costs, placement, s), limit);
    }
  }

  lemma {:induction false} GroupedHaveCases(groups: seq<Group>, repository: string, i: nat)
    requires forall g :: g in groups ==> g.members != []
    ensures forall g :: g in Grouped(groups, repository, i) ==> g.members != []
  {
    if groups != [] && groups[0].repository != repository {
      GroupedHaveCases(groups[1..], repository, i);
    }
  }

  lemma {:induction false} GroupsOfHaveCases(records: seq<Record>, n: nat)
    requires n <= |records|
    ensures forall g :: g in GroupsOf(records, n) ==> g.members != []
  {
    if n > 0 {
      GroupsOfHaveCases(records, n - 1);
      GroupedHaveCases(GroupsOf(records, n - 1), records[n - 1].repository, n - 1);
    }
  }

  lemma GroupsHaveCases(records: seq<Record>)
    ensures forall g :: g in SortedGroups(records) ==> g.members != []
  {
    GroupsOfHaveCases(records, |records|);
    SortKeepsMembers((a: Group, b: Group) => GroupBefore(records, a, b), GroupsOf(records, |records|));
  }
}
