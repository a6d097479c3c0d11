/** What the sharding of a manifest says about cases, repositories and ties. */
module ShardProperties {
  import opened Sequences
  import opened Sorting
  import opened Text
  import opened ManifestShards

  // ----- the size of a repository

  /** The bytes of all cases of a repository. */
  function RepositoryBytes(records: seq<Record>, repository: string): nat {
    if records == [] then 0
    else
      var last := records[|records| - 1];
      RepositoryBytes(records[..|records| - 1], repository) + if last.repository == repository then last.bytes else 0
  }

  function Chosen(repository: string): string -> nat {
    (name: string) => if name == repository then 1 else 0
  }

  lemma {:induction false} BytesAreLoad(records: seq<Record>, repository: string)
    ensures RepositoryBytes(records, repository) == RepositoryLoad(records, Chosen(repository), 1)
  {
    if records != [] {
      BytesAreLoad(records[..|records| - 1], repository);
    }
  }

  /** Of several groups with different repositories only the chosen one contributes. */
  lemma {:induction false} OneContributes(records: seq<Record>, groups: seq<Group>, k: nat)
    requires k < |groups| && Distinct(Repositories(groups))
    ensures Sum(Contributions(records, Chosen(groups[k].repository), 1, groups)) == GroupBytes(records, groups[k])
  {
    hide GroupBytes, Contributions, Sum;
    var chosen := Chosen(groups[k].repository);
    assert groups == groups[..k] + ([groups[k]] + groups[k + 1..]);
    ContributionsSplit(records, chosen, 1, groups[..k], [groups[k]] + groups[k + 1..]);
    ContributionsSplit(records, chosen, 1, [groups[k]], groups[k + 1..]);
    ContributionOfOne(records, chosen, 1, groups[k]);
    forall j | 0 <= j < |groups| && j != k ensures groups[j].repository != groups[k].repository {
      assert Repositories(groups)[j] != Repositories(groups)[k];
    }
    OthersGiveNothing(records, groups[..k], groups[k].repository);
    OthersGiveNothing(records, groups[k + 1..], groups[k].repository);
  }

  lemma {:induction false} OthersGiveNothing(records: seq<Record>, groups: seq<Group>, repository: string)
    requires forall j :: 0 <= j < |groups| ==> groups[j].repository != repository
    ensures Sum(Contributions(records, Chosen(repository), 1, groups)) == 0
  {
    hide GroupBytes, Contributions, Sum;
    if groups == [] {
      NoContributions(records, Chosen(repository), 1);
    } else {
      assert groups == [groups[0]] + groups[1..];
      ContributionsSplit(records, Chosen(repository), 1, [groups[0]], groups[1..]);
      ContributionOfOne(records, Chosen(repository), 1, groups[0]);
      OthersGiveNothing(records, groups[1..], repository);
    }
  }

  /** A group weighs what its repository's cases weigh. */
  lemma GroupIsRepository(records: seq<Record>, k: nat)
    requires k < |SortedGroups(records)|
    ensures var group := SortedGroups(records)[k];
            GroupBytes(records, group) == RepositoryBytes(records, group.repository)
  {
    hide GroupBytes, Contributions, Sum, SortedGroups, RepositoryLoad, GroupBefore;
    var groups := SortedGroups(records);
    var chosen := Chosen(groups[k].repository);
    SortedGroupsAreRight(records);
    OneContributes(records, groups, k);
    SortedIsPermuted(records);
    ContributionsPermute(records, chosen, 1, groups, GroupsOf(records, |records|));
    GroupsCarryLoad(records, chosen, 1, |records|);
    assert records[..|records|] == records;
    BytesAreLoad(records, groups[k].repository);
  }

  lemma SortedIsPermuted(records: seq<Record>)
    ensures multiset(SortedGroups(records)) == multiset(GroupsOf(records, |records|))
  {}

  // ----- the order of the repositories, and the choice of a shard

  /** Heavier repositories come first, and of two equally heavy ones the one whose name comes first. */
  lemma RepositoriesInOrder(records: seq<Record>, i: nat, j: nat)
    requires i < j < |SortedGroups(records)|
    ensures var a, b := SortedGroups(records)[i].repository, SortedGroups(records)[j].repository;
            && RepositoryBytes(records, a) >= RepositoryBytes(records, b)
            && (RepositoryBytes(records, a) == RepositoryBytes(records, b) ==> LexLeq(a, b) && a != b)
  {
    hide GroupBytes, LexLeq, Distinct;
    GroupIsRepository(records, i);
    GroupIsRepository(records, j);
    GroupBeforeIsOrder(records);
    var before := (a: Group, b: Group) => GroupBefore(records, a, b);
    SortSorts(before, GroupsOf(records, |records|));
    assert before(SortedGroups(records)[i], SortedGroups(records)[j]);
    SortedGroupsAreRight(records);
    NamesDiffer(SortedGroups(records), i, j);
  }

  lemma NamesDiffer(groups: seq<Group>, i: nat, j: nat)
    requires i < j < |groups| && Distinct(Repositories(groups))
    ensures groups[i].repository != groups[j].repository
  {
    assert Repositories(groups)[i] != Repositories(groups)[j];
  }

  /**
   * The `k`-th repository goes to the shard with the fewest bytes so far; of several such shards to the
   * one with the fewest cases so far, and of several of those to the first.
   */
  lemma ShardIsLeast(records: seq<Record>, placement: seq<nat>, m: nat, k: nat, s: nat)
    requires LongestFirst(records, placement, m) && k < |placement| && s < m
    ensures var groups := SortedGroups(records);
            var bytes, cases := Costs(records, groups)[..k], Sizes(groups)[..k];
            var mine, other := Load(bytes, placement[..k], placement[k]), Load(bytes, placement[..k], s);
            var few, many := Load(cases, placement[..k], placement[k]), Load(cases, placement[..k], s);
            && mine <= other
            && (mine == other ==> few <= many)
            && (mine == other && few == many ==> placement[k] <= s)
  {
    hide SortedGroups, Costs, Sizes, Load;
    var groups := SortedGroups(records);
    assert PicksLeast(Costs(records, groups), Sizes(groups), placement, m, k);
    assert EntryLeq(EntryAt(Costs(records, groups), Sizes(groups), placement, k, placement[k]),
                    EntryAt(Costs(records, groups), Sizes(groups), placement, k, s));
  }

  // ----- case counts

  /** The same cases, each weighing one. */
  function Ones(records: seq<Record>): (ones: seq<Record>)
    ensures |ones| == |records|
  {
    Map((r: Record) => r.(bytes := 1), records)
  }

  /** How many of the first cases of a manifest are on a shard. */
  function CasesOn(shards: seq<nat>, s: nat): nat {
    if shards == [] then 0 else CasesOn(shards[..|shards| - 1], s) + if shards[|shards| - 1] == s then 1 else 0
  }

  lemma {:induction false} SameGroups(records: seq<Record>, n: nat)
    requires n <= |records|
    ensures GroupsOf(Ones(records), n) == GroupsOf(records, n)
  {
    if n > 0 {
      SameGroups(records, n - 1);
    }
  }

  lemma {:induction false} OnesAreCounted(records: seq<Record>, members: seq<nat>)
    requires forall i :: i in members ==> i < |records|
    ensures Sum(Map((i: nat) => RecordBytes(Ones(records), i), members)) == |members|
  {
    var f := (i: nat) => RecordBytes(Ones(records), i);
    if members != [] {
      var n := |members| - 1;
      assert members == members[..n] + [members[n]];
      assert forall i :: i in members[..n] ==> i in members;
      OnesAreCounted(records, members[..n]);
      assert Map(f, members)[..n] == Map(f, members[..n]);
      assert members[n] in members;
    }
  }

  lemma SizesAreOnes(records: seq<Record>, groups: seq<Group>)
    requires MembersBelong(records, groups)
    ensures Costs(Ones(records), groups) == Sizes(groups)
  {
    forall k | 0 <= k < |groups| ensures Costs(Ones(records), groups)[k] == Sizes(groups)[k] {
      assert groups[k] in groups;
      OnesAreCounted(records, groups[k].members);
    }
  }

  lemma {:induction false} LoadOfOnes(records: seq<Record>, shardOf: string -> nat, shards: seq<nat>, s: nat)
    requires |shards| == |records| && forall i :: 0 <= i < |records| ==> shards[i] == shardOf(records[i].repository)
    ensures RepositoryLoad(Ones(records), shardOf, s) == CasesOn(shards, s)
  {
    if records != [] {
      var n := |records| - 1;
      LoadOfOnes(records[..n], shardOf, shards[..n], s);
      assert Ones(records)[..n] == Ones(records[..n]);
    }
  }

  /** The reported case count of a shard is the number of cases that were given to it. */
  lemma CountsAreCases(records: seq<Record>, placement: seq<nat>, m: nat, shards: seq<nat>, s: nat)
    requires LongestFirst(records, placement, m) && |shards| == |records|
    requires forall i :: 0 <= i < |records| ==> shards[i] == ShardOf(records, placement)(records[i].repository)
    ensures Load(Sizes(SortedGroups(records)), placement, s) == CasesOn(shards, s)
  {
    hide SortedGroups, Costs, Sizes, Load, LookupShard, Contributions, Ones, RepositoryLoad, GroupsOf, PicksLeast;
    var groups, ones, shardOf := SortedGroups(records), Ones(records), ShardOf(records, placement);
    SortedGroupsAreRight(records);
    SizesAreOnes(records, groups);
    forall k | 0 <= k < |groups| ensures placement[k] == shardOf(groups[k].repository) {
      LookupIsPlacement(groups, placement, k);
    }
    LoadIsContributions(ones, shardOf, s, groups, placement);
    SortedIsPermuted(records);
    SameGroups(records, |records|);
    ContributionsPermute(ones, shardOf, s, groups, GroupsOf(ones, |ones|));
    GroupsCarryLoad(ones, shardOf, s, |ones|);
    assert ones[..|ones|] == ones;
    LoadOfOnes(records, shardOf, shards, s);
  }
}
