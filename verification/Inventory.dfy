/** The publication inventory: a depth-first order of local packages, dependencies first. */
module Inventory {
  import opened Wrappers
  import opened Sequences
  import opened Sorting
  import opened Text

  /** A resolved path, as its components. */
  type Path = seq<string>

  datatype Dependency = Dependency(name: string, kind: Option<string>, path: Option<Path>, req: Option<string>) {
    /** Development dependencies and registry dependencies are not publication edges. */
    predicate Counts() { kind != Some("dev") && path.Some? }
  }

  datatype Package = Package(
    name: string, source: Option<string>, version: string, manifest: Path, publish: Option<seq<string>>,
    dependencies: seq<Dependency>)

  datatype Entry = Entry(package: string, version: string, manifest: Path, localDependencies: seq<string>)

  datatype Fault =
    | Cycle(name: string)
    | Missing(name: string)
    | Prototype(name: string)
    | Outside(name: string)
    | Unpublishable(name: string)
    | Unresolved(name: string, dependency: Dependency)
    | Unversioned(name: string, dependency: Dependency)

  // ----- the order of names

  function ByName(): (string, string) -> bool {
    (a: string, b: string) => LexLeq(a, b)
  }

  lemma ByNameIsPreorder()
    ensures TotalPreorder(ByName())
  {
    forall a, b ensures ByName()(a, b) || ByName()(b, a) {
      LexTotal(a, b);
    }
    forall a, b, c | ByName()(a, b) && ByName()(b, c) ensures ByName()(a, c) {
      LexTransitive(a, b, c);
    }
  }

  // ----- the workspace and its edges

  function Parent(path: Path): Path {
    if path == [] then [] else path[..|path| - 1]
  }

  /** The local packages by name; of two with one name the later counts. */
  function LocalPackages(items: seq<Package>): map<string, Package> {
    if items == [] then map[]
    else
      var last, before := items[|items| - 1], LocalPackages(items[..|items| - 1]);
      if last.source.None? then before[last.name := last] else before
  }

  /** The names of the local packages in the order in which they first appear. */
  function LocalNames(items: seq<Package>): seq<string> {
    FirstOccurrences(Map((item: Package) => item.name, Filter(items, (item: Package) => item.source.None?)))
  }

  /** The package of every directory; of two in one directory the later counts. */
  function Directories(packages: map<string, Package>, names: seq<string>): map<Path, string> {
    if names == [] then map[]
    else
      var last, before := names[|names| - 1], Directories(packages, names[..|names| - 1]);
      if last in packages then before[Parent(packages[last].manifest) := last] else before
  }

  predicate PartAt(s: string, part: string, i: nat) {
    i + |part| <= |s| && s[i..i + |part|] == part
  }

  predicate HasSubstring(s: string, part: string) {
    exists i :: 0 <= i <= |s| && PartAt(s, part, i)
  }

  datatype Workspace = Workspace(packages: map<string, Package>, paths: map<Path, string>, root: Path) {

    /** The local dependency resolves to the package it names, and names a registry version. */
    predicate Resolves(d: Dependency) {
      d.Counts() ==> d.path.value in paths && paths[d.path.value] == d.name
    }

    predicate Versioned(d: Dependency) {
      d.Counts() ==> d.req.Some? && d.req.value != "*"
    }

    predicate CanPublish(item: Package) {
      item.publish.Some? ==> "crates-io" in item.publish.value
    }

    /** Every check of a single package. */
    predicate Passes(name: string) {
      && name in packages
      && !HasSubstring(name, "prototype")
      && root <= packages[name].manifest
      && CanPublish(packages[name])
      && forall k :: 0 <= k < |packages[name].dependencies| ==>
           Resolves(packages[name].dependencies[k]) && Versioned(packages[name].dependencies[k])
    }

    predicate Targets(d: Dependency, b: string) {
      d.Counts() && d.path.value in paths && paths[d.path.value] == b
    }

    /** `b` is a local publication dependency of `a`. */
    predicate Edge(a: string, b: string) {
      a in packages && exists d :: d in packages[a].dependencies && Targets(d, b)
    }

    predicate Walk(p: seq<string>) {
      p != [] && forall i :: 0 <= i < |p| - 1 ==> Edge(p[i], p[i + 1])
    }

    ghost predicate Reachable(roots: seq<string>, name: string) {
      exists p :: Walk(p) && p[0] in roots && p[|p| - 1] == name
    }

    ghost predicate OnCycle(name: string) {
      exists p :: Walk(p) && |p| > 1 && p[0] == name && p[|p| - 1] == name
    }

    /** What the reported fault says is so, of a package that the roots reach. */
    ghost predicate Justifies(roots: seq<string>, fault: Fault) {
      Reachable(roots, fault.name) &&
      match fault
      case Cycle(name) => OnCycle(name)
      case Missing(name) => name !in packages
      case Prototype(name) => name in packages && HasSubstring(name, "prototype")
      case Outside(name) =>
        name in packages && !HasSubstring(name, "prototype") && !(root <= packages[name].manifest)
      case Unpublishable(name) =>
        && name in packages && !HasSubstring(name, "prototype") && root <= packages[name].manifest
        && !CanPublish(packages[name])
      case Unresolved(name, d) =>
        Publishable(name) && FirstBad(packages[name], d) && !Resolves(d)
      case Unversioned(name, d) =>
        Publishable(name) && FirstBad(packages[name], d) && Resolves(d) && !Versioned(d)
    }

    /** The checks that come before those of the dependencies. */
    predicate Publishable(name: string) {
      && name in packages && !HasSubstring(name, "prototype") && root <= packages[name].manifest
      && CanPublish(packages[name])
    }

    predicate GoodDependency(d: Dependency) {
      Resolves(d) && Versioned(d)
    }

    /** The first dependency of the package that fails a check. */
    predicate FirstBad(item: Package, d: Dependency) {
      exists k :: 0 <= k < |item.dependencies| && item.dependencies[k] == d && !GoodDependency(d)
        && forall j :: 0 <= j < k ==> GoodDependency(item.dependencies[j])
    }

    ghost predicate AllPass(roots: seq<string>) {
      forall name :: Reachable(roots, name) ==> Passes(name)
    }

    ghost predicate Acyclic(roots: seq<string>) {
      forall name :: Reachable(roots, name) ==> !OnCycle(name)
    }

    /** The entry of a package names its edges, sorted, each once. */
    predicate IsEntry(entry: Entry) {
      && entry.package in packages
      && var item := packages[entry.package];
         && root <= item.manifest
         && entry.version == item.version
         && entry.manifest == item.manifest[|root|..]
         && Distinct(entry.localDependencies)
         && SortedBy(ByName(), entry.localDependencies)
    }

    ghost predicate ListsEdges(entry: Entry) {
      forall b :: b in entry.localDependencies <==> Edge(entry.package, b)
    }
  }

  function NameOf(entry: Entry): string { entry.package }

  function Names(entries: seq<Entry>): seq<string> {
    Map(NameOf, entries)
  }

  /** Every listed package is listed once, passes, is reachable, and comes after all its dependencies. */
  ghost predicate Settled(w: Workspace, roots: seq<string>, ordered: seq<Entry>) {
    && Distinct(Names(ordered))
    && (forall i :: 0 <= i < |ordered| ==>
          && w.IsEntry(ordered[i]) && w.ListsEdges(ordered[i])
          && w.Passes(ordered[i].package) && w.Reachable(roots, ordered[i].package))
    && (forall i, b :: 0 <= i < |ordered| && b in ordered[i].localDependencies ==> b in Names(ordered[..i]))
  }

  // ----- the order of the list

  /** What the list says a package depends on. */
  function ListedDependencies(ordered: seq<Entry>, name: string): seq<string> {
    match Find(ordered, (e: Entry) => e.package == name)
    case Some(entry) => entry.localDependencies
    case None => []
  }

  /**
   * The names in the order of the plain recursion, which forgets what it has visited: for each name its
   * dependencies in their order, then the name itself, down to the given depth.
   */
  function PlainOrder(ordered: seq<Entry>, names: seq<string>, depth: nat): seq<string>
    decreases depth, |names|
  {
    if names == [] then []
    else
      var last := names[|names| - 1];
      PlainOrder(ordered, names[..|names| - 1], depth)
      + if depth == 0 then [] else PlainOrder(ordered, ListedDependencies(ordered, last), depth - 1) + [last]
  }

  /** The list is the plain order of the names with every repetition left out, behind what was listed before. */
  ghost predicate ListsInOrder(before: seq<string>, ordered: seq<Entry>, names: seq<string>) {
    forall depth: nat :: depth >= |ordered| ==>
      FirstOccurrences(before + PlainOrder(ordered, names, depth)) == Names(ordered)
  }

  lemma {:induction false} ListedEntry(ordered: seq<Entry>, i: nat)
    requires i < |ordered| && Distinct(Names(ordered))
    ensures ListedDependencies(ordered, ordered[i].package) == ordered[i].localDependencies
  {
    forall j | 0 <= j < i ensures ordered[j].package != ordered[i].package {
      assert Names(ordered)[j] != Names(ordered)[i];
    }
    FindIsFirst(ordered, (e: Entry) => e.package == ordered[i].package, i);
  }

  /** More entries do not change what is listed. */
  lemma ListedStays(ordered: seq<Entry>, more: seq<Entry>, name: string)
    requires name in Names(ordered) && Distinct(Names(ordered + more))
    ensures ListedDependencies(ordered + more, name) == ListedDependencies(ordered, name)
  {
    var i :| 0 <= i < |ordered| && Names(ordered)[i] == name;
    assert Names(ordered + more) == Names(ordered) + Names(more);
    forall j, k | 0 <= j < k < |ordered| ensures Names(ordered)[j] != Names(ordered)[k] {
      assert Names(ordered + more)[j] == Names(ordered)[j] && Names(ordered + more)[k] == Names(ordered)[k];
    }
    ListedEntry(ordered, i);
    ListedEntry(ordered + more, i);
    assert (ordered + more)[i] == ordered[i];
  }

  /** Dependencies of listed packages are listed. */
  ghost predicate Closed(ordered: seq<Entry>) {
    forall name :: name in Names(ordered) ==> AllListed(ordered, ListedDependencies(ordered, name))
  }

  predicate AllListed(ordered: seq<Entry>, names: seq<string>) {
    forall name :: name in names ==> name in Names(ordered)
  }

  lemma SettledIsClosed(w: Workspace, roots: seq<string>, ordered: seq<Entry>)
    requires Settled(w, roots, ordered)
    ensures Closed(ordered)
  {
    hide Workspace.Passes, Workspace.Reachable, Workspace.IsEntry, Workspace.ListsEdges;
    forall name | name in Names(ordered) ensures AllListed(ordered, ListedDependencies(ordered, name)) {
      var i :| 0 <= i < |ordered| && Names(ordered)[i] == name;
      ListedEntry(ordered, i);
      forall b | b in ordered[i].localDependencies ensures b in Names(ordered) {
        assert b in Names(ordered[..i]);
        var j :| 0 <= j < i && Names(ordered[..i])[j] == b;
        assert Names(ordered)[j] == b;
      }
    }
  }

  lemma {:induction false} PlainStays(ordered: seq<Entry>, more: seq<Entry>, names: seq<string>, depth: nat)
    requires Distinct(Names(ordered + more)) && Closed(ordered) && AllListed(ordered, names)
    ensures PlainOrder(ordered + more, names, depth) == PlainOrder(ordered, names, depth)
    decreases depth, |names|
  {
    hide ListedDependencies, Distinct, Names;
    if names != [] {
      var n := |names| - 1;
      assert names[n] in names && forall x :: x in names[..n] ==> x in names;
      PlainStays(ordered, more, names[..n], depth);
      if depth > 0 {
        ListedStays(ordered, more, names[n]);
        PlainStays(ordered, more, ListedDependencies(ordered, names[n]), depth - 1);
      }
    }
  }

  lemma ListedTogether(ordered: seq<Entry>, a: seq<string>, b: seq<string>)
    requires AllListed(ordered, a) && AllListed(ordered, b)
    ensures AllListed(ordered, a + b)
  {}

  lemma PartsAreListed(ordered: seq<Entry>, names: seq<string>)
    requires Closed(ordered) && AllListed(ordered, names) && names != []
    ensures var n := |names| - 1;
            && AllListed(ordered, names[..n]) && AllListed(ordered, [names[n]])
            && AllListed(ordered, ListedDependencies(ordered, names[n]))
  {
    hide ListedDependencies, Names;
    var n := |names| - 1;
    assert names == names[..n] + [names[n]];
    assert names[n] in names;
  }

  lemma PlainStep(ordered: seq<Entry>, names: seq<string>, depth: nat)
    requires names != []
    ensures var n := |names| - 1;
            PlainOrder(ordered, names, depth) ==
            PlainOrder(ordered, names[..n], depth)
            + if depth == 0 then []
              else PlainOrder(ordered, ListedDependencies(ordered, names[n]), depth - 1) + [names[n]]
  {
    hide ListedDependencies;
  }

  lemma {:induction false} PlainIsListed(ordered: seq<Entry>, names: seq<string>, depth: nat)
    requires Closed(ordered) && AllListed(ordered, names)
    ensures AllListed(ordered, PlainOrder(ordered, names, depth))
    decreases depth, |names|
  {
    hide ListedDependencies, Names, AllListed, Closed, PlainOrder;
    if names == [] {
      NothingIsPlain(ordered, depth);
    } else {
      var n := |names| - 1;
      PartsAreListed(ordered, names);
      PlainStep(ordered, names, depth);
      PlainIsListed(ordered, names[..n], depth);
      var before := PlainOrder(ordered, names[..n], depth);
      if depth > 0 {
        var inner := PlainOrder(ordered, ListedDependencies(ordered, names[n]), depth - 1);
        PlainIsListed(ordered, ListedDependencies(ordered, names[n]), depth - 1);
        ListedTogether(ordered, inner, [names[n]]);
        ListedTogether(ordered, before, inner + [names[n]]);
      } else {
        assert before + [] == before;
      }
    }
  }

  lemma NothingIsPlain(ordered: seq<Entry>, depth: nat)
    ensures PlainOrder(ordered, [], depth) == [] && AllListed(ordered, [])
  {}

  lemma PlainSnoc(ordered: seq<Entry>, names: seq<string>, name: string, depth: nat)
    ensures PlainOrder(ordered, names + [name], depth) ==
            PlainOrder(ordered, names, depth) + PlainOrder(ordered, [name], depth)
  {
    assert (names + [name])[..|names|] == names && [name][..0] == [];
    assert PlainOrder(ordered, [], depth) == [];
  }

  /** A name that is listed already adds nothing. */
  lemma ListedAddsNothing(w: Workspace, roots: seq<string>, ordered: seq<Entry>, name: string)
    requires Settled(w, roots, ordered) && name in Names(ordered)
    ensures ListsInOrder(Names(ordered), ordered, [name])
  {
    SettledIsClosed(w, roots, ordered);
    assert Distinct(Names(ordered));
    hide Settled, PlainOrder, Names, Closed;
    forall depth: nat | depth >= |ordered|
      ensures FirstOccurrences(Names(ordered) + PlainOrder(ordered, [name], depth)) == Names(ordered)
    {
      PlainIsListed(ordered, [name], depth);
      NothingNewOccurs(Names(ordered), PlainOrder(ordered, [name], depth));
    }
  }

  lemma OrderGrowsAt(before: seq<string>, ordered: seq<Entry>, more: seq<Entry>, names: seq<string>, name: string,
                     depth: nat)
    requires Distinct(Names(ordered + more)) && Closed(ordered) && AllListed(ordered, names)
    requires FirstOccurrences(before + PlainOrder(ordered, names, depth)) == Names(ordered)
    requires FirstOccurrences(Names(ordered) + PlainOrder(ordered + more, [name], depth)) == Names(ordered + more)
    ensures FirstOccurrences(before + PlainOrder(ordered + more, names + [name], depth)) == Names(ordered + more)
  {
    hide PlainOrder, Names, Closed, AllListed, FirstOccurrences, Distinct;
    PlainSnoc(ordered + more, names, name, depth);
    PlainStays(ordered, more, names, depth);
    var first, second := PlainOrder(ordered, names, depth), PlainOrder(ordered + more, [name], depth);
    assert before + (first + second) == (before + first) + second;
    FirstOccurrencesAppend(before + first, second);
  }

  /** Visiting one more name after some others. */
  lemma OrderGrows(w: Workspace, roots: seq<string>, before: seq<string>, ordered: seq<Entry>, more: seq<Entry>,
                   names: seq<string>, name: string)
    requires Settled(w, roots, ordered) && Settled(w, roots, ordered + more) && AllListed(ordered, names)
    requires ListsInOrder(before, ordered, names) && ListsInOrder(Names(ordered), ordered + more, [name])
    ensures ListsInOrder(before, ordered + more, names + [name])
  {
    hide PlainOrder, Names, Closed, AllListed, FirstOccurrences, Distinct, Workspace.Passes, Workspace.Reachable,
      Workspace.IsEntry, Workspace.ListsEdges;
    SettledIsClosed(w, roots, ordered);
    forall depth: nat | depth >= |ordered + more|
      ensures FirstOccurrences(before + PlainOrder(ordered + more, names + [name], depth)) == Names(ordered + more)
    {
      OrderGrowsAt(before, ordered, more, names, name, depth);
    }
  }

  lemma OrderCompletesAt(before: seq<string>, ordered: seq<Entry>, entry: Entry, depth: nat)
    requires Distinct(Names(ordered + [entry])) && Closed(ordered) && AllListed(ordered, entry.localDependencies)
    requires depth > 0 && FirstOccurrences(before + PlainOrder(ordered, entry.localDependencies, depth - 1)) ==
             Names(ordered)
    ensures FirstOccurrences(before + PlainOrder(ordered + [entry], [entry.package], depth)) == Names(ordered + [entry])
  {
    hide ListedDependencies, PlainOrder, Closed, AllListed, FirstOccurrences;
    var longer := ordered + [entry];
    ListedEntry(longer, |ordered|);
    NamesSnoc(ordered, entry);
    LastIsNew(Names(ordered), entry.package);
    hide Names, Distinct;
    PlainOfOne(longer, entry.package, depth);
    PlainStays(ordered, [entry], entry.localDependencies, depth - 1);
    var inner := PlainOrder(ordered, entry.localDependencies, depth - 1);
    assert before + (inner + [entry.package]) == (before + inner) + [entry.package];
    FirstOccurrencesGrow(before + inner, entry.package);
  }

  /** Listing a name behind its dependencies. */
  lemma OrderCompletes(w: Workspace, roots: seq<string>, before: seq<string>, ordered: seq<Entry>, entry: Entry)
    requires Settled(w, roots, ordered) && Settled(w, roots, ordered + [entry])
    requires AllListed(ordered, entry.localDependencies) && ListsInOrder(before, ordered, entry.localDependencies)
    ensures ListsInOrder(before, ordered + [entry], [entry.package])
  {
    hide PlainOrder, Names, Closed, AllListed, FirstOccurrences, Distinct, Workspace.Passes, Workspace.Reachable,
      Workspace.IsEntry, Workspace.ListsEdges;
    SettledIsClosed(w, roots, ordered);
    forall depth: nat | depth >= |ordered + [entry]|
      ensures FirstOccurrences(before + PlainOrder(ordered + [entry], [entry.package], depth)) ==
              Names(ordered + [entry])
    {
      OrderCompletesAt(before, ordered, entry, depth);
    }
  }

  lemma NamesSnoc(ordered: seq<Entry>, entry: Entry)
    ensures Names(ordered + [entry]) == Names(ordered) + [entry.package]
  {}

  lemma LastIsNew(names: seq<string>, name: string)
    requires Distinct(names + [name])
    ensures name !in names
  {
    assert (names + [name])[|names|] == name;
    assert forall k :: 0 <= k < |names| ==> (names + [name])[k] == names[k];
  }

  lemma PlainOfOne(ordered: seq<Entry>, name: string, depth: nat)
    requires depth > 0
    ensures PlainOrder(ordered, [name], depth) ==
            PlainOrder(ordered, ListedDependencies(ordered, name), depth - 1) + [name]
  {
    assert [name][..0] == [] && PlainOrder(ordered, [], depth) == [];
  }

  lemma NothingInOrder(w: Workspace, roots: seq<string>, ordered: seq<Entry>)
    requires Settled(w, roots, ordered)
    ensures ListsInOrder(Names(ordered), ordered, [])
  {
    assert Distinct(Names(ordered));
    DistinctIsKept(Names(ordered));
    assert Names(ordered) + [] == Names(ordered);
    assert forall depth: nat :: PlainOrder(ordered, [], depth) == [];
  }

  // ----- the stack of a visit

  /** The names being visited, outermost first. */
  ghost predicate IsStack(w: Workspace, roots: seq<string>, stack: seq<string>, visiting: set<string>) {
    && (stack != [] ==> w.Walk(stack) && stack[0] in roots)
    && (forall name :: name in visiting <==> name in stack)
  }

  /** `name` is a root, or a dependency of the innermost name being visited. */
  ghost predicate Follows(w: Workspace, roots: seq<string>, stack: seq<string>, name: string) {
    if stack == [] then name in roots else w.Edge(stack[|stack| - 1], name)
  }

  lemma FollowingIsReachable(w: Workspace, roots: seq<string>, stack: seq<string>, visiting: set<string>, name: string)
    requires IsStack(w, roots, stack, visiting) && Follows(w, roots, stack, name)
    ensures w.Reachable(roots, name)
    ensures w.Walk(stack + [name]) && (stack + [name])[0] in roots
    ensures name in visiting ==> w.OnCycle(name)
  {
    var p := stack + [name];
    forall i | 0 <= i < |p| - 1 ensures w.Edge(p[i], p[i + 1]) {
      if i < |stack| - 1 {
        assert w.Edge(stack[i], stack[i + 1]);
      }
    }
    assert w.Walk(p) && p[|p| - 1] == name;
    if name in visiting {
      var j :| 0 <= j < |stack| && stack[j] == name;
      var cycle := p[j..];
      assert cycle[0] == name && cycle[|cycle| - 1] == name && |cycle| > 1;
      forall i | 0 <= i < |cycle| - 1 ensures w.Edge(cycle[i], cycle[i + 1]) {
        assert w.Edge(p[j + i], p[j + i + 1]);
      }
    }
  }

  // ----- the dependencies of one package

  predicate IsDependencyFault(w: Workspace, item: Package, fault: Fault) {
    match fault
    case Unresolved(_, d) => w.FirstBad(item, d) && !w.Resolves(d)
    case Unversioned(_, d) => w.FirstBad(item, d) && w.Resolves(d) && !w.Versioned(d)
    case _ => false
  }

  /** The dependency loop of `visit`: the local targets, each once, or the first fault. */
  method CollectDependencies(w: Workspace, name: string, item: Package) returns (r: Result<seq<string>, Fault>)
    requires name in w.packages && w.packages[name] == item
    ensures r.Ok? ==> Distinct(r.value) && forall b :: b in r.value <==> w.Edge(name, b)
    ensures r.Ok? ==> forall k :: 0 <= k < |item.dependencies| ==>
                        w.Resolves(item.dependencies[k]) && w.Versioned(item.dependencies[k])
    ensures r.Err? ==> r.error.name == name && IsDependencyFault(w, item, r.error)
  {
    var targets: seq<string> := [];
    for k := 0 to |item.dependencies|
      invariant Distinct(targets)
      invariant forall b :: b in targets <==> exists j :: 0 <= j < k && w.Targets(item.dependencies[j], b)
      invariant forall j :: 0 <= j < k ==> w.Resolves(item.dependencies[j]) && w.Versioned(item.dependencies[j])
      invariant forall j :: 0 <= j < k ==> w.GoodDependency(item.dependencies[j])
    {
      var d := item.dependencies[k];
      if d.Counts() {
        if d.path.value !in w.paths || w.paths[d.path.value] != d.name {
          assert !w.GoodDependency(item.dependencies[k]);
          return Err(Unresolved(name, d));
        }
        if d.req.None? || d.req.value == "*" {
          assert !w.GoodDependency(item.dependencies[k]);
          return Err(Unversioned(name, d));
        }
        var target := w.paths[d.path.value];
        assert w.Targets(d, target);
        if target !in targets {
          targets := targets + [target];
        }
      }
    }
    forall b ensures b in targets <==> w.Edge(name, b) {
      if w.Edge(name, b) {
        var d :| d in item.dependencies && w.Targets(d, b);
        var k :| 0 <= k < |item.dependencies| && item.dependencies[k] == d;
        assert w.Targets(item.dependencies[k], b);
      }
    }
    r := Ok(targets);
  }

  // ----- the walk

  lemma SettledGrows(w: Workspace, roots: seq<string>, ordered: seq<Entry>, entry: Entry)
    requires Settled(w, roots, ordered) && entry.package !in Names(ordered)
    requires w.IsEntry(entry) && w.ListsEdges(entry) && w.Passes(entry.package) && w.Reachable(roots, entry.package)
    requires forall b :: b in entry.localDependencies ==> b in Names(ordered)
    ensures Settled(w, roots, ordered + [entry])
    ensures Names(ordered + [entry]) == Names(ordered) + [entry.package]
  {
    var more := ordered + [entry];
    assert Names(more) == Names(ordered) + [entry.package];
    hide Workspace.Passes, Workspace.Reachable, Workspace.IsEntry, Workspace.ListsEdges;
    forall i, b | 0 <= i < |more| && b in more[i].localDependencies ensures b in Names(more[..i]) {
      if i < |ordered| {
        assert more[..i] == ordered[..i];
      } else {
        assert more[..i] == ordered;
      }
    }
  }

  /** The checks of one package in their order, then its dependencies, sorted. */
  method CheckPackage(w: Workspace, name: string, ghost roots: seq<string>) returns (r: Result<seq<string>, Fault>)
    requires w.Reachable(roots, name)
    ensures r.Err? ==> w.Justifies(roots, r.error)
    ensures r.Ok? ==> w.Passes(name) && Distinct(r.value) && SortedBy(ByName(), r.value)
    ensures r.Ok? ==> forall b :: b in r.value <==> w.Edge(name, b)
  {
    hide Workspace.Edge, Workspace.Reachable, Workspace.OnCycle, HasSubstring, Workspace.Resolves, Workspace.Versioned,
      SortedBy, Distinct, Workspace.FirstBad;
    if name !in w.packages {
      return Err(Missing(name));
    }
    if HasSubstring(name, "prototype") {
      return Err(Prototype(name));
    }
    var item := w.packages[name];
    if !(w.root <= item.manifest) {
      return Err(Outside(name));
    }
    if item.publish.Some? && "crates-io" !in item.publish.value {
      return Err(Unpublishable(name));
    }
    var found := CollectDependencies(w, name, item);
    if found.Err? {
      return Err(found.error);
    }
    SortedDependencies(w, name, found.value);
    r := Ok(Sort(ByName(), found.value));
  }

  class Visitor {
    const w: Workspace
    var visiting: set<string>
    var completed: set<string>
    var ordered: seq<Entry>

    constructor (w: Workspace)
      ensures this.w == w && visiting == {} && completed == {} && ordered == []
    {
      this.w := w;
      visiting, completed, ordered := {}, {}, [];
    }

    /** Completed names are the listed ones, and none of them is being visited. */
    ghost predicate Valid(roots: seq<string>)
      reads this
    {
      && Settled(w, roots, ordered)
      && (forall name :: name in completed <==> name in Names(ordered))
      && visiting !! completed
    }

    /** `visit`. */
    method Visit(name: string, ghost roots: seq<string>, ghost stack: seq<string>) returns (fault: Option<Fault>)
      requires Valid(roots) && IsStack(w, roots, stack, visiting) && Follows(w, roots, stack, name)
      modifies this
      ensures fault.Some? ==> w.Justifies(roots, fault.value)
      ensures fault.None? ==>
                && Valid(roots) && visiting == old(visiting) && old(completed) <= completed && name in completed
                && old(ordered) <= ordered && ListsInOrder(old(Names(ordered)), ordered, [name])
      decreases w.packages.Keys - visiting - completed
    {
      hide Settled, IsStack, Follows, Workspace.Edge, Workspace.Reachable, Workspace.OnCycle, Workspace.Walk, SortedBy,
        Distinct, Names, ListsInOrder, AllListed;
      FollowingIsReachable(w, roots, stack, visiting, name);
      if name in completed {
        ListedAddsNothing(w, roots, ordered, name);
        return None;
      }
      if name in visiting {
        return Some(Cycle(name));
      }
      var checked := CheckPackage(w, name, roots);
      if checked.Err? {
        return Some(checked.error);
      }
      hide Workspace.Justifies;
      var dependencies := checked.value;
      ghost var outer := visiting;
      PushName(w, roots, stack, outer, name);
      visiting := visiting + {name};
      ghost var before := Names(ordered);
      NothingInOrder(w, roots, ordered);
      assert dependencies[..0] == [];
      for k := 0 to |dependencies|
        invariant Valid(roots) && visiting == outer + {name} && old(completed) <= completed
        invariant forall j :: 0 <= j < k ==> dependencies[j] in completed
        invariant old(ordered) <= ordered && ListsInOrder(before, ordered, dependencies[..k])
      {
        ghost var sofar := ordered;
        CompletedAreListed(completed, sofar, dependencies[..k]);
        assert dependencies[k] in dependencies;
        EdgeFollows(w, roots, stack + [name], dependencies[k]);
        assert name in w.packages.Keys - old(visiting) - old(completed);
        assert name !in w.packages.Keys - visiting - completed;
        fault := Visit(dependencies[k], roots, stack + [name]);
        if fault.Some? {
          return;
        }
        assert ordered == sofar + ordered[|sofar|..] && dependencies[..k + 1] == dependencies[..k] + [dependencies[k]];
        OrderGrows(w, roots, before, sofar, ordered[|sofar|..], dependencies[..k], dependencies[k]);
      }
      ghost var sofar := ordered;
      assert dependencies[..|dependencies|] == dependencies;
      CompletedAreListed(completed, sofar, dependencies);
      Complete(name, dependencies, roots);
      OrderCompletes(w, roots, before, sofar, ordered[|sofar|]);
      fault := None;
    }

    /** The end of a visit: the name is completed and listed. */
    method Complete(name: string, dependencies: seq<string>, ghost roots: seq<string>)
      requires Valid(roots) && name in visiting && w.Passes(name) && w.Reachable(roots, name)
      requires Distinct(dependencies) && SortedBy(ByName(), dependencies)
      requires forall b :: b in dependencies <==> w.Edge(name, b)
      requires forall j :: 0 <= j < |dependencies| ==> dependencies[j] in completed
      modifies this
      ensures Valid(roots) && visiting == old(visiting) - {name} && completed == old(completed) + {name}
      ensures Names(ordered) == old(Names(ordered)) + [name]
      ensures |ordered| == |old(ordered)| + 1 && ordered == old(ordered) + [ordered[|old(ordered)|]]
      ensures ordered[|old(ordered)|].package == name && ordered[|old(ordered)|].localDependencies == dependencies
    {
      hide Settled, Workspace.Reachable, Workspace.Edge, SortedBy, Distinct;
      visiting := visiting - {name};
      completed := completed + {name};
      var item := w.packages[name];
      var entry := Entry(name, item.version, item.manifest[|w.root|..], dependencies);
      SettledGrows(w, roots, ordered, entry);
      ordered := ordered + [entry];
    }
  }

  lemma CompletedAreListed(completed: set<string>, ordered: seq<Entry>, names: seq<string>)
    requires forall name :: name in completed ==> name in Names(ordered)
    requires forall k :: 0 <= k < |names| ==> names[k] in completed
    ensures AllListed(ordered, names)
  {}

  lemma SortedDependencies(w: Workspace, name: string, targets: seq<string>)
    requires Distinct(targets) && forall b :: b in targets <==> w.Edge(name, b)
    ensures var sorted := Sort(ByName(), targets);
            Distinct(sorted) && SortedBy(ByName(), sorted) && forall b :: b in sorted <==> w.Edge(name, b)
  {
    ByNameIsPreorder();
    SortSorts(ByName(), targets);
    SortKeepsMembers(ByName(), targets);
    DistinctPermutes(targets, Sort(ByName(), targets));
  }

  lemma PushName(w: Workspace, roots: seq<string>, stack: seq<string>, visiting: set<string>, name: string)
    requires IsStack(w, roots, stack, visiting) && Follows(w, roots, stack, name)
    ensures IsStack(w, roots, stack + [name], visiting + {name})
  {
    FollowingIsReachable(w, roots, stack, visiting, name);
  }

  lemma EdgeFollows(w: Workspace, roots: seq<string>, stack: seq<string>, b: string)
    requires stack != [] && w.Edge(stack[|stack| - 1], b)
    ensures Follows(w, roots, stack, b)
  {}

  lemma NothingIsSettled(w: Workspace, roots: seq<string>)
    ensures Settled(w, roots, []) && Names([]) == []
  {}

  // ----- the tables of packages

  /** Packages of the workspace are those without a registry source. */
  lemma {:induction false} LocalPackageIsThere(items: seq<Package>, name: string)
    ensures name in LocalPackages(items) <==> IsLocal(items, name)
  {
    if items != [] {
      var n := |items| - 1;
      LocalPackageIsThere(items[..n], name);
      if IsLocal(items, name) {
        var k :| 0 <= k < |items| && items[k].name == name && items[k].source.None?;
        assert k < n ==> items[..n][k] == items[k];
      }
    }
  }

  predicate IsLocal(items: seq<Package>, name: string) {
    exists k :: 0 <= k < |items| && items[k].name == name && items[k].source.None?
  }

  /** Of several with one name the last counts. */
  lemma {:induction false} LocalPackageIsLast(items: seq<Package>, k: nat)
    requires k < |items| && items[k].source.None?
    requires forall j :: k < j < |items| && items[j].source.None? ==> items[j].name != items[k].name
    ensures items[k].name in LocalPackages(items) && LocalPackages(items)[items[k].name] == items[k]
    decreases |items|
  {
    if k < |items| - 1 {
      LocalPackageIsLast(items[..|items| - 1], k);
    }
  }

  /** A directory belongs to the last listed package whose manifest lies in it. */
  lemma {:induction false} DirectoryIsLast(packages: map<string, Package>, names: seq<string>, path: Path)
    requires forall name :: name in names ==> name in packages
    ensures path in Directories(packages, names) <==>
            exists k :: 0 <= k < |names| && Parent(packages[names[k]].manifest) == path
    ensures forall k :: 0 <= k < |names| && Parent(packages[names[k]].manifest) == path
                        && (forall j :: k < j < |names| ==> Parent(packages[names[j]].manifest) != path) ==>
              path in Directories(packages, names) && Directories(packages, names)[path] == names[k]
  {
    if names != [] {
      hide Parent;
      assert forall name :: name in names[..|names| - 1] ==> name in names;
      assert names[|names| - 1] in names;
      DirectoryIsLast(packages, names[..|names| - 1], path);
    }
  }

  // ----- what a settled list says

  lemma WalkInit(w: Workspace, p: seq<string>)
    requires w.Walk(p) && |p| > 1
    ensures w.Walk(p[..|p| - 1]) && w.Edge(p[|p| - 2], p[|p| - 1])
  {
    var init := p[..|p| - 1];
    forall i | 0 <= i < |init| - 1 ensures w.Edge(init[i], init[i + 1]) {
      assert w.Edge(p[i], p[i + 1]);
    }
    assert w.Edge(p[|p| - 2], p[|p| - 2 + 1]);
  }

  /** The position of a listed name. */
  function PositionOf(ordered: seq<Entry>, name: string): (i: nat)
    requires name in Names(ordered)
    ensures i < |ordered| && ordered[i].package == name
  {
    var i := FirstIndex(Names(ordered), name);
    assert Names(ordered)[..|Names(ordered)|] == Names(ordered);
    i
  }

  /** A dependency of a listed package is listed, and earlier. */
  lemma DependenciesComeFirst(w: Workspace, roots: seq<string>, ordered: seq<Entry>, a: string, b: string)
    returns (i: nat)
    requires Settled(w, roots, ordered) && a in Names(ordered) && w.Edge(a, b)
    ensures b in Names(ordered) && PositionOf(ordered, b) < PositionOf(ordered, a)
    ensures i == PositionOf(ordered, b)
  {
    hide Workspace.Edge, Workspace.Passes, Workspace.Reachable, Workspace.IsEntry;
    var k := PositionOf(ordered, a);
    assert b in ordered[k].localDependencies;
    assert b in Names(ordered[..k]);
    var j :| 0 <= j < k && Names(ordered[..k])[j] == b;
    assert Names(ordered)[j] == b;
    i := PositionOf(ordered, b);
    assert Names(ordered)[i] == b;
    assert i == j;
  }

  /** Along a walk positions fall, so no walk returns to where it began. */
  lemma {:induction false} WalksDescend(w: Workspace, roots: seq<string>, ordered: seq<Entry>, p: seq<string>)
    requires Settled(w, roots, ordered) && w.Walk(p) && p[0] in Names(ordered)
    ensures p[|p| - 1] in Names(ordered)
    ensures |p| > 1 ==> PositionOf(ordered, p[|p| - 1]) < PositionOf(ordered, p[0])
    decreases |p|
  {
    hide Settled, Workspace.Edge, Names, PositionOf;
    if |p| > 1 {
      WalkInit(w, p);
      WalksDescend(w, roots, ordered, p[..|p| - 1]);
      var i := DependenciesComeFirst(w, roots, ordered, p[|p| - 2], p[|p| - 1]);
    }
  }

  /** The list has exactly the reachable packages, each once. */
  lemma ListsExactlyReachable(w: Workspace, roots: seq<string>, ordered: seq<Entry>)
    requires Settled(w, roots, ordered) && forall k :: 0 <= k < |roots| ==> roots[k] in Names(ordered)
    ensures Distinct(Names(ordered))
    ensures forall name :: name in Names(ordered) <==> w.Reachable(roots, name)
  {
    forall name ensures name in Names(ordered) <==> w.Reachable(roots, name) {
      if name in Names(ordered) {
        assert w.Reachable(roots, ordered[PositionOf(ordered, name)].package);
      }
      if w.Reachable(roots, name) {
        var p :| w.Walk(p) && p[0] in roots && p[|p| - 1] == name;
        WalksDescend(w, roots, ordered, p);
      }
    }
  }

  /** A completed inventory means that every reachable package passes and that none depends on itself. */
  lemma ListedMeansHealthy(w: Workspace, roots: seq<string>, ordered: seq<Entry>)
    requires Settled(w, roots, ordered) && forall k :: 0 <= k < |roots| ==> roots[k] in Names(ordered)
    ensures w.AllPass(roots) && w.Acyclic(roots)
  {
    ListsExactlyReachable(w, roots, ordered);
    hide Workspace.Reachable, Workspace.Edge;
    forall name | w.Reachable(roots, name) ensures w.Passes(name) && !w.OnCycle(name) {
      assert w.Passes(ordered[PositionOf(ordered, name)].package);
      forall p | w.Walk(p) && |p| > 1 && p[0] == name ensures p[|p| - 1] != name {
        WalksDescend(w, roots, ordered, p);
      }
    }
  }

  /** A reported fault means that some reachable package fails a check or depends on itself. */
  lemma FaultMeansUnhealthy(w: Workspace, roots: seq<string>, fault: Fault)
    requires w.Justifies(roots, fault)
    ensures !(w.AllPass(roots) && w.Acyclic(roots))
  {
    hide Workspace.Reachable, Workspace.OnCycle, HasSubstring, Workspace.Resolves, Workspace.Versioned;
    if w.AllPass(roots) {
      assert w.Passes(fault.name);
    }
  }

  lemma RootFollows(w: Workspace, roots: seq<string>, root: string)
    requires root in roots
    ensures IsStack(w, roots, [], {}) && Follows(w, roots, [], root)
  {}

  lemma InOrderAtLength(ordered: seq<Entry>, names: seq<string>)
    requires ListsInOrder([], ordered, names)
    ensures Names(ordered) == FirstOccurrences(PlainOrder(ordered, names, |ordered|))
  {
    assert [] + PlainOrder(ordered, names, |ordered|) == PlainOrder(ordered, names, |ordered|);
  }

  /**
   * `inventory`: visit every root. It returns just when every reachable package passes and none
   * depends on itself; then it lists exactly the reachable packages, dependencies first.
   */
  method TakeInventory(items: seq<Package>, root: Path, roots: seq<string>) returns (r: Result<seq<Entry>, Fault>)
    ensures var packages := LocalPackages(items);
            var w := Workspace(packages, Directories(packages, LocalNames(items)), root);
            && (r.Ok? <==> w.AllPass(roots) && w.Acyclic(roots))
            && (r.Ok? ==> Settled(w, roots, r.value)
                          && (forall name :: name in Names(r.value) <==> w.Reachable(roots, name))
                          && Names(r.value) == FirstOccurrences(PlainOrder(r.value, roots, |r.value|)))
            && (r.Err? ==> w.Justifies(roots, r.error))
  {
    var packages := LocalPackages(items);
    var w := Workspace(packages, Directories(packages, LocalNames(items)), root);
    hide Settled, Workspace.Justifies, Workspace.AllPass, Workspace.Acyclic, Workspace.Reachable, Names, LocalPackages,
      Directories, LocalNames, IsStack, Follows, ListsInOrder, PlainOrder, AllListed, FirstOccurrences;
    var visitor := new Visitor(w);
    assert visitor.Valid(roots) by { NothingIsSettled(w, roots); }
    assert ListsInOrder([], visitor.ordered, roots[..0]) by {
      NothingIsSettled(w, roots);
      NothingInOrder(w, roots, []);
    }
    for k := 0 to |roots|
      invariant visitor.Valid(roots) && visitor.visiting == {}
      invariant forall j :: 0 <= j < k ==> roots[j] in visitor.completed
      invariant ListsInOrder([], visitor.ordered, roots[..k])
    {
      ghost var sofar := visitor.ordered;
      CompletedAreListed(visitor.completed, sofar, roots[..k]);
      RootFollows(w, roots, roots[k]);
      var fault := visitor.Visit(roots[k], roots, []);
      if fault.Some? {
        FaultMeansUnhealthy(w, roots, fault.value);
        return Err(fault.value);
      }
      assert visitor.ordered == sofar + visitor.ordered[|sofar|..] && roots[..k + 1] == roots[..k] + [roots[k]];
      OrderGrows(w, roots, [], sofar, visitor.ordered[|sofar|..], roots[..k], roots[k]);
    }
    assert roots[..|roots|] == roots;
    InOrderAtLength(visitor.ordered, roots);
    ListsExactlyReachable(w, roots, visitor.ordered);
    ListedMeansHealthy(w, roots, visitor.ordered);
    r := Ok(visitor.ordered);
  }
}
