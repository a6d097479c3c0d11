/** Which packages count, what they depend on and which pass, said of the metadata's package list. */
module InventoryRules {
  import opened Wrappers
  import opened Sequences
  import opened Inventory

  function WorkspaceOf(items: seq<Package>, root: Path): Workspace {
    Workspace(LocalPackages(items), Directories(LocalPackages(items), LocalNames(items)), root)
  }

  /** The local package that counts under a name: the last one of that name. */
  predicate Counting(items: seq<Package>, name: string, k: nat) {
    && k < |items| && items[k].source.None? && items[k].name == name
    && forall j :: k < j < |items| && items[j].source.None? ==> items[j].name != name
  }

  /** Where a local name stands first. */
  predicate FirstAt(items: seq<Package>, name: string, k: nat) {
    && k < |items| && items[k].source.None? && items[k].name == name
    && forall j :: 0 <= j < k && items[j].source.None? ==> items[j].name != name
  }

  /** The manifest is a file of that directory. */
  ghost predicate LiesIn(manifest: Path, directory: Path) {
    (manifest == [] && directory == []) || exists file :: manifest == directory + [file]
  }

  ghost predicate Occupies(items: seq<Package>, name: string, directory: Path) {
    exists k: nat :: Counting(items, name, k) && LiesIn(items[k].manifest, directory)
  }

  /** The package of a directory: of those that lie in it, the one whose name comes up last for the first time. */
  ghost predicate LeadsTo(items: seq<Package>, directory: Path, name: string) {
    && Occupies(items, name, directory)
    && exists k: nat :: FirstAt(items, name, k)
         && forall other, j: nat :: Occupies(items, other, directory) && FirstAt(items, other, j) ==> j <= k
  }

  lemma ParentIsDirectory(manifest: Path, directory: Path)
    ensures Parent(manifest) == directory <==> LiesIn(manifest, directory)
  {
    if manifest != [] {
      assert manifest == manifest[..|manifest| - 1] + [manifest[|manifest| - 1]];
      if file :| manifest == directory + [file] {
        assert manifest[..|manifest| - 1] == directory;
      }
    }
  }

  lemma SomeCounts(items: seq<Package>, name: string) returns (k: nat)
    requires IsLocal(items, name)
    ensures Counting(items, name, k)
  {
    var i :| 0 <= i < |items| && items[i].name == name && items[i].source.None?;
    k := LastOf(items, name, i);
  }

  lemma LastOf(items: seq<Package>, name: string, i: nat) returns (k: nat)
    requires i < |items| && items[i].name == name && items[i].source.None?
    ensures Counting(items, name, k)
    decreases |items| - i
  {
    if Counting(items, name, i) {
      k := i;
    } else {
      var j :| i < j < |items| && items[j].source.None? && items[j].name == name;
      k := LastOf(items, name, j);
    }
  }

  /** The table of packages holds the package that counts, for every local name. */
  lemma PackageIsExact(items: seq<Package>, name: string)
    ensures name in LocalPackages(items) <==> exists k: nat :: Counting(items, name, k)
    ensures forall k: nat :: Counting(items, name, k) ==>
              name in LocalPackages(items) && LocalPackages(items)[name] == items[k]
  {
    LocalPackageIsThere(items, name);
    if IsLocal(items, name) {
      var k := SomeCounts(items, name);
    }
    forall k: nat | Counting(items, name, k)
      ensures name in LocalPackages(items) && LocalPackages(items)[name] == items[k]
    {
      LocalPackageIsLast(items, k);
    }
  }

  // ----- the order of the names

  /** The names are the local ones, and stand in the order of their first packages. */
  ghost predicate InItemOrder(items: seq<Package>, names: seq<string>) {
    && (forall name :: name in names <==> IsLocal(items, name))
    && (forall name :: name in names ==> exists k: nat :: FirstAt(items, name, k))
    && forall p, q, i: nat, j: nat ::
         0 <= p < q < |names| && FirstAt(items, names[p], i) && FirstAt(items, names[q], j) ==> i < j
  }

  lemma FirstStays(items: seq<Package>, item: Package, name: string)
    ensures forall k: nat :: k < |items| ==> (FirstAt(items + [item], name, k) <==> FirstAt(items, name, k))
    ensures FirstAt(items + [item], name, |items|) <==>
            item.source.None? && item.name == name && !IsLocal(items, name)
    ensures IsLocal(items + [item], name) <==> IsLocal(items, name) || (item.source.None? && item.name == name)
  {
    var s := items + [item];
    assert s[|items|] == item && forall j :: 0 <= j < |items| ==> s[j] == items[j];
    if IsLocal(items, name) {
      var k :| 0 <= k < |items| && items[k].name == name && items[k].source.None?;
      assert s[k].name == name;
    }
  }

  lemma NamesGrow(items: seq<Package>, item: Package)
    ensures LocalNames(items + [item]) ==
            LocalNames(items) + if item.source.None? && item.name !in LocalNames(items) then [item.name] else []
  {
    var isLocal, name := (x: Package) => x.source.None?, (x: Package) => x.name;
    FilterAppend(items, [item], isLocal);
    assert [item][1..] == [];
    var before := Filter(items, isLocal);
    if item.source.None? {
      assert Filter([item], isLocal) == [item];
      assert Map(name, before + [item]) == Map(name, before) + [item.name];
      FirstOccurrencesGrow(Map(name, before), item.name);
    } else {
      assert Filter([item], isLocal) == [] && before + [] == before;
      assert LocalNames(items) + [] == LocalNames(items);
    }
  }

  lemma OrderStep(items: seq<Package>, item: Package, names: seq<string>)
    requires InItemOrder(items, names)
    ensures InItemOrder(items + [item],
                        names + if item.source.None? && item.name !in names then [item.name] else [])
  {
    hide FirstAt, IsLocal;
    var s := items + [item];
    var more := names + if item.source.None? && item.name !in names then [item.name] else [];
    forall name {
      FirstStays(items, item, name);
    }
    forall name | name in more ensures exists k: nat :: FirstAt(s, name, k) {
      if name in names {
        var k: nat :| FirstAt(items, name, k);
        FirstIsInside(items, name, k);
        assert FirstAt(s, name, k);
      } else {
        assert FirstAt(s, name, |items|);
      }
    }
    forall p, q, i: nat, j: nat | 0 <= p < q < |more| && FirstAt(s, more[p], i) && FirstAt(s, more[q], j)
      ensures i < j
    {
      FirstIsInside(s, more[p], i);
      FirstIsInside(s, more[q], j);
      assert more[p] in names;
      var at: nat :| FirstAt(items, more[p], at);
      FirstIsInside(items, more[p], at);
      FirstIsOnce(s, more[p], i, at);
      if q < |names| {
        assert more[q] in names;
        var there: nat :| FirstAt(items, more[q], there);
        FirstIsInside(items, more[q], there);
        FirstIsOnce(s, more[q], j, there);
      } else {
        FirstIsOnce(s, more[q], j, |items|);
      }
    }
  }

  lemma FirstIsInside(items: seq<Package>, name: string, k: nat)
    requires FirstAt(items, name, k)
    ensures k < |items|
  {}

  lemma FirstIsOnce(items: seq<Package>, name: string, j: nat, k: nat)
    requires FirstAt(items, name, j) && FirstAt(items, name, k)
    ensures j == k
  {}

  lemma {:induction false} NamesInOrder(items: seq<Package>)
    ensures InItemOrder(items, LocalNames(items))
  {
    hide InItemOrder, LocalNames;
    if items == [] {
      NoNames();
    } else {
      var n := |items| - 1;
      assert items == items[..n] + [items[n]];
      NamesInOrder(items[..n]);
      NamesGrow(items[..n], items[n]);
      OrderStep(items[..n], items[n], LocalNames(items[..n]));
    }
  }

  lemma NoNames()
    ensures LocalNames([]) == [] && InItemOrder([], [])
  {}

  lemma NameOccupies(items: seq<Package>, name: string, directory: Path)
    requires IsLocal(items, name)
    ensures name in LocalPackages(items)
    ensures Parent(LocalPackages(items)[name].manifest) == directory <==> Occupies(items, name, directory)
  {
    hide Counting, LiesIn, Parent, LocalPackages, IsLocal;
    var k := SomeCounts(items, name);
    PackageIsExact(items, name);
    ParentIsDirectory(LocalPackages(items)[name].manifest, directory);
  }

  lemma OccupantIsLocal(items: seq<Package>, name: string, directory: Path)
    requires Occupies(items, name, directory)
    ensures IsLocal(items, name)
  {}

  lemma Occupants(items: seq<Package>, directory: Path)
    ensures var packages, names := LocalPackages(items), LocalNames(items);
            forall name :: name in names ==>
              name in packages && (Parent(packages[name].manifest) == directory <==> Occupies(items, name, directory))
  {
    hide LocalPackages, LocalNames, Occupies, Parent, IsLocal;
    NamesInOrder(items);
    forall name | name in LocalNames(items)
      ensures name in LocalPackages(items)
      ensures Parent(LocalPackages(items)[name].manifest) == directory <==> Occupies(items, name, directory)
    {
      NameOccupies(items, name, directory);
    }
  }

  lemma DirectoryLeads(items: seq<Package>, directory: Path, name: string)
    requires LeadsTo(items, directory, name)
    ensures var paths := Directories(LocalPackages(items), LocalNames(items));
            directory in paths && paths[directory] == name
  {
    hide Directories, LocalPackages, LocalNames, Occupies, FirstAt, Parent, IsLocal;
    var packages, names := LocalPackages(items), LocalNames(items);
    NamesInOrder(items);
    Occupants(items, directory);
    DirectoryIsLast(packages, names, directory);
    OccupantIsLocal(items, name, directory);
    var p :| 0 <= p < |names| && names[p] == name;
    forall q | p < q < |names| ensures Parent(packages[names[q]].manifest) != directory {
      LaterDoesNotOccupy(items, directory, name, names, p, q);
      assert names[q] in names;
    }
  }

  lemma DirectoryIsLed(items: seq<Package>, directory: Path)
    requires directory in Directories(LocalPackages(items), LocalNames(items))
    ensures LeadsTo(items, directory, Directories(LocalPackages(items), LocalNames(items))[directory])
  {
    hide Directories, LocalPackages, LocalNames, Occupies, FirstAt, Parent, IsLocal;
    var packages, names := LocalPackages(items), LocalNames(items);
    NamesInOrder(items);
    Occupants(items, directory);
    var p := LastIn(packages, names, directory);
    assert names[p] in names;
    var k: nat :| FirstAt(items, names[p], k);
    forall other, j: nat | Occupies(items, other, directory) && FirstAt(items, other, j) ensures j <= k {
      OccupantIsLocal(items, other, directory);
      var q :| 0 <= q < |names| && names[q] == other;
      if p == q {
        FirstIsOnce(items, other, j, k);
      }
    }
  }

  /** The table of directories leads to the package that the rule for directories names. */
  lemma DirectoryIsExact(items: seq<Package>, directory: Path, name: string)
    ensures var paths := Directories(LocalPackages(items), LocalNames(items));
            directory in paths && paths[directory] == name <==> LeadsTo(items, directory, name)
  {
    hide *;
    if LeadsTo(items, directory, name) {
      DirectoryLeads(items, directory, name);
    }
    if directory in Directories(LocalPackages(items), LocalNames(items)) {
      DirectoryIsLed(items, directory);
    }
  }

  lemma LaterDoesNotOccupy(items: seq<Package>, directory: Path, name: string, names: seq<string>, p: nat, q: nat)
    requires LeadsTo(items, directory, name) && InItemOrder(items, names)
    requires p < q < |names| && names[p] == name
    ensures !Occupies(items, names[q], directory)
  {
    hide Occupies, FirstAt, IsLocal;
    assert names[q] in names;
    var j: nat :| FirstAt(items, names[q], j);
  }

  lemma LastIn(packages: map<string, Package>, names: seq<string>, directory: Path) returns (p: nat)
    requires forall name :: name in names ==> name in packages
    requires directory in Directories(packages, names)
    ensures p < |names| && Parent(packages[names[p]].manifest) == directory
    ensures Directories(packages, names)[directory] == names[p]
    ensures forall j :: p < j < |names| ==> Parent(packages[names[j]].manifest) != directory
  {
    hide Directories, Parent;
    DirectoryIsLast(packages, names, directory);
    p := |names|;
    var k :| 0 <= k < |names| && Parent(packages[names[k]].manifest) == directory;
    while p > 0
      invariant p <= |names|
      invariant k < p && forall j :: p <= j < |names| ==> Parent(packages[names[j]].manifest) != directory
    {
      p := p - 1;
      if Parent(packages[names[p]].manifest) == directory {
        return;
      }
    }
  }

  // ----- edges and checks

  /** A dependency on a local path that is not for development only. */
  predicate IsLocalDependency(d: Dependency) {
    d.kind != Some("dev") && d.path.Some?
  }

  /** One package depends on another exactly when its counting metadata says so and the path leads there. */
  lemma EdgeIsExact(items: seq<Package>, root: Path, a: string, b: string)
    ensures WorkspaceOf(items, root).Edge(a, b) <==>
            exists k: nat, d :: Counting(items, a, k) && d in items[k].dependencies && IsLocalDependency(d)
              && LeadsTo(items, d.path.value, b)
  {
    hide Counting, LeadsTo, LocalPackages, LocalNames, Directories;
    PackageIsExact(items, a);
    forall path ensures path in WorkspaceOf(items, root).paths && WorkspaceOf(items, root).paths[path] == b <==>
                        LeadsTo(items, path, b)
    {
      DirectoryIsExact(items, path, b);
    }
  }

  ghost predicate IsPrototype(name: string) {
    exists before, after :: name == before + "prototype" + after
  }

  /** The dependency is for development, or from a registry, or leads to the package it names with a version. */
  ghost predicate IsFine(items: seq<Package>, d: Dependency) {
    IsLocalDependency(d) ==> LeadsTo(items, d.path.value, d.name) && d.req.Some? && d.req != Some("*")
  }

  lemma PrototypeIsExact(name: string)
    ensures HasSubstring(name, "prototype") <==> IsPrototype(name)
  {
    var part := "prototype";
    if HasSubstring(name, part) {
      var i :| 0 <= i <= |name| && PartAt(name, part, i);
      assert name == name[..i] + part + name[i + |part|..];
    }
    if before, after :| name == before + part + after {
      assert PartAt(name, part, |before|);
    }
  }

  lemma FineIsExact(items: seq<Package>, root: Path, d: Dependency)
    ensures WorkspaceOf(items, root).GoodDependency(d) <==> IsFine(items, d)
  {
    hide LeadsTo, LocalPackages, LocalNames, Directories;
    if d.path.Some? {
      DirectoryIsExact(items, d.path.value, d.name);
    }
  }

  /** A package passes exactly when its counting metadata meets every check. */
  lemma PassingIsExact(items: seq<Package>, root: Path, name: string)
    ensures WorkspaceOf(items, root).Passes(name) <==>
            && !IsPrototype(name)
            && exists k: nat :: Counting(items, name, k)
                 && root <= items[k].manifest
                 && (items[k].publish.None? || "crates-io" in items[k].publish.value)
                 && forall d :: d in items[k].dependencies ==> IsFine(items, d)
  {
    hide Counting, IsFine, IsPrototype, HasSubstring, LocalPackages, LocalNames, Directories, Workspace.Resolves,
      Workspace.Versioned;
    PackageIsExact(items, name);
    PrototypeIsExact(name);
    var w := WorkspaceOf(items, root);
    if name in w.packages {
      AllFine(items, root, w.packages[name].dependencies);
    }
  }

  lemma AllFine(items: seq<Package>, root: Path, dependencies: seq<Dependency>)
    ensures var w := WorkspaceOf(items, root);
            (forall k :: 0 <= k < |dependencies| ==> w.Resolves(dependencies[k]) && w.Versioned(dependencies[k])) <==>
            forall d :: d in dependencies ==> IsFine(items, d)
  {
    hide IsFine, Workspace.Resolves, Workspace.Versioned, WorkspaceOf;
    forall d ensures WorkspaceOf(items, root).GoodDependency(d) <==> IsFine(items, d) {
      FineIsExact(items, root, d);
    }
    assert forall k :: 0 <= k < |dependencies| ==> dependencies[k] in dependencies;
  }
}
