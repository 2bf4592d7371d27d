/** The packages of the workspace that a package depends on, and why a package gets a new version. */
module PackageFamily {
  import opened Collections

  /**
   * The number tells two packages apart that say the same about themselves. The names are the keys of the three kinds
   * of dependencies.
   */
  datatype Package = Package(id: nat, name: string, path: string, dependencies: seq<string>, optional: seq<string>,
    peer: seq<string>)

  // ----- the dependencies of a package -----

  /** The keys of the dependencies spread into one object, each of them once. */
  function KeysOf(names: seq<string>): (keys: seq<string>)
    ensures forall name :: name in keys <==> name in names
  {
    if names == [] then []
    else
      var before, name := KeysOf(names[..|names| - 1]), names[|names| - 1];
      if name in before then before else before + [name]
  }

  function FindByName(packages: seq<Package>, name: string): (found: Option<Package>)
    ensures found.Some? ==> found.value in packages && found.value.name == name
    ensures found.None? ==> forall candidate :: candidate in packages ==> candidate.name != name
  {
    if packages == [] then None
    else if packages[0].name == name then Some(packages[0])
    else FindByName(packages[1..], name)
  }

  function FindAll(packages: seq<Package>, names: seq<string>): (found: seq<Package>)
    ensures forall p :: p in found <==> p.name in names && FindByName(packages, p.name) == Some(p)
  {
    if names == [] then []
    else
      var first := FindByName(packages, names[0]);
      (if first.Some? then [first.value] else []) + FindAll(packages, names[1..])
  }

  /** The packages of the workspace with the names the package depends on: the first one with a name is meant. */
  function GetWorkspaceDependencies(packages: seq<Package>, item: Package): (dependencies: seq<Package>)
    ensures forall p :: p in dependencies <==>
      p.name in item.dependencies + item.optional + item.peer && FindByName(packages, p.name) == Some(p)
  {
    FindAll(packages, KeysOf(item.dependencies + item.optional + item.peer))
  }

  /** Where a name is first, among some names. */
  function FirstIndex(names: seq<string>, name: string): nat {
    if names == [] || names[0] == name then 0 else 1 + FirstIndex(names[1..], name)
  }

  ghost predicate AreInOrder(names: seq<string>, keys: seq<string>) {
    forall i, j :: 0 <= i < j < |keys| ==> FirstIndex(names, keys[i]) < FirstIndex(names, keys[j])
  }

  lemma {:induction false} FirstIndexPush(names: seq<string>, more: string, name: string)
    ensures FirstIndex(names + [more], name) == if name in names then FirstIndex(names, name)
      else if name == more then |names| else |names| + 1
    ensures name in names ==> FirstIndex(names, name) < |names|
  {
    if names != [] && names[0] != name {
      assert (names + [more])[1..] == names[1..] + [more];
      FirstIndexPush(names[1..], more, name);
    } else if names == [] {
      assert ([] + [more])[1..] == [];
    }
  }

  lemma {:induction false} KeysAreInOrder(names: seq<string>)
    ensures AreInOrder(names, KeysOf(names))
  {
    hide FirstIndex;
    if names != [] {
      var before, name := names[..|names| - 1], names[|names| - 1];
      var keys := KeysOf(before);
      assert names == before + [name];
      KeysAreInOrder(before);
      assert forall i :: 0 <= i < |keys| ==> keys[i] in keys;
      forall key ensures key in before ==> FirstIndex(names, key) == FirstIndex(before, key) < |before|
        ensures key !in before && key == name ==> FirstIndex(names, key) == |before|
      {
        FirstIndexPush(before, name, key);
      }
    }
  }

  function NamesOf(packages: seq<Package>): (names: seq<string>)
    ensures |names| == |packages|
  {
    seq(|packages|, i requires 0 <= i < |packages| => packages[i].name)
  }

  lemma TailIsInOrder(names: seq<string>, keys: seq<string>)
    requires AreInOrder(names, keys) && keys != []
    ensures AreInOrder(names, keys[1..])
    ensures forall key :: key in keys[1..] ==> FirstIndex(names, keys[0]) < FirstIndex(names, key)
  {
    hide FirstIndex;
  }

  lemma FirstIsInOrder(names: seq<string>, first: string, rest: seq<string>)
    requires AreInOrder(names, rest)
    requires forall key :: key in rest ==> FirstIndex(names, first) < FirstIndex(names, key)
    ensures AreInOrder(names, [first] + rest)
  {
    hide FirstIndex;
    assert forall j :: 0 <= j < |rest| ==> rest[j] in rest;
  }

  lemma {:induction false} FoundAreInOrder(packages: seq<Package>, names: seq<string>, keys: seq<string>)
    requires AreInOrder(names, keys)
    ensures AreInOrder(names, NamesOf(FindAll(packages, keys)))
  {
    hide FirstIndex, FindByName, AreInOrder;
    if keys == [] {
      assert NamesOf(FindAll(packages, keys)) == keys;
    } else {
      var found := FindAll(packages, keys[1..]);
      var rest := NamesOf(found);
      TailIsInOrder(names, keys);
      FoundAreInOrder(packages, names, keys[1..]);
      if FindByName(packages, keys[0]).Some? {
        forall key | key in rest ensures FirstIndex(names, keys[0]) < FirstIndex(names, key) {
          var j :| 0 <= j < |rest| && rest[j] == key;
          assert found[j] in found;
        }
        FirstIsInOrder(names, keys[0], rest);
        assert NamesOf(FindAll(packages, keys)) == [keys[0]] + rest;
      } else {
        assert FindAll(packages, keys) == found;
      }
    }
  }

  /** The dependencies come in the order they are first named, so each once. */
  lemma DependenciesAreInOrder(packages: seq<Package>, item: Package)
    ensures AreInOrder(item.dependencies + item.optional + item.peer,
      NamesOf(GetWorkspaceDependencies(packages, item)))
  {
    hide AreInOrder, FindAll, KeysOf;
    var names := item.dependencies + item.optional + item.peer;
    KeysAreInOrder(names);
    FoundAreInOrder(packages, names, KeysOf(names));
  }

  // ----- depth first, with one set for all -----

  function Seen(family: seq<Package>): set<Package> {
    set p | p in family
  }

  /** Nothing but the packages of the workspace and the one the search starts at is ever visited. */
  ghost predicate InUniverse(packages: seq<Package>, universe: set<Package>) {
    forall p :: p in packages ==> p in universe
  }

  /** What a search has not come to yet. */
  ghost function Left(family: seq<Package>, universe: set<Package>): set<Package> {
    universe - Seen(family)
  }

  lemma OneLess(item: Package, family: seq<Package>, universe: set<Package>)
    requires item in universe && item !in family
    ensures Left(family + [item], universe) < Left(family, universe)
  {
    assert item in Left(family, universe) && item in family + [item];
  }

  lemma NoneMore(family: seq<Package>, after: seq<Package>, universe: set<Package>)
    requires family <= after
    ensures Left(after, universe) <= Left(family, universe)
  {
    assert forall p :: p in family ==> p in after;
  }

  /** The family, in the order it was added to, after the package was visited. */
  function Visit(packages: seq<Package>, item: Package, family: seq<Package>,
          ghost universe: set<Package>): (after: seq<Package>)
    requires InUniverse(packages, universe) && item in universe
    ensures family <= after
    decreases Left(family, universe), 0
  {
    if item in family then family
    else
      OneLess(item, family, universe);
      VisitAll(packages, GetWorkspaceDependencies(packages, item), family + [item], universe)
  }

  function VisitAll(packages: seq<Package>, items: seq<Package>, family: seq<Package>,
          ghost universe: set<Package>): (after: seq<Package>)
    requires InUniverse(packages, universe) && forall p :: p in items ==> p in universe
    ensures family <= after
    decreases Left(family, universe), 1, |items|
  {
    if items == [] then family
    else
      var first := Visit(packages, items[0], family, universe);
      NoneMore(family, first, universe);
      VisitAll(packages, items[1..], first, universe)
  }

  /** The one family that a search adds to, a `Set`, which keeps the order of insertion. */
  class Family {
    var members: seq<Package>

    constructor ()
      ensures members == []
    {
      members := [];
    }
  }

  method CollectFamily(packages: seq<Package>, item: Package, family: Family, ghost universe: set<Package>)
    requires InUniverse(packages, universe) && item in universe
    modifies family
    ensures family.members == Visit(packages, item, old(family.members), universe)
    decreases Left(family.members, universe)
  {
    hide GetWorkspaceDependencies, Left;
    if item in family.members {
      return;
    }

    OneLess(item, family.members, universe);
    family.members := family.members + [item];
    ghost var start := family.members;
    var dependencies := GetWorkspaceDependencies(packages, item);
    for i := 0 to |dependencies|
      invariant start <= family.members
      invariant forall p :: p in dependencies ==> p in universe
      invariant VisitAll(packages, dependencies, start, universe)
        == VisitAll(packages, dependencies[i..], family.members, universe)
    {
      assert dependencies[i..][1..] == dependencies[i + 1..] && dependencies[i] in dependencies;
      NoneMore(start, family.members, universe);
      CollectFamily(packages, dependencies[i], family, universe);
    }
  }

  // ----- what is reachable -----

  /** Each package on the way depends on the next. */
  ghost predicate IsWay(packages: seq<Package>, way: seq<Package>) {
    forall i, j :: 0 <= i < j < |way| && j == i + 1 ==> way[j] in GetWorkspaceDependencies(packages, way[i])
  }

  ghost predicate IsReachable(packages: seq<Package>, from: Package, to: Package) {
    exists way :: IsWay(packages, way) && way != [] && way[0] == from && way[|way| - 1] == to
  }

  lemma ReachesItself(packages: seq<Package>, item: Package)
    ensures IsReachable(packages, item, item)
  {
    assert IsWay(packages, [item]);
  }

  lemma ReachesFurther(packages: seq<Package>, item: Package, dependency: Package, to: Package)
    requires dependency in GetWorkspaceDependencies(packages, item) && IsReachable(packages, dependency, to)
    ensures IsReachable(packages, item, to)
  {
    hide IsWay;
    var way :| IsWay(packages, way) && way != [] && way[0] == dependency && way[|way| - 1] == to;
    OneMoreStep(packages, item, way);
    assert ([item] + way)[|way|] == to;
  }

  lemma OneMoreStep(packages: seq<Package>, item: Package, way: seq<Package>)
    requires IsWay(packages, way) && way != [] && way[0] in GetWorkspaceDependencies(packages, item)
    ensures IsWay(packages, [item] + way)
  {
  }

  /** What is added is reachable from where the search started. */
  lemma {:induction false} AddedIsReachable(packages: seq<Package>, item: Package, family: seq<Package>,
          universe: set<Package>, p: Package)
    requires InUniverse(packages, universe) && item in universe
    requires p in Visit(packages, item, family, universe) && p !in family
    ensures IsReachable(packages, item, p)
    decreases Left(family, universe), 0
  {
    hide IsReachable, GetWorkspaceDependencies;
    if p == item {
      ReachesItself(packages, item);
    } else {
      OneLess(item, family, universe);
      var dependency := AllAddedReachable(packages, GetWorkspaceDependencies(packages, item), family + [item], universe,
        p);
      ReachesFurther(packages, item, dependency, p);
    }
  }

  lemma {:induction false} AllAddedReachable(packages: seq<Package>, items: seq<Package>, family: seq<Package>,
          universe: set<Package>, p: Package)
    returns (from: Package)
    requires InUniverse(packages, universe) && forall p :: p in items ==> p in universe
    requires p in VisitAll(packages, items, family, universe) && p !in family
    ensures from in items && IsReachable(packages, from, p)
    decreases Left(family, universe), 1, |items|
  {
    hide IsReachable, GetWorkspaceDependencies;
    var first := Visit(packages, items[0], family, universe);
    NoneMore(family, first, universe);
    if p in first {
      AddedIsReachable(packages, items[0], family, universe, p);
      from := items[0];
    } else {
      from := AllAddedReachable(packages, items[1..], first, universe, p);
    }
  }

  /** The dependencies of what was added are in the family as well. */
  ghost predicate IsClosed(packages: seq<Package>, before: seq<Package>, after: seq<Package>) {
    forall p, q :: p in after && p !in before && q in GetWorkspaceDependencies(packages, p) ==> q in after
  }

  lemma {:induction false} VisitCloses(packages: seq<Package>, item: Package, family: seq<Package>,
          universe: set<Package>)
    requires InUniverse(packages, universe) && item in universe
    ensures item in Visit(packages, item, family, universe)
    ensures IsClosed(packages, family, Visit(packages, item, family, universe))
    decreases Left(family, universe), 0
  {
    hide GetWorkspaceDependencies;
    if item !in family {
      var after := Visit(packages, item, family, universe);
      OneLess(item, family, universe);
      VisitAllCloses(packages, GetWorkspaceDependencies(packages, item), family + [item], universe);
      assert item in family + [item];
      assert after[|family|] == item;
    }
  }

  lemma {:induction false} VisitAllCloses(packages: seq<Package>, items: seq<Package>, family: seq<Package>,
          universe: set<Package>)
    requires InUniverse(packages, universe) && forall p :: p in items ==> p in universe
    ensures forall p :: p in items ==> p in VisitAll(packages, items, family, universe)
    ensures IsClosed(packages, family, VisitAll(packages, items, family, universe))
    decreases Left(family, universe), 1, |items|
  {
    hide GetWorkspaceDependencies;
    if items != [] {
      var first := Visit(packages, items[0], family, universe);
      NoneMore(family, first, universe);
      VisitCloses(packages, items[0], family, universe);
      VisitAllCloses(packages, items[1..], first, universe);
      PrefixHolds(first, VisitAll(packages, items[1..], first, universe));
    }
  }

  lemma PrefixHolds(first: seq<Package>, all: seq<Package>)
    requires first <= all
    ensures forall p :: p in first ==> p in all
  {
  }

  lemma {:induction false} WayStaysInside(packages: seq<Package>, family: seq<Package>, way: seq<Package>)
    requires IsClosed(packages, [], family) && IsWay(packages, way) && way != [] && way[0] in family
    ensures way[|way| - 1] in family
  {
    if |way| > 1 {
      assert way[1] in GetWorkspaceDependencies(packages, way[0]);
      assert forall i :: 0 <= i < |way[1..]| ==> way[1..][i] == way[i + 1];
      WayStaysInside(packages, family, way[1..]);
    }
  }

  ghost function UniverseOf(packages: seq<Package>, item: Package): set<Package> {
    Seen(packages) + {item}
  }

  /** What a search that starts with an empty family visits. */
  function GetPackageFamily(packages: seq<Package>, item: Package): seq<Package> {
    Visit(packages, item, [], UniverseOf(packages, item))
  }

  /**
   * On every dependency graph, with cycles and packages that depend on themselves too: the family is what is reachable.
   */
  lemma FamilyIsTheClosure(packages: seq<Package>, item: Package)
    ensures forall p :: p in GetPackageFamily(packages, item) <==> IsReachable(packages, item, p)
  {
    hide IsWay, IsClosed, Visit;
    var universe := UniverseOf(packages, item);
    var family := GetPackageFamily(packages, item);
    VisitCloses(packages, item, [], universe);
    forall p ensures p in family <==> IsReachable(packages, item, p) {
      if p in family {
        AddedIsReachable(packages, item, [], universe, p);
      }
      if IsReachable(packages, item, p) {
        var way :| IsWay(packages, way) && way != [] && way[0] == item && way[|way| - 1] == p;
        WayStaysInside(packages, family, way);
      }
    }
  }

  ghost predicate NoneTwice(family: seq<Package>) {
    forall i, j :: 0 <= i < j < |family| ==> family[i] != family[j]
  }

  /** The family is a set: each package is in it once. */
  lemma {:induction false} VisitAddsOnce(packages: seq<Package>, item: Package, family: seq<Package>,
          universe: set<Package>)
    requires InUniverse(packages, universe) && item in universe && NoneTwice(family)
    ensures NoneTwice(Visit(packages, item, family, universe))
    decreases Left(family, universe), 0
  {
    hide GetWorkspaceDependencies;
    if item !in family {
      OneLess(item, family, universe);
      VisitAllAddsOnce(packages, GetWorkspaceDependencies(packages, item), family + [item], universe);
    }
  }

  lemma {:induction false} VisitAllAddsOnce(packages: seq<Package>, items: seq<Package>, family: seq<Package>,
          universe: set<Package>)
    requires InUniverse(packages, universe) && (forall p :: p in items ==> p in universe) && NoneTwice(family)
    ensures NoneTwice(VisitAll(packages, items, family, universe))
    decreases Left(family, universe), 1, |items|
  {
    hide GetWorkspaceDependencies, NoneTwice;
    if items != [] {
      var first := Visit(packages, items[0], family, universe);
      NoneMore(family, first, universe);
      VisitAddsOnce(packages, items[0], family, universe);
      VisitAllAddsOnce(packages, items[1..], first, universe);
    }
  }

  /** The package itself is the first of its family. */
  lemma ItselfIsFirst(packages: seq<Package>, item: Package)
    ensures GetPackageFamily(packages, item) != [] && GetPackageFamily(packages, item)[0] == item
    ensures NoneTwice(GetPackageFamily(packages, item))
  {
    hide GetWorkspaceDependencies;
    var universe := UniverseOf(packages, item);
    VisitAddsOnce(packages, item, [], universe);
    assert [item] <= VisitAll(packages, GetWorkspaceDependencies(packages, item), [item], universe);
    assert [] + [item] == [item];
  }

  // ----- why a package is published -----

  /** The history: which commits it has, and whether a path changed since one. */
  datatype Git = Git(isKnownCommit: string -> bool, hasChangesSince: (string, string) -> bool)

  /** The published release, with the commit it was made from if it says so. */
  datatype Release = Release(gitHead: Option<string>)

  function Short(gitHead: string): string {
    if |gitHead| <= 7 then gitHead else gitHead[..7]
  }

  function FirstChanged(family: seq<Package>, gitHead: string, git: Git): (changed: Option<Package>)
    ensures changed.None? <==> forall p :: p in family ==> !git.hasChangesSince(gitHead, p.path)
    ensures changed.Some? ==> changed.value in family && git.hasChangesSince(gitHead, changed.value.path)
  {
    if family == [] then None
    else if git.hasChangesSince(gitHead, family[0].path) then Some(family[0])
    else FirstChanged(family[1..], gitHead, git)
  }

  function GetPublishReason(packages: seq<Package>, item: Package, git: Git, published: Option<Release>,
          publishAll: bool): Option<string>
  {
    if publishAll then Some("PUBLISH_ALL is set")
    else if published.None? then Some("never published")
    else if published.value.gitHead.None? || published.value.gitHead.value == "" then
      Some("the published release has no gitHead")
    else
      var gitHead := published.value.gitHead.value;
      if !git.isKnownCommit(gitHead) then Some("the published commit " + Short(gitHead) + " is not in the history")
      else
        var changed := FirstChanged(GetPackageFamily(packages, item), gitHead, git);
        if changed.None? then None
        else if changed.value == item then Some("changed since " + Short(gitHead))
        else Some(changed.value.name + " changed since " + Short(gitHead))
  }

  /** The release says which commit it was made from, and the history has that commit. */
  predicate IsComparable(published: Option<Release>, git: Git) {
    && published.Some? && published.value.gitHead.Some? && published.value.gitHead.value != ""
    && git.isKnownCommit(published.value.gitHead.value)
  }

  ghost predicate ReachableChanged(packages: seq<Package>, item: Package, gitHead: string, git: Git) {
    exists p :: IsReachable(packages, item, p) && git.hasChangesSince(gitHead, p.path)
  }

  /**
   * A package is published exactly when all are asked for, when its release cannot be compared with, or when it or a
   * package it depends on, however far, has changed since.
   */
  lemma PublishedWhenAnythingReachableChanged(packages: seq<Package>, item: Package, git: Git,
          published: Option<Release>, publishAll: bool)
    ensures GetPublishReason(packages, item, git, published, publishAll).Some?
      <==> (publishAll || !IsComparable(published, git)
            || ReachableChanged(packages, item, published.value.gitHead.value, git))
  {
    hide GetPackageFamily, IsReachable;
    FamilyIsTheClosure(packages, item);
  }

  /** The reason names a package that changed: the package itself when it did, otherwise one it depends on. */
  lemma TheReasonNamesTheChange(packages: seq<Package>, item: Package, git: Git, published: Option<Release>)
    requires IsComparable(published, git)
    ensures var reason, gitHead := GetPublishReason(packages, item, git, published, false),
      published.value.gitHead.value;
      var short := if |gitHead| < 7 then gitHead else gitHead[..7];
      && (git.hasChangesSince(gitHead, item.path) ==> reason == Some("changed since " + short))
      && (!git.hasChangesSince(gitHead, item.path) && reason.Some? ==>
          exists p :: p != item && IsReachable(packages, item, p) && git.hasChangesSince(gitHead, p.path)
            && reason == Some(p.name + " changed since " + short))
  {
    hide GetPackageFamily, IsReachable, Short;
    FamilyIsTheClosure(packages, item);
    ItselfIsFirst(packages, item);
    ShortIsTheStart(published.value.gitHead.value);
  }

  lemma ShortIsTheStart(gitHead: string)
    ensures Short(gitHead) == if |gitHead| < 7 then gitHead else gitHead[..7]
  {
    if |gitHead| == 7 {
      assert gitHead[..7] == gitHead;
    }
  }

  /** A release that cannot be compared with is the reason itself. */
  lemma TheReasonNamesTheRelease(packages: seq<Package>, item: Package, git: Git, published: Option<Release>)
    requires !IsComparable(published, git)
    ensures var reason := GetPublishReason(packages, item, git, published, false);
      match published
      case None => reason == Some("never published")
      case Some(Release(None)) => reason == Some("the published release has no gitHead")
      case Some(Release(Some(gitHead))) =>
        var short := if |gitHead| < 7 then gitHead else gitHead[..7];
        reason == Some(if gitHead == "" then "the published release has no gitHead"
          else "the published commit " + short + " is not in the history")
  {
    hide GetPackageFamily, FirstChanged, Short;
    if published.Some? && published.value.gitHead.Some? {
      ShortIsTheStart(published.value.gitHead.value);
    }
  }
}
