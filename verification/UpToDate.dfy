/** The check whether a lock file still fits a manifest (package/src/manifest.rs). */
module UpToDate {
  import opened Types
  import opened Packages
  import opened LockFiles
  import opened LockRoundTrip
  import opened Snapshots
  import opened Snapshotting
  import opened Reproducibility
  import opened Graph
  import Versions
  import SnapshotTree

  predicate Matches(dep: Dependency, locked: LockFileDep, precise: LockPrecisePkg) {
    match dep
    case GitDep(git) => locked.spec == Some(git)
    case PathDep(_) => true
    case IndexDep(i) => precise.LockIndex? && i.id == precise.id && i.version.Matches(precise.version)
  }

  function ChildPath(path: FilePath, dep: FilePath): FilePath {
    Normalize(Join(path, dep))
  }

  /** The path dependencies between the path packages of a snapshot. */
  function PathGraph(s: Snapshot): Edges<FilePath> {
    map u <- s.manifests | u.PathPkg? ::
      u.path := set d <- s.manifests[u].dependencies.Values | d.PathDep? :: ChildPath(u.path, d.path)
  }

  lemma PathEdges(s: Snapshot, p: FilePath, q: FilePath)
    ensures Edge(PathGraph(s), p, q) <==>
            PathPkg(p) in s.manifests
              && exists d <- s.manifests[PathPkg(p)].dependencies.Values :: d.PathDep? && ChildPath(p, d.path) == q
  {
    var g := PathGraph(s);
    if p in g {
      assert PathPkg(p) in s.manifests;
    }
    if PathPkg(p) in s.manifests {
      assert p in g;
      assert g[p] == set d <- s.manifests[PathPkg(p)].dependencies.Values | d.PathDep? :: ChildPath(p, d.path);
    }
  }

  /** Chains of path dependencies from `p` have at most `depth` links. */
  ghost predicate DepthAtMost(s: Snapshot, p: FilePath, depth: nat)
    decreases depth
  {
    forall q | Edge(PathGraph(s), p, q) :: depth > 0 && DepthAtMost(s, q, depth - 1)
  }

  /** Every path package is there for the check to look at. */
  ghost predicate PathsClosed(s: Snapshot) {
    forall p, q | Edge(PathGraph(s), p, q) :: PathPkg(q) in s.manifests
  }

  /** The lock file's record of one dependency, in the entry of the package that has it or at the top. */
  function LockedDep(lock: LockFile, parent: Option<LockFileEntry>, name: string): Option<LockFileDep> {
    var deps := if parent.Some? then parent.value.dependencies else lock.dependencies;
    if name in deps then Some(deps[name]) else None
  }

  // The depth is bounded exactly when there is no cycle

  ghost predicate Acyclic(s: Snapshot, from: FilePath) {
    forall p | Reach(PathGraph(s), from, p) :: !ReachPlus(PathGraph(s), p, p)
  }

  lemma {:induction false} AcyclicIsBounded(s: Snapshot, from: FilePath, p: FilePath, above: set<FilePath>)
    requires Acyclic(s, from) && Reach(PathGraph(s), from, p) && above <= PathGraph(s).Keys
    requires forall a <- above :: ReachPlus(PathGraph(s), a, p)
    ensures DepthAtMost(s, p, |PathGraph(s).Keys - above|)
    decreases PathGraph(s).Keys - above
  {
    hide PathGraph, Reach, ReachPlus;
    var g := PathGraph(s);
    forall q | Edge(g, p, q)
      ensures |g.Keys - above| > 0 && DepthAtMost(s, q, |g.Keys - above| - 1)
    {
      assert p !in above;
      var above' := above + {p};
      forall a <- above' ensures ReachPlus(g, a, q) {
        ReachPlusThenEdge(g, a, p, q);
      }
      ReachThenEdge(g, from, p, q);
      assert g.Keys - above == (g.Keys - above') + {p};
      AcyclicIsBounded(s, from, q, above');
    }
  }

  lemma {:induction false} BoundedPath(s: Snapshot, path: seq<FilePath>, depth: nat)
    requires IsPath(PathGraph(s), path) && DepthAtMost(s, path[0], depth)
    ensures |path| <= depth + 1
    ensures DepthAtMost(s, path[|path| - 1], depth)
    decreases |path|
  {
    if |path| > 1 {
      assert Edge(PathGraph(s), path[0], path[1]);
      BoundedPath(s, path[1..], depth - 1);
      DepthGrows(s, path[|path| - 1], depth - 1);
    }
  }

  lemma {:induction false} DepthGrows(s: Snapshot, p: FilePath, depth: nat)
    requires DepthAtMost(s, p, depth)
    ensures DepthAtMost(s, p, depth + 1)
    decreases depth
  {
    forall q | Edge(PathGraph(s), p, q) ensures DepthAtMost(s, q, depth) {
      DepthGrows(s, q, depth - 1);
    }
  }

  lemma {:induction false} NoCycleWithin(s: Snapshot, p: FilePath, depth: nat)
    requires DepthAtMost(s, p, depth)
    ensures !ReachPlus(PathGraph(s), p, p)
    decreases depth
  {
    hide PathGraph, Edge, Reach;
    var g := PathGraph(s);
    if ReachPlus(g, p, p) {
      var q :| Edge(g, p, q) && Reach(g, q, p);
      ReachIsPlus(g, q, p, q);
      NoCycleWithin(s, q, depth - 1);
    }
  }

  /** The check comes to an end exactly when the path dependencies have no cycle. */
  lemma BoundedExactlyWhenAcyclic(s: Snapshot, from: FilePath)
    ensures (exists depth: nat :: DepthAtMost(s, from, depth)) <==> Acyclic(s, from)
  {
    var g := PathGraph(s);
    if depth: nat :| DepthAtMost(s, from, depth) {
      forall p | Reach(g, from, p) ensures !ReachPlus(g, p, p) {
        var path :| IsPath(g, path) && path[0] == from && path[|path| - 1] == p;
        BoundedPath(s, path, depth);
        NoCycleWithin(s, p, depth);
      }
    }
    if Acyclic(s, from) {
      ReachSelf(g, from);
      AcyclicIsBounded(s, from, from, {});
      assert DepthAtMost(s, from, |g.Keys - {}|);
    }
  }

  // The check

  /** The order in which the dependencies of each path package are gone through. */
  type Order = FilePath -> seq<string>

  ghost predicate Visits(s: Snapshot, order: Order) {
    forall p: FilePath, name | PathPkg(p) in s.manifests ::
      name in order(p) <==> name in s.manifests[PathPkg(p)].dependencies
  }

  datatype Answer = Yes | No | Unfinished

  /**
   The answer of the check for one package, if it comes within `fuel` levels of path dependencies. The
   check stops at the first dependency that is out of date, and has no memory of the packages it has
   been through.
   */
  function Check(s: Snapshot, lock: LockFile, order: Order, path: FilePath, parent: Option<LockFileEntry>,
                 fuel: nat): Answer
    requires PathsClosed(s) && Visits(s, order) && PathPkg(path) in s.manifests
    decreases fuel, 2
  {
    CheckAll(s, lock, order, path, parent, order(path), fuel)
  }

  function CheckAll(s: Snapshot, lock: LockFile, order: Order, path: FilePath, parent: Option<LockFileEntry>,
                    names: seq<string>, fuel: nat): Answer
    requires PathsClosed(s) && Visits(s, order) && PathPkg(path) in s.manifests
    requires forall name <- names :: name in s.manifests[PathPkg(path)].dependencies
    decreases fuel, 1, |names|
  {
    if names == [] then Yes else
    var first := CheckOne(s, lock, order, path, parent, names[0], fuel);
    if first == Yes then CheckAll(s, lock, order, path, parent, names[1..], fuel) else first
  }

  /** The check for one dependency of a package. */
  function CheckOne(s: Snapshot, lock: LockFile, order: Order, path: FilePath, parent: Option<LockFileEntry>,
                    name: string, fuel: nat): Answer
    requires PathsClosed(s) && Visits(s, order) && PathPkg(path) in s.manifests
    requires name in s.manifests[PathPkg(path)].dependencies
    decreases fuel, 0
  {
    var dep := s.manifests[PathPkg(path)].dependencies[name];
    var locked := LockedDep(lock, parent, name);
    if locked.None? || locked.value.name !in lock.packages then No else
    var entry := lock.packages[locked.value.name];
    if !Matches(dep, locked.value, entry.precise) then No
    else if !dep.PathDep? then Yes
    else if fuel == 0 then Unfinished
    else
      ChildIsThere(s, path, dep);
      Check(s, lock, order, ChildPath(path, dep.path), Some(entry), fuel - 1)
  }

  lemma ChildIsThere(s: Snapshot, path: FilePath, dep: Dependency)
    requires PathsClosed(s) && PathPkg(path) in s.manifests
    requires dep in s.manifests[PathPkg(path)].dependencies.Values && dep.PathDep?
    ensures PathPkg(ChildPath(path, dep.path)) in s.manifests && Edge(PathGraph(s), path, ChildPath(path, dep.path))
  {
    PathEdges(s, path, ChildPath(path, dep.path));
  }

  /** The check with its loop, which is left at the first dependency that is out of date. */
  method UpToDateRec(s: Snapshot, lock: LockFile, order: Order, path: FilePath, parent: Option<LockFileEntry>,
                     ghost fuel: nat) returns (r: bool)
    requires PathsClosed(s) && Visits(s, order) && PathPkg(path) in s.manifests
    requires Check(s, lock, order, path, parent, fuel) != Unfinished
    ensures Check(s, lock, order, path, parent, fuel) == (if r then Yes else No)
    decreases fuel
  {
    hide PathsClosed, Matches;
    var names := order(path);
    var deps := s.manifests[PathPkg(path)].dependencies;
    for i := 0 to |names|
      invariant Check(s, lock, order, path, parent, fuel) == CheckAll(s, lock, order, path, parent, names[i..], fuel)
    {
      var name := names[i];
      assert names[i..][0] == name && names[i..][1..] == names[i + 1..];
      var locked := LockedDep(lock, parent, name);
      if locked.None? || locked.value.name !in lock.packages {
        return false;
      }
      var entry := lock.packages[locked.value.name];
      if !Matches(deps[name], locked.value, entry.precise) {
        return false;
      }
      if deps[name].PathDep? {
        ChildIsThere(s, path, deps[name]);
        var below := UpToDateRec(s, lock, order, ChildPath(path, deps[name].path), Some(entry), fuel - 1);
        if !below {
          return false;
        }
      }
    }
    r := true;
  }

  // More fuel gives no other answer

  lemma {:induction false} MoreFuel(s: Snapshot, lock: LockFile, order: Order, path: FilePath,
                                    parent: Option<LockFileEntry>, fuel: nat, more: nat)
    requires PathsClosed(s) && Visits(s, order) && PathPkg(path) in s.manifests && fuel <= more
    requires Check(s, lock, order, path, parent, fuel) != Unfinished
    ensures Check(s, lock, order, path, parent, more) == Check(s, lock, order, path, parent, fuel)
    decreases fuel, 2
  {
    MoreFuelAll(s, lock, order, path, parent, order(path), fuel, more);
  }

  lemma {:induction false} MoreFuelAll(s: Snapshot, lock: LockFile, order: Order, path: FilePath,
                                       parent: Option<LockFileEntry>, names: seq<string>, fuel: nat, more: nat)
    requires PathsClosed(s) && Visits(s, order) && PathPkg(path) in s.manifests && fuel <= more
    requires forall name <- names :: name in s.manifests[PathPkg(path)].dependencies
    requires CheckAll(s, lock, order, path, parent, names, fuel) != Unfinished
    ensures CheckAll(s, lock, order, path, parent, names, more) == CheckAll(s, lock, order, path, parent, names, fuel)
    decreases fuel, 1, |names|
  {
    hide PathsClosed, Matches, Visits;
    if names != [] {
      var name := names[0];
      MoreFuelOne(s, lock, order, path, parent, name, fuel, more);
      if CheckOne(s, lock, order, path, parent, name, fuel) == Yes {
        MoreFuelAll(s, lock, order, path, parent, names[1..], fuel, more);
      }
    }
  }

  lemma {:induction false} MoreFuelOne(s: Snapshot, lock: LockFile, order: Order, path: FilePath,
                                       parent: Option<LockFileEntry>, name: string, fuel: nat, more: nat)
    requires PathsClosed(s) && Visits(s, order) && PathPkg(path) in s.manifests && fuel <= more
    requires name in s.manifests[PathPkg(path)].dependencies
    requires CheckOne(s, lock, order, path, parent, name, fuel) != Unfinished
    ensures CheckOne(s, lock, order, path, parent, name, more) == CheckOne(s, lock, order, path, parent, name, fuel)
    decreases fuel, 0
  {
    hide PathsClosed, Matches, Visits;
    var dep := s.manifests[PathPkg(path)].dependencies[name];
    var locked := LockedDep(lock, parent, name);
    if locked.Some? && locked.value.name in lock.packages && dep.PathDep? && fuel > 0 {
      var entry := lock.packages[locked.value.name];
      if Matches(dep, locked.value, entry.precise) {
        ChildIsThere(s, path, dep);
        MoreFuel(s, lock, order, ChildPath(path, dep.path), Some(entry), fuel - 1, more - 1);
      }
    }
  }

  // Enough fuel, and what an answer says

  /** All dependencies of a package are found up to date. */
  ghost predicate AllUpToDate(s: Snapshot, lock: LockFile, order: Order, path: FilePath, parent: Option<LockFileEntry>,
                              fuel: nat)
    requires PathsClosed(s) && Visits(s, order) && PathPkg(path) in s.manifests
  {
    forall name <- s.manifests[PathPkg(path)].dependencies :: CheckOne(s, lock, order, path, parent, name, fuel) == Yes
  }

  lemma {:induction false} CheckAllYes(s: Snapshot, lock: LockFile, order: Order, path: FilePath,
                                       parent: Option<LockFileEntry>, names: seq<string>, fuel: nat)
    requires PathsClosed(s) && Visits(s, order) && PathPkg(path) in s.manifests
    requires forall name <- names :: name in s.manifests[PathPkg(path)].dependencies
    ensures CheckAll(s, lock, order, path, parent, names, fuel) == Yes <==>
            forall name <- names :: CheckOne(s, lock, order, path, parent, name, fuel) == Yes
    decreases |names|
  {
    hide PathsClosed, Visits, CheckOne;
    if names != [] {
      CheckAllYes(s, lock, order, path, parent, names[1..], fuel);
      if CheckAll(s, lock, order, path, parent, names, fuel) == Yes {
        forall name <- names ensures CheckOne(s, lock, order, path, parent, name, fuel) == Yes {
          assert name == names[0] || name in names[1..];
        }
      } else if CheckOne(s, lock, order, path, parent, names[0], fuel) == Yes {
        var name :| name in names[1..] && CheckOne(s, lock, order, path, parent, name, fuel) != Yes;
        assert name in names;
      } else {
        assert names[0] in names;
      }
    }
  }

  /** The answer is yes exactly when every dependency is up to date, whatever the order. */
  lemma YesMeansAll(s: Snapshot, lock: LockFile, order: Order, path: FilePath, parent: Option<LockFileEntry>, fuel: nat)
    requires PathsClosed(s) && Visits(s, order) && PathPkg(path) in s.manifests
    ensures Check(s, lock, order, path, parent, fuel) == Yes <==> AllUpToDate(s, lock, order, path, parent, fuel)
  {
    hide PathsClosed, CheckOne, CheckAll;
    CheckAllYes(s, lock, order, path, parent, order(path), fuel);
  }

  lemma {:induction false} CheckAllAnswers(s: Snapshot, lock: LockFile, order: Order, path: FilePath,
                                           parent: Option<LockFileEntry>, names: seq<string>, fuel: nat)
    requires PathsClosed(s) && Visits(s, order) && PathPkg(path) in s.manifests
    requires forall name <- names :: name in s.manifests[PathPkg(path)].dependencies
    requires forall name <- names :: CheckOne(s, lock, order, path, parent, name, fuel) != Unfinished
    ensures CheckAll(s, lock, order, path, parent, names, fuel) != Unfinished
    decreases |names|
  {
    hide PathsClosed, Visits, CheckOne;
    if names != [] {
      CheckAllAnswers(s, lock, order, path, parent, names[1..], fuel);
    }
  }

  /** With as many levels as there are, the check answers. */
  lemma {:induction false} EnoughFuel(s: Snapshot, lock: LockFile, order: Order, path: FilePath,
                                      parent: Option<LockFileEntry>, fuel: nat)
    requires PathsClosed(s) && Visits(s, order) && PathPkg(path) in s.manifests && DepthAtMost(s, path, fuel)
    ensures Check(s, lock, order, path, parent, fuel) != Unfinished
    decreases fuel
  {
    var deps := s.manifests[PathPkg(path)].dependencies;
    hide PathsClosed, Matches, PathGraph, CheckAll;
    forall name <- order(path) ensures CheckOne(s, lock, order, path, parent, name, fuel) != Unfinished {
      if deps[name].PathDep? {
        ChildIsThere(s, path, deps[name]);
        var locked := LockedDep(lock, parent, name);
        if locked.Some? && locked.value.name in lock.packages {
          EnoughFuel(s, lock, order, ChildPath(path, deps[name].path), Some(lock.packages[locked.value.name]),
                     fuel - 1);
        }
      }
    }
    CheckAllAnswers(s, lock, order, path, parent, order(path), fuel);
  }

  /** A yes means that all chains of path dependencies have been followed to their end. */
  lemma {:induction false} YesIsBounded(s: Snapshot, lock: LockFile, order: Order, path: FilePath,
                                        parent: Option<LockFileEntry>, fuel: nat)
    requires PathsClosed(s) && Visits(s, order) && PathPkg(path) in s.manifests
    requires Check(s, lock, order, path, parent, fuel) == Yes
    ensures DepthAtMost(s, path, fuel)
    decreases fuel
  {
    YesMeansAll(s, lock, order, path, parent, fuel);
    hide PathsClosed, Visits, Matches, PathGraph, CheckAll, Edge;
    var deps := s.manifests[PathPkg(path)].dependencies;
    forall q | Edge(PathGraph(s), path, q) ensures fuel > 0 && DepthAtMost(s, q, fuel - 1) {
      PathEdges(s, path, q);
      var d :| d in deps.Values && d.PathDep? && ChildPath(path, d.path) == q;
      var name :| name in deps && deps[name] == d;
      assert CheckOne(s, lock, order, path, parent, name, fuel) == Yes;
      YesIsBounded(s, lock, order, q, Some(lock.packages[LockedDep(lock, parent, name).value.name]), fuel - 1);
    }
  }

  // Fresh lock files

  lemma CompleteIsClosed(w: World, m: Manifest, s: Snapshot)
    requires Complete(w, m, s)
    ensures PathsClosed(s)
  {
    hide Normalize, ManifestOf;
    forall p, q | Edge(PathGraph(s), p, q) ensures PathPkg(q) in s.manifests {
      PathEdges(s, p, q);
      var d :| d in s.manifests[PathPkg(p)].dependencies.Values && d.PathDep? && ChildPath(p, d.path) == q;
      assert Asks(s, PathPkg(p), d) && Covered(s, PathPkg(p));
      assert s.dependency[(PathPkg(p), d)] == PathPkg(q);
    }
  }

  /** In a complete snapshot the check and the resolution agree on which package a path leads to. */
  lemma ChildIsTarget(w: World, m: Manifest, r: Resolution, path: FilePath, dep: Dependency)
    requires Complete(w, m, r.snapshot) && Asks(r.snapshot, PathPkg(path), dep) && dep.PathDep?
    ensures Target(r, Unversioned(PathPkg(path)), dep) == Some(Unversioned(PathPkg(ChildPath(path, dep.path))))
  {
    hide Normalize, ManifestOf;
    assert Covered(r.snapshot, PathPkg(path));
  }

  /** The recorded dependency of a package matches what the package asks for. */
  lemma RecordedMatches(r: Resolution, dep: Dependency, target: PrecisePkg, name: EntryName)
    requires dep.IndexDep? ==> IndexTarget(r, dep.index) == Some(target)
    ensures Matches(dep, LockFileDep(name, SpecOf(dep)), ToLock(target))
  {
    if dep.IndexDep? {
      TargetIsListed(r, dep.index);
    }
  }

  /** What the lock file records under `name` matches `dep`, and if it is a path leads to the entry of its package. */
  ghost predicate Fresh(m: Manifest, r: Resolution, lock: LockFile, naming: Naming, path: FilePath, dep: Dependency,
                        locked: Option<LockFileDep>) {
    && locked.Some? && locked.value.name in lock.packages
    && Matches(dep, locked.value, lock.packages[locked.value.name].precise)
    && (dep.PathDep? ==>
          var child := Unversioned(PathPkg(ChildPath(path, dep.path)));
          Needed(m, r, child) && child in naming && locked.value.name == naming[child])
  }

  lemma FreshEntry(w: World, m: Manifest, r: Resolution, lock: LockFile, naming: Naming, path: FilePath, name: string)
    requires Complete(w, m, r.snapshot) && Locks(m, r, lock, naming) && Needed(m, r, Unversioned(PathPkg(path)))
    requires PathPkg(path) in r.snapshot.manifests && name in r.snapshot.manifests[PathPkg(path)].dependencies
    requires Unversioned(PathPkg(path)) in naming && naming[Unversioned(PathPkg(path))] in lock.packages
    ensures Fresh(m, r, lock, naming, path, r.snapshot.manifests[PathPkg(path)].dependencies[name],
                  LockedDep(lock, Some(lock.packages[naming[Unversioned(PathPkg(path))]]), name))
  {
    var p := Unversioned(PathPkg(path));
    var dep := r.snapshot.manifests[PathPkg(path)].dependencies[name];
    hide Complete, Needed, Normalize, Locks, Matches, Target, IndexTarget;
    EntryFor(m, r, lock, naming, p);
    assert dep in r.snapshot.manifests[PathPkg(path)].dependencies.Values;
    var i := Imports(r, p)[name];
    assert i in Imports(r, p).Values;
    TargetIsNeeded(m, r, p, i.target);
    EntryFor(m, r, lock, naming, i.target);
    IndexImport(r, p, name);
    RecordedMatches(r, dep, i.target, naming[i.target]);
    if dep.PathDep? {
      ChildIsTarget(w, m, r, path, dep);
    }
  }

  lemma RootRecorded(m: Manifest, r: Resolution, lock: LockFile, naming: Naming, name: string)
    requires Locks(m, r, lock, naming) && name in m.dependencies
    ensures
      var target := Precise(r, m.dependencies[name]);
      target.Some? && target.value in naming
        && LockedDep(lock, None, name) == Some(LockFileDep(naming[target.value], SpecOf(m.dependencies[name])))
  {
    hide Needed, Precise, Entry;
    assert m.dependencies[name] in m.dependencies.Values;
  }

  lemma FreshRootEntry(w: World, m: Manifest, r: Resolution, lock: LockFile, naming: Naming, name: string)
    requires Complete(w, m, r.snapshot) && Locks(m, r, lock, naming) && name in m.dependencies
    ensures Fresh(m, r, lock, naming, EMPTY_PATH, m.dependencies[name], LockedDep(lock, None, name))
  {
    hide Complete, Needed, Normalize, Matches, IndexTarget, Locks, LockedDep, Resolved, Resolves;
    var dep := m.dependencies[name];
    RootRecorded(m, r, lock, naming, name);
    var target := Precise(r, dep).value;
    RootIsNeeded(m, r, name);
    EntryFor(m, r, lock, naming, target);
    RecordedMatches(r, dep, target, naming[target]);
    if dep.PathDep? {
      LockResolves(m, r, lock, naming);
      assert dep in m.dependencies.Values && Join(EMPTY_PATH, dep.path) == dep.path;
      ResolvedRootIsNormal(w, m, r, dep);
    }
  }

  lemma LockResolves(m: Manifest, r: Resolution, lock: LockFile, naming: Naming)
    requires Locks(m, r, lock, naming)
    ensures Resolves(m, r)
  {
    hide Resolves;
  }

  /** On a fresh lock file no dependency of a package in the tree is found out of date. */
  lemma {:induction false} FreshBelow(w: World, m: Manifest, r: Resolution, lock: LockFile, naming: Naming,
                                      order: Order, path: FilePath, fuel: nat)
    requires Complete(w, m, r.snapshot) && Locks(m, r, lock, naming) && Needed(m, r, Unversioned(PathPkg(path)))
    requires PathPkg(path) in r.snapshot.manifests && PathsClosed(r.snapshot) && Visits(r.snapshot, order)
    requires Unversioned(PathPkg(path)) in naming && naming[Unversioned(PathPkg(path))] in lock.packages
    ensures Check(r.snapshot, lock, order, path, Some(lock.packages[naming[Unversioned(PathPkg(path))]]), fuel) != No
    decreases fuel
  {
    hide Complete, Needed, PathsClosed, Locks, Matches, CheckAll, ChildPath, LockedDep;
    var s := r.snapshot;
    var parent := Some(lock.packages[naming[Unversioned(PathPkg(path))]]);
    forall name <- order(path) ensures CheckOne(s, lock, order, path, parent, name, fuel) != No {
      var dep := s.manifests[PathPkg(path)].dependencies[name];
      FreshEntry(w, m, r, lock, naming, path, name);
      if dep.PathDep? && fuel > 0 {
        ChildIsThere(s, path, dep);
        FreshBelow(w, m, r, lock, naming, order, ChildPath(path, dep.path), fuel - 1);
      }
    }
    NoneSaysNo(s, lock, order, path, parent, order(path), fuel);
  }

  lemma {:induction false} NoneSaysNo(s: Snapshot, lock: LockFile, order: Order, path: FilePath,
                                      parent: Option<LockFileEntry>, names: seq<string>, fuel: nat)
    requires PathsClosed(s) && Visits(s, order) && PathPkg(path) in s.manifests
    requires forall name <- names :: name in s.manifests[PathPkg(path)].dependencies
    requires forall name <- names :: CheckOne(s, lock, order, path, parent, name, fuel) != No
    ensures CheckAll(s, lock, order, path, parent, names, fuel) != No
    decreases |names|
  {
    hide PathsClosed, Visits, CheckOne;
    if names != [] {
      NoneSaysNo(s, lock, order, path, parent, names[1..], fuel);
    }
  }

  lemma IndexImport(r: Resolution, p: PrecisePkg, name: string)
    requires Resolved(r, p) && name in Imports(r, p)
    ensures var i := Imports(r, p)[name];
      i.dep.IndexDep? ==> IndexTarget(r, i.dep.index) == Some(i.target)
  {
    hide IndexTarget;
    assert Requested(r, p).value[name] in Requested(r, p).value.Values;
  }

  lemma RootIsThere(w: World, m: Manifest, s: Snapshot)
    requires Complete(w, m, s)
    ensures ROOT == PathPkg(EMPTY_PATH) && ROOT in s.manifests && s.manifests[ROOT] == m
  {
  }

  lemma FreshAtRoot(w: World, m: Manifest, r: Resolution, lock: LockFile, naming: Naming, order: Order, fuel: nat)
    requires Complete(w, m, r.snapshot) && Locks(m, r, lock, naming) && PathsClosed(r.snapshot)
    requires Visits(r.snapshot, order)
    ensures ROOT in r.snapshot.manifests && Check(r.snapshot, lock, order, EMPTY_PATH, None, fuel) != No
  {
    hide Complete, Needed, PathsClosed, Locks, Matches, CheckAll, ChildPath, LockedDep;
    RootIsThere(w, m, r.snapshot);
    var s := r.snapshot;
    forall name <- order(EMPTY_PATH) ensures CheckOne(s, lock, order, EMPTY_PATH, None, name, fuel) != No {
      var dep := m.dependencies[name];
      FreshRootEntry(w, m, r, lock, naming, name);
      if dep.PathDep? && fuel > 0 {
        ChildIsThere(s, EMPTY_PATH, dep);
        FreshBelow(w, m, r, lock, naming, order, ChildPath(EMPTY_PATH, dep.path), fuel - 1);
      }
    }
    NoneSaysNo(s, lock, order, EMPTY_PATH, None, order(EMPTY_PATH), fuel);
  }

  /** The check comes to an end. */
  ghost predicate Answers(s: Snapshot, lock: LockFile, order: Order)
    requires PathsClosed(s) && Visits(s, order) && ROOT in s.manifests
  {
    exists fuel: nat :: Check(s, lock, order, EMPTY_PATH, None, fuel) != Unfinished
  }

  /**
   For the manifest and the snapshot that a lock file was made from, the check comes to an end exactly
   when the path dependencies have no cycle, and then it says that the lock file is up to date.
   */
  lemma FreshLockIsUpToDate(w: World, m: Manifest, r: Resolution, lock: LockFile, naming: Naming, order: Order)
    requires Complete(w, m, r.snapshot) && Locks(m, r, lock, naming) && Visits(r.snapshot, order)
    ensures ROOT in r.snapshot.manifests && PathsClosed(r.snapshot)
    ensures Answers(r.snapshot, lock, order) <==> Acyclic(r.snapshot, EMPTY_PATH)
    ensures forall fuel: nat :: Check(r.snapshot, lock, order, EMPTY_PATH, None, fuel) != No
  {
    var s := r.snapshot;
    hide Locks, PathsClosed, Acyclic, Check, DepthAtMost, DependenciesFit, Normalize, Visits;
    CompleteIsClosed(w, m, s);
    BoundedExactlyWhenAcyclic(s, EMPTY_PATH);
    forall fuel: nat ensures Check(s, lock, order, EMPTY_PATH, None, fuel) != No {
      FreshAtRoot(w, m, r, lock, naming, order, fuel);
    }
    if depth: nat :| DepthAtMost(s, EMPTY_PATH, depth) {
      EnoughFuel(s, lock, order, EMPTY_PATH, None, depth);
    }
    if fuel: nat :| Check(s, lock, order, EMPTY_PATH, None, fuel) != Unfinished {
      YesIsBounded(s, lock, order, EMPTY_PATH, None, fuel);
    }
  }

  // What a yes says of the lock file

  /** What the lock file records for `dep` is `d`: the same git dependency, or an entry with a version it accepts. */
  ghost predicate Records(lock: LockFile, dep: Dependency, d: Option<LockFileDep>) {
    && d.Some? && d.value.name in lock.packages
    && (dep.GitDep? ==> d.value.spec == Some(dep.git))
    && (dep.IndexDep? ==>
          exists v :: lock.packages[d.value.name].precise == LockIndex(dep.index.id, v) && dep.index.version.Matches(v))
  }

  lemma RecordsWhenMatched(lock: LockFile, dep: Dependency, d: Option<LockFileDep>)
    requires d.Some? && d.value.name in lock.packages
    ensures Records(lock, dep, d) <==> Matches(dep, d.value, lock.packages[d.value.name].precise)
  {
    var precise := lock.packages[d.value.name].precise;
    if dep.IndexDep? && precise.LockIndex? {
      assert precise == LockIndex(precise.id, precise.version);
    }
  }

  /** Where the check stands: at a path package, with the entry of the lock file that led there. */
  datatype Place = Place(path: FilePath, parent: Option<LockFileEntry>)

  const START := Place(EMPTY_PATH, None)

  /** Follows the path dependency of that name, if it is recorded. */
  function Next(s: Snapshot, lock: LockFile, at: Place, name: string): Option<Place> {
    if PathPkg(at.path) !in s.manifests then None else
    var deps := s.manifests[PathPkg(at.path)].dependencies;
    if name !in deps || !deps[name].PathDep? then None else
    var d := LockedDep(lock, at.parent, name);
    if d.None? || d.value.name !in lock.packages then None
    else Some(Place(ChildPath(at.path, deps[name].path), Some(lock.packages[d.value.name])))
  }

  function WalkTo(s: Snapshot, lock: LockFile, at: Place, names: seq<string>): Option<Place>
    decreases |names|
  {
    if names == [] then Some(at) else
    var next := Next(s, lock, at, names[0]);
    if next.None? then None else WalkTo(s, lock, next.value, names[1..])
  }

  ghost predicate RecordedAt(s: Snapshot, lock: LockFile, at: Place) {
    PathPkg(at.path) in s.manifests ==>
      forall name <- s.manifests[PathPkg(at.path)].dependencies ::
        Records(lock, s.manifests[PathPkg(at.path)].dependencies[name], LockedDep(lock, at.parent, name))
  }

  /** Wherever path dependencies lead, everything that is asked for is recorded. */
  ghost predicate AllRecorded(s: Snapshot, lock: LockFile, at: Place) {
    forall names: seq<string> | WalkTo(s, lock, at, names).Some? ::
      RecordedAt(s, lock, WalkTo(s, lock, at, names).value)
  }

  lemma {:induction false} YesIsRecorded(s: Snapshot, lock: LockFile, order: Order, at: Place, fuel: nat,
                                         names: seq<string>)
    requires PathsClosed(s) && Visits(s, order) && PathPkg(at.path) in s.manifests
    requires Check(s, lock, order, at.path, at.parent, fuel) == Yes && WalkTo(s, lock, at, names).Some?
    ensures RecordedAt(s, lock, WalkTo(s, lock, at, names).value)
    decreases |names|
  {
    hide PathsClosed, Visits, Matches, CheckAll, Records, ChildPath;
    YesMeansAll(s, lock, order, at.path, at.parent, fuel);
    var deps := s.manifests[PathPkg(at.path)].dependencies;
    if names == [] {
      forall name <- deps ensures Records(lock, deps[name], LockedDep(lock, at.parent, name)) {
        assert CheckOne(s, lock, order, at.path, at.parent, name, fuel) == Yes;
        RecordsWhenMatched(lock, deps[name], LockedDep(lock, at.parent, name));
      }
    } else {
      ChildIsThere(s, at.path, deps[names[0]]);
      assert CheckOne(s, lock, order, at.path, at.parent, names[0], fuel) == Yes;
      YesIsRecorded(s, lock, order, Next(s, lock, at, names[0]).value, fuel - 1, names[1..]);
    }
  }

  lemma RecordedBelow(s: Snapshot, lock: LockFile, at: Place, name: string)
    requires AllRecorded(s, lock, at) && Next(s, lock, at, name).Some?
    ensures AllRecorded(s, lock, Next(s, lock, at, name).value)
  {
    hide RecordedAt, Next;
    var below := Next(s, lock, at, name).value;
    forall names: seq<string> | WalkTo(s, lock, below, names).Some?
      ensures RecordedAt(s, lock, WalkTo(s, lock, below, names).value)
    {
      assert ([name] + names)[1..] == names;
      assert WalkTo(s, lock, at, [name] + names) == WalkTo(s, lock, below, names);
    }
  }

  lemma {:induction false} RecordedIsNeverNo(s: Snapshot, lock: LockFile, order: Order, at: Place, fuel: nat)
    requires PathsClosed(s) && Visits(s, order) && PathPkg(at.path) in s.manifests && AllRecorded(s, lock, at)
    ensures Check(s, lock, order, at.path, at.parent, fuel) != No
    decreases fuel
  {
    hide PathsClosed, Matches, CheckAll, ChildPath, AllRecorded, Records;
    var deps := s.manifests[PathPkg(at.path)].dependencies;
    RecordedHere(s, lock, at);
    forall name <- order(at.path) ensures CheckOne(s, lock, order, at.path, at.parent, name, fuel) != No {
      var d := LockedDep(lock, at.parent, name);
      RecordedIsThere(lock, deps[name], d);
      RecordsWhenMatched(lock, deps[name], d);
      if deps[name].PathDep? && fuel > 0 {
        ChildIsThere(s, at.path, deps[name]);
        RecordedBelow(s, lock, at, name);
        RecordedIsNeverNo(s, lock, order, Next(s, lock, at, name).value, fuel - 1);
      }
    }
    NoneSaysNo(s, lock, order, at.path, at.parent, order(at.path), fuel);
  }

  lemma RecordedIsThere(lock: LockFile, dep: Dependency, d: Option<LockFileDep>)
    requires Records(lock, dep, d)
    ensures d.Some? && d.value.name in lock.packages
  {
  }

  lemma RecordedHere(s: Snapshot, lock: LockFile, at: Place)
    requires AllRecorded(s, lock, at)
    ensures RecordedAt(s, lock, at)
  {
    hide RecordedAt;
    assert WalkTo(s, lock, at, []) == Some(at);
  }

  /**
   The check says yes exactly when path dependencies have no cycle and, wherever they lead, everything that
   is asked for is recorded.
   */
  lemma UpToDateExactlyWhen(s: Snapshot, lock: LockFile, order: Order)
    requires PathsClosed(s) && Visits(s, order) && ROOT in s.manifests
    ensures (exists fuel: nat :: Check(s, lock, order, EMPTY_PATH, None, fuel) == Yes) <==>
            Acyclic(s, EMPTY_PATH) && AllRecorded(s, lock, START)
  {
    hide PathsClosed, Visits, Check, Acyclic, RecordedAt, DepthAtMost;
    BoundedExactlyWhenAcyclic(s, EMPTY_PATH);
    if fuel: nat :| Check(s, lock, order, EMPTY_PATH, None, fuel) == Yes {
      YesIsBounded(s, lock, order, EMPTY_PATH, None, fuel);
      forall names: seq<string> | WalkTo(s, lock, START, names).Some?
        ensures RecordedAt(s, lock, WalkTo(s, lock, START, names).value)
      {
        YesIsRecorded(s, lock, order, START, fuel, names);
      }
    }
    if Acyclic(s, EMPTY_PATH) && AllRecorded(s, lock, START) {
      var depth: nat :| DepthAtMost(s, EMPTY_PATH, depth);
      EnoughFuel(s, lock, order, EMPTY_PATH, None, depth);
      RecordedIsNeverNo(s, lock, order, START, depth);
      assert Check(s, lock, order, EMPTY_PATH, None, depth) == Yes;
    }
  }

  /** A git dependency of the root that the lock file does not record as it is asked for is noticed. */
  lemma StaleGitIsNoticed(s: Snapshot, lock: LockFile, order: Order, name: string, fuel: nat)
    requires PathsClosed(s) && Visits(s, order) && ROOT in s.manifests && name in s.manifests[ROOT].dependencies
    requires s.manifests[ROOT].dependencies[name].GitDep?
    requires name in lock.dependencies ==>
             lock.dependencies[name].spec != Some(s.manifests[ROOT].dependencies[name].git)
    ensures Check(s, lock, order, EMPTY_PATH, None, fuel) != Yes
  {
    hide PathsClosed, Visits, Check;
    if Check(s, lock, order, EMPTY_PATH, None, fuel) == Yes {
      YesIsRecorded(s, lock, order, START, fuel, []);
    }
  }

  /** The check as it is called on a root manifest, whenever it comes to an end. */
  method IsLockFileUpToDate(s: Snapshot, lock: LockFile, order: Order) returns (r: bool)
    requires ROOT in s.manifests && PathsClosed(s) && Visits(s, order) && Answers(s, lock, order)
    ensures forall fuel: nat | Check(s, lock, order, EMPTY_PATH, None, fuel) != Unfinished ::
              Check(s, lock, order, EMPTY_PATH, None, fuel) == (if r then Yes else No)
    ensures r <==> Acyclic(s, EMPTY_PATH) && AllRecorded(s, lock, START)
    ensures r ==> forall p, dep | Reach(PathGraph(s), EMPTY_PATH, p) && Asks(s, PathPkg(p), dep) :: Locked(lock, dep)
  {
    hide Check, PathsClosed, Visits, Acyclic, AllRecorded, Reach, Locked, PathGraph;
    ghost var fuel: nat :| Check(s, lock, order, EMPTY_PATH, None, fuel) != Unfinished;
    r := UpToDateRec(s, lock, order, EMPTY_PATH, None, fuel);
    forall more: nat | Check(s, lock, order, EMPTY_PATH, None, more) != Unfinished
      ensures Check(s, lock, order, EMPTY_PATH, None, more) == (if r then Yes else No)
    {
      MoreFuel(s, lock, order, EMPTY_PATH, None, if fuel <= more then fuel else more,
               if fuel <= more then more else fuel);
    }
    UpToDateExactlyWhen(s, lock, order);
    if r {
      forall p, dep | Reach(PathGraph(s), EMPTY_PATH, p) && Asks(s, PathPkg(p), dep) ensures Locked(lock, dep) {
        UpToDateRecords(s, lock, order, fuel, p, dep);
      }
    }
  }

  function IndexVersion(packages: map<PackageId, seq<Versions.SemVer>>, dep: IndexDependency): Option<Versions.SemVer> {
    IndexDepVersion(Resolution(Snapshot(map[], map[], map[]), map[], packages), dep)
  }

  /** The lock file records the dependency somewhere. */
  ghost predicate Locked(lock: LockFile, dep: Dependency) {
    exists d: LockFileDep :: InLock(lock, d) && Records(lock, dep, Some(d))
  }

  /** An up-to-date lock file records every dependency of the path packages that are in reach. */
  lemma UpToDateRecords(s: Snapshot, lock: LockFile, order: Order, fuel: nat, p: FilePath, dep: Dependency)
    requires PathsClosed(s) && Visits(s, order) && ROOT in s.manifests
    requires Check(s, lock, order, EMPTY_PATH, None, fuel) == Yes
    requires Reach(PathGraph(s), EMPTY_PATH, p) && Asks(s, PathPkg(p), dep)
    ensures Locked(lock, dep)
    ensures dep.IndexDep? ==> IndexVersion(LockedVersions(lock), dep.index).Some?
  {
    hide Check, PathsClosed, Visits, PathGraph, Matches, IndexVersion, Records;
    var chain :| IsPath(PathGraph(s), chain) && chain[0] == EMPTY_PATH && chain[|chain| - 1] == p;
    RecordsAlong(s, lock, order, None, fuel, chain, dep);
    if dep.IndexDep? {
      var d: LockFileDep :| InLock(lock, d) && Records(lock, dep, Some(d));
      LockedMatchAnswers(lock, dep.index, d);
    }
  }

  lemma {:induction false} RecordsAlong(s: Snapshot, lock: LockFile, order: Order, parent: Option<LockFileEntry>,
                                        fuel: nat, chain: seq<FilePath>, dep: Dependency)
    requires IsPath(PathGraph(s), chain) && PathsClosed(s) && Visits(s, order) && PathPkg(chain[0]) in s.manifests
    requires Check(s, lock, order, chain[0], parent, fuel) == Yes
    requires parent.Some? ==> parent.value in lock.packages.Values
    requires Asks(s, PathPkg(chain[|chain| - 1]), dep)
    ensures Locked(lock, dep)
    decreases |chain|
  {
    hide PathsClosed, Visits, PathGraph, Matches, CheckAll, Records;
    YesMeansAll(s, lock, order, chain[0], parent, fuel);
    var deps := s.manifests[PathPkg(chain[0])].dependencies;
    if |chain| == 1 {
      var name :| name in deps && deps[name] == dep;
      assert CheckOne(s, lock, order, chain[0], parent, name, fuel) == Yes;
      assert InLock(lock, LockedDep(lock, parent, name).value);
      RecordsWhenMatched(lock, dep, LockedDep(lock, parent, name));
    } else {
      assert Edge(PathGraph(s), chain[0], chain[1]);
      PathEdges(s, chain[0], chain[1]);
      var d :| d in deps.Values && d.PathDep? && ChildPath(chain[0], d.path) == chain[1];
      var name :| name in deps && deps[name] == d;
      ChildIsThere(s, chain[0], d);
      assert CheckOne(s, lock, order, chain[0], parent, name, fuel) == Yes;
      RecordsAlong(s, lock, order, Some(lock.packages[LockedDep(lock, parent, name).value.name]), fuel - 1, chain[1..],
                   dep);
    }
  }

  lemma LockedMatchAnswers(lock: LockFile, dep: IndexDependency, locked: LockFileDep)
    requires Records(lock, IndexDep(dep), Some(locked))
    ensures IndexVersion(LockedVersions(lock), dep).Some?
  {
    var entry := lock.packages[locked.name];
    assert entry in lock.packages.Values;
    assert entry.precise.version in VersionsIn(lock.packages.Values, dep.id);
    Versions.FirstMatchIsLeast(LockedVersions(lock)[dep.id], dep.version);
  }

  /**
   * Locking again with a fresh lock file: the snapshot is the one the file was made from, the file is
   * found up to date and kept, and the resolution copied out of it resolves the whole tree as before.
   */
  method LockAgain(v: World, m: Manifest, ghost r: Resolution, lock: LockFile, ghost naming: Naming, w: World,
                   order: Order, index: map<(PackageId, Versions.SemVer), map<string, IndexDependency>>)
    returns (kept: bool, again: Resolution)
    requires Complete(v, m, r.snapshot) && SnapshotTree.SnapshotOf(v, m, r.snapshot) && Locks(m, r, lock, naming)
    requires Ordered(r)
    requires w.gitDir == v.gitDir && w.disk == v.disk && index == r.index && Visits(r.snapshot, order)
    requires Acyclic(r.snapshot, EMPTY_PATH)
    ensures kept && again.snapshot == r.snapshot && Agree(m, r, again) && Locks(m, again, lock, naming)
    ensures forall p :: Needed(m, again, p) <==> Needed(m, r, p)
  {
    hide Complete, SnapshotTree.SnapshotOf, Locks, Ordered, Acyclic, PathsClosed, Check, Visits, Needed, Agree, Reach,
         Locked;
    var outcome, snap := LockedSnapshot(v, m, r, lock, naming, w);
    FreshLockIsUpToDate(v, m, r, lock, naming, order);
    kept := IsLockFileUpToDate(snap, lock, order);
    var versions := CopyFromLock(lock);
    again := Resolution(snap, index, versions);
    RoundTrip(m, r, lock, naming);
    assert again == Rebuilt(r, lock);
  }
}
