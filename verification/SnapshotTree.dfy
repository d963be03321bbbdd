/** The package tree that a fixed world determines, and what it means for a snapshot to be that tree. */
module SnapshotTree {
  import opened Types
  import opened Packages
  import opened LockFiles
  import opened Snapshots

  /** The package that a dependency stands for when every commit is what fetching gives. */
  function Step(v: World, u: UnversionedPkg, dep: Dependency): Option<UnversionedPkg> {
    match dep
    case GitDep(git) =>
      (match Absolute(git, u)
       case None => None
       case Some(abs) => if abs in v.fetch then Some(GitPkg(abs.url, v.fetch[abs], abs.path)) else None)
    case PathDep(path) => PathTarget(v, u, path)
    case IndexDep(_) => None
  }

  ghost predicate Child(v: World, m: Manifest, u: UnversionedPkg, t: UnversionedPkg) {
    ManifestOf(v, m, u).Some?
      && exists dep <- ManifestOf(v, m, u).value.dependencies.Values :: Step(v, u, dep) == Some(t)
  }

  ghost predicate Chain(v: World, m: Manifest, p: seq<UnversionedPkg>) {
    |p| > 0 && p[0] == ROOT && forall i :: 0 <= i < |p| - 1 ==> Child(v, m, p[i], p[i + 1])
  }

  ghost predicate Reachable(v: World, m: Manifest, u: UnversionedPkg) {
    exists p :: Chain(v, m, p) && p[|p| - 1] == u
  }

  /** Nothing in the tree is missing. */
  ghost predicate Sound(v: World, m: Manifest) {
    forall u | Reachable(v, m, u) ::
      && ManifestOf(v, m, u).Some?
      && forall dep <- ManifestOf(v, m, u).value.dependencies.Values | !dep.IndexDep? :: Step(v, u, dep).Some?
  }

  lemma RootIsReachable(v: World, m: Manifest)
    ensures Reachable(v, m, ROOT)
  {
    assert Chain(v, m, [ROOT]);
  }

  lemma ChildIsReachable(v: World, m: Manifest, u: UnversionedPkg, t: UnversionedPkg)
    requires Reachable(v, m, u) && Child(v, m, u, t)
    ensures Reachable(v, m, t)
  {
    var p :| Chain(v, m, p) && p[|p| - 1] == u;
    assert Chain(v, m, p + [t]);
  }

  lemma {:induction false} ChainStaysInside(v: World, m: Manifest, inside: set<UnversionedPkg>, p: seq<UnversionedPkg>)
    requires ROOT in inside && forall u, t | u in inside && Child(v, m, u, t) :: t in inside
    requires Chain(v, m, p)
    ensures p[|p| - 1] in inside
    decreases |p|
  {
    if |p| > 1 {
      var q := p[..|p| - 1];
      assert Chain(v, m, q) by {
        forall i | 0 <= i < |q| - 1 ensures Child(v, m, q[i], q[i + 1]) {
          assert Child(v, m, p[i], p[i + 1]);
        }
      }
      ChainStaysInside(v, m, inside, q);
      assert Child(v, m, p[|p| - 2], p[|p| - 2 + 1]);
    }
  }

  ghost predicate UsedBy(s: Snapshot, a: GitDependency) {
    exists k <- s.dependency :: k.1.GitDep? && Absolute(k.1.git, k.0) == Some(a)
  }

  /** All that the snapshot holds belongs to the tree. */
  ghost predicate OnTrack(v: World, m: Manifest, s: Snapshot) {
    && (forall u <- s.manifests :: Reachable(v, m, u))
    && (forall k <- s.dependency :: Step(v, k.0, k.1) == Some(s.dependency[k]))
    && (forall a <- s.git :: a in v.fetch && s.git[a] == v.fetch[a] && UsedBy(s, a))
  }

  /** The snapshot is the tree: nothing is missing from it and nothing is in excess. */
  ghost predicate SnapshotOf(v: World, m: Manifest, s: Snapshot) {
    && ROOT in s.manifests
    && (forall u <- s.manifests :: ManifestOf(v, m, u) == Some(s.manifests[u]) && Covered(s, u))
    && DependenciesFit(v, s)
    && OnTrack(v, m, s)
  }

  lemma SnapshotHoldsReachable(v: World, m: Manifest, s: Snapshot, u: UnversionedPkg)
    requires SnapshotOf(v, m, s)
    ensures Reachable(v, m, u) <==> u in s.manifests
  {
    hide Reachable;
    forall a, b | a in s.manifests && Child(v, m, a, b) ensures b in s.manifests {
      var dep :| dep in ManifestOf(v, m, a).value.dependencies.Values && Step(v, a, dep) == Some(b);
      assert Asks(s, a, dep) && (a, dep) in s.dependency;
    }
    if Reachable(v, m, u) {
      ReachableIsInside(v, m, s.manifests.Keys, u);
    }
  }

  lemma ReachableIsInside(v: World, m: Manifest, inside: set<UnversionedPkg>, u: UnversionedPkg)
    requires ROOT in inside && forall u, t | u in inside && Child(v, m, u, t) :: t in inside
    requires Reachable(v, m, u)
    ensures u in inside
  {
    var p :| Chain(v, m, p) && p[|p| - 1] == u;
    ChainStaysInside(v, m, inside, p);
  }

  /** What one snapshot of a world holds, every other holds. */
  lemma SnapshotContained(v: World, m: Manifest, a: Snapshot, b: Snapshot)
    requires SnapshotOf(v, m, a) && SnapshotOf(v, m, b)
    ensures forall u <- a.manifests :: u in b.manifests && b.manifests[u] == a.manifests[u]
    ensures forall k <- a.dependency :: k in b.dependency && b.dependency[k] == a.dependency[k]
    ensures forall g <- a.git :: g in b.git && b.git[g] == a.git[g]
  {
    hide Reachable, Step, ManifestOf, PathTarget, Absolute;
    forall u <- a.manifests ensures u in b.manifests && b.manifests[u] == a.manifests[u] {
      SnapshotHoldsReachable(v, m, b, u);
    }
    forall k <- a.dependency ensures k in b.dependency && b.dependency[k] == a.dependency[k] {
      assert Asks(b, k.0, k.1) && Covered(b, k.0);
      assert k == (k.0, k.1);
    }
    forall g <- a.git ensures g in b.git && b.git[g] == a.git[g] {
      var k :| k in a.dependency && k.1.GitDep? && Absolute(k.1.git, k.0) == Some(g);
      assert Fits(v, b.git, k.0, k.1, b.dependency[k]);
    }
  }

  /** A world has one snapshot at most. */
  lemma SnapshotIsUnique(v: World, m: Manifest, a: Snapshot, b: Snapshot)
    requires SnapshotOf(v, m, a) && SnapshotOf(v, m, b)
    ensures a == b
  {
    hide SnapshotOf;
    SnapshotContained(v, m, a, b);
    SnapshotContained(v, m, b, a);
    assert a.manifests == b.manifests && a.dependency == b.dependency && a.git == b.git;
  }

  /** If there is a snapshot, nothing in the tree is missing. */
  lemma SnapshotIsSound(v: World, m: Manifest, s: Snapshot)
    requires SnapshotOf(v, m, s)
    ensures Sound(v, m)
  {
    hide Reachable, Step, ManifestOf;
    forall u | Reachable(v, m, u)
      ensures ManifestOf(v, m, u).Some?
      ensures forall dep <- ManifestOf(v, m, u).value.dependencies.Values | !dep.IndexDep? :: Step(v, u, dep).Some?
    {
      SnapshotHoldsReachable(v, m, s, u);
      forall dep <- ManifestOf(v, m, u).value.dependencies.Values | !dep.IndexDep? ensures Step(v, u, dep).Some? {
        assert Asks(s, u, dep) && Covered(s, u);
      }
    }
  }

  // Following a lock file

  /** The lock entry names the package that the dependency stands for in `v`. */
  ghost predicate LeadsTo(v: World, names: Naming, locked: LockFileDep, dep: Dependency, u: UnversionedPkg) {
    && locked.spec == SpecOf(dep)
    && Step(v, u, dep).Some?
    && Unversioned(Step(v, u, dep).value) in names
    && locked.name == names[Unversioned(Step(v, u, dep).value)]
  }

  /** The entry of a package of the tree is right about the package and its dependencies. */
  ghost predicate EntryTracks(v: World, m: Manifest, names: Naming, lock: LockFile, t: UnversionedPkg)
    requires Unversioned(t) in names
  {
    && names[Unversioned(t)] in lock.packages
    && ManifestOf(v, m, t).Some?
    && var entry := lock.packages[names[Unversioned(t)]];
       var deps := ManifestOf(v, m, t).value.dependencies;
       && entry.precise == ToLock(Unversioned(t))
       && forall name <- deps | !deps[name].IndexDep? ::
            name in entry.dependencies && LeadsTo(v, names, entry.dependencies[name], deps[name], t)
  }

  /** What a run relies on: fetching alone, or a lock file that leads through the tree of `v`. */
  ghost predicate Guides(v: World, m: Manifest, w: World, lock: LockFile, guide: Option<Naming>) {
    match guide
    case None => w == v
    case Some(names) =>
      && w.gitDir == v.gitDir && w.disk == v.disk
      && forall t | Reachable(v, m, t) && Unversioned(t) in names :: EntryTracks(v, m, names, lock, t)
  }

  ghost predicate Follows(v: World, guide: Option<Naming>, entry: Option<LockFileDep>, dep: Dependency,
                          u: UnversionedPkg) {
    match guide
    case None => entry.None?
    case Some(names) => dep.IndexDep? || (entry.Some? && LeadsTo(v, names, entry.value, dep, u))
  }

  lemma SameWorldView(v: World, m: Manifest, w: World, u: UnversionedPkg)
    requires w.gitDir == v.gitDir && w.disk == v.disk
    ensures LocalPath(w, u) == LocalPath(v, u) && ManifestOf(w, m, u) == ManifestOf(v, m, u)
    ensures forall path :: PathTarget(w, u, path) == PathTarget(v, u, path)
  {
    assert forall c :: RepoRoot(w, c) == RepoRoot(v, c);
  }

  lemma StepIsReachable(v: World, m: Manifest, u: UnversionedPkg, dep: Dependency)
    requires Reachable(v, m, u) && ManifestOf(v, m, u).Some? && dep in ManifestOf(v, m, u).value.dependencies.Values
    requires Step(v, u, dep).Some?
    ensures Reachable(v, m, Step(v, u, dep).value)
  {
    ChildIsReachable(v, m, u, Step(v, u, dep).value);
  }

  lemma LocateTracks(v: World, m: Manifest, w: World, lock: LockFile, guide: Option<Naming>, s: Snapshot,
                     entry: Option<LockFileDep>, dep: Dependency, u: UnversionedPkg)
    requires Guides(v, m, w, lock, guide) && Follows(v, guide, entry, dep, u) && OnTrack(v, m, s) && !dep.IndexDep?
    requires Reachable(v, m, u) && ManifestOf(v, m, u).Some? && dep in ManifestOf(v, m, u).value.dependencies.Values
    ensures Locate(w, lock, s.git, entry, dep, u).Found? <==> Step(v, u, dep).Some?
    ensures Step(v, u, dep).Some? ==> Locate(w, lock, s.git, entry, dep, u).pkg == Step(v, u, dep).value
  {
    hide Reachable, ManifestOf, PathTarget, Absolute;
    SameWorldView(v, m, w, u);
    if guide.Some? {
      StepIsReachable(v, m, u, dep);
      assert EntryTracks(v, m, guide.value, lock, Step(v, u, dep).value);
    }
  }

  lemma RecordTracks(v: World, m: Manifest, w: World, s: Snapshot, u: UnversionedPkg, dep: Dependency,
                     t: UnversionedPkg)
    requires OnTrack(v, m, s) && !dep.IndexDep? && Step(v, u, dep) == Some(t)
    requires dep.GitDep? ==> Absolute(dep.git, u).Some? && t.GitPkg?
    requires LocalPath(w, t) in w.disk || t in s.manifests
    requires Reachable(v, m, u) && ManifestOf(v, m, u).Some? && dep in ManifestOf(v, m, u).value.dependencies.Values
    ensures OnTrack(v, m, Recorded(w, s, u, dep, t))
  {
    hide Reachable, ManifestOf, PathTarget, Absolute, LocalPath;
    var s' := Recorded(w, s, u, dep, t);
    StepIsReachable(v, m, u, dep);
    forall a <- s'.git ensures a in v.fetch && s'.git[a] == v.fetch[a] && UsedBy(s', a) {
      if dep.GitDep? && a == Absolute(dep.git, u).value {
        assert (u, dep) in s'.dependency;
      } else {
        assert UsedBy(s, a);
        var k :| k in s.dependency && k.1.GitDep? && Absolute(k.1.git, k.0) == Some(a);
        assert k in s'.dependency;
      }
    }
  }

  lemma ChildTracks(v: World, m: Manifest, w: World, lock: LockFile, guide: Option<Naming>, entry: Option<LockFileDep>,
                    dep: Dependency, u: UnversionedPkg, t: UnversionedPkg, name: string)
    requires Guides(v, m, w, lock, guide) && Follows(v, guide, entry, dep, u) && Step(v, u, dep) == Some(t)
    requires !dep.IndexDep?
    requires Reachable(v, m, t) && ManifestOf(v, m, t).Some? && name in ManifestOf(v, m, t).value.dependencies
    ensures ChildEntry(lock, entry, name).Listed?
    ensures Follows(v, guide, ChildEntry(lock, entry, name).entry, ManifestOf(v, m, t).value.dependencies[name], t)
  {
    hide Reachable, ManifestOf, Step;
    if guide.Some? {
      assert EntryTracks(v, m, guide.value, lock, t);
    }
  }
}
