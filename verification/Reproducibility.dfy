/** What a lock file promises to later runs (package/src/lock.rs, package/src/snapshot.rs, package/src/manifest.rs). */
module Reproducibility {
  import opened Types
  import opened Packages
  import opened LockFiles
  import opened LockRoundTrip
  import opened Snapshots
  import opened SnapshotTree
  import opened Snapshotting

  // When a lock file can be made

  ghost predicate RootPathsNormal(m: Manifest) {
    forall dep <- m.dependencies.Values | dep.PathDep? :: Normalize(dep.path) == dep.path
  }

  /** The packages are in the index, and their index dependencies have a version. */
  ghost predicate IndexResolves(m: Manifest, r: Resolution) {
    && (forall dep <- m.dependencies.Values | dep.IndexDep? :: IndexTarget(r, dep.index).Some?)
    && (forall p | Needed(m, r, p) && p.IndexPkg? :: Requested(r, p).Some?)
    && (forall p | Needed(m, r, p) && Requested(r, p).Some? ::
          forall dep <- Requested(r, p).value.Values | dep.IndexDep? :: IndexTarget(r, dep.index).Some?)
  }

  /** The root package spells its dependencies as the snapshot does, except for paths that are not normal. */
  lemma RootTarget(v: World, m: Manifest, r: Resolution, dep: Dependency)
    requires SnapshotOf(v, m, r.snapshot) && dep in m.dependencies.Values && !dep.IndexDep?
    requires dep.PathDep? ==> Normalize(dep.path) == dep.path
    ensures Precise(r, dep).Some? && Step(v, ROOT, dep).Some?
    ensures Precise(r, dep).value == Unversioned(Step(v, ROOT, dep).value)
    ensures Step(v, ROOT, dep).value in r.snapshot.manifests
  {
    hide Reachable, Normalize;
    var s := r.snapshot;
    assert Asks(s, ROOT, dep) && Covered(s, ROOT);
    assert s.dependency[(ROOT, dep)] in s.manifests;
    if dep.PathDep? {
      assert Join(EMPTY_PATH, dep.path) == dep.path;
    } else {
      assert Absolute(dep.git, ROOT) == Some(dep.git) by {
        if dep.git.url.LocalRepo? {
          assert Join(EMPTY_PATH, dep.git.url.path) == dep.git.url.path;
        }
      }
    }
  }

  /** A snapshot answers for each path or git dependency of its packages, with a package of its own. */
  lemma NeverUnanswered(w: World, m: Manifest, r: Resolution, u: UnversionedPkg, dep: Dependency)
    requires Complete(w, m, r.snapshot) && Asks(r.snapshot, u, dep) && !dep.IndexDep?
    ensures var t := Target(r, Unversioned(u), dep);
      t.Some? && t.value.Unversioned? && t.value.pkg in r.snapshot.manifests && (dep.GitDep? ==> t.value.pkg.GitPkg?)
  {
    assert Covered(r.snapshot, u);
  }

  lemma UnversionedIsKnown(v: World, m: Manifest, r: Resolution, u: UnversionedPkg)
    requires Complete(v, m, r.snapshot) && SnapshotOf(v, m, r.snapshot) && RootPathsNormal(m)
    requires Needed(m, r, Unversioned(u))
    ensures u in r.snapshot.manifests
  {
    hide Needed, SnapshotOf, RootPathsNormal, Complete;
    NeededBySomeone(m, r, Unversioned(u));
    if dep :| dep in m.dependencies.Values && Precise(r, dep) == Some(Unversioned(u)) {
      if dep.PathDep? {
        RootIsNormal(m, dep);
      }
      RootTarget(v, m, r, dep);
    } else {
      var q :| q in Known(r) && Resolved(r, q) && Unversioned(u) in Targets(r, q);
      var i :| i in Imports(r, q).Values && i.target == Unversioned(u);
      assert Asks(r.snapshot, q.pkg, i.dep);
      NeverUnanswered(v, m, r, q.pkg, i.dep);
    }
  }

  lemma RootIsNormal(m: Manifest, dep: Dependency)
    requires RootPathsNormal(m) && dep in m.dependencies.Values && dep.PathDep?
    ensures Normalize(dep.path) == dep.path
  {
  }

  lemma UnversionedResolves(v: World, m: Manifest, r: Resolution, u: UnversionedPkg)
    requires Complete(v, m, r.snapshot) && u in r.snapshot.manifests
    requires forall dep <- r.snapshot.manifests[u].dependencies.Values | dep.IndexDep? ::
               IndexTarget(r, dep.index).Some?
    ensures Resolved(r, Unversioned(u))
  {
    hide Complete, IndexTarget;
    forall dep <- Requested(r, Unversioned(u)).value.Values ensures Target(r, Unversioned(u), dep).Some? {
      if !dep.IndexDep? {
        assert Asks(r.snapshot, u, dep);
        NeverUnanswered(v, m, r, u, dep);
      }
    }
  }

  /** Where everything resolves, the root spells its paths in normal form: the snapshot has no other. */
  lemma ResolvedRootIsNormal(v: World, m: Manifest, r: Resolution, dep: Dependency)
    requires Complete(v, m, r.snapshot) && Resolves(m, r) && dep in m.dependencies.Values && dep.PathDep?
    ensures Normalize(dep.path) == dep.path
  {
    hide Normalize;
    var name :| name in m.dependencies && m.dependencies[name] == dep;
    RootIsNeeded(m, r, name);
    assert Resolved(r, Unversioned(PathPkg(dep.path)));
  }

  /**
   * With the snapshot of a world, a lock file can be made exactly when the paths in the root manifest
   * are spelled in normal form and the index has what is asked of it.
   */
  lemma LockableExactlyWhen(v: World, m: Manifest, r: Resolution)
    requires Complete(v, m, r.snapshot) && SnapshotOf(v, m, r.snapshot)
    ensures Resolves(m, r) <==> RootPathsNormal(m) && IndexResolves(m, r)
  {
    hide Complete, SnapshotOf, Needed;
    if Resolves(m, r) {
      forall dep <- m.dependencies.Values | dep.PathDep? ensures Normalize(dep.path) == dep.path {
        ResolvedRootIsNormal(v, m, r, dep);
      }
      ResolvesIndex(m, r);
    }
    if RootPathsNormal(m) && IndexResolves(m, r) {
      EverythingResolves(v, m, r);
    }
  }

  lemma ResolvesIndex(m: Manifest, r: Resolution)
    requires Resolves(m, r)
    ensures IndexResolves(m, r)
  {
    hide Needed;
    forall p | Needed(m, r, p) && Requested(r, p).Some?
      ensures forall dep <- Requested(r, p).value.Values | dep.IndexDep? :: IndexTarget(r, dep.index).Some?
    {
      assert Resolved(r, p);
      forall dep <- Requested(r, p).value.Values | dep.IndexDep? ensures IndexTarget(r, dep.index).Some? {
        assert Target(r, p, dep).Some?;
      }
    }
  }

  lemma EverythingResolves(v: World, m: Manifest, r: Resolution)
    requires Complete(v, m, r.snapshot) && SnapshotOf(v, m, r.snapshot) && RootPathsNormal(m) && IndexResolves(m, r)
    ensures Resolves(m, r)
  {
    hide Complete, SnapshotOf, Needed, RootPathsNormal, IndexTarget, Normalize;
    forall dep <- m.dependencies.Values ensures Precise(r, dep).Some? {
      if dep.PathDep? {
        RootIsNormal(m, dep);
      }
      if !dep.IndexDep? {
        RootTarget(v, m, r, dep);
      }
    }
    forall p | Needed(m, r, p) ensures Resolved(r, p) {
      if p.Unversioned? {
        UnversionedIsKnown(v, m, r, p.pkg);
        UnversionedResolves(v, m, r, p.pkg);
      } else {
        forall dep <- Requested(r, p).value.Values ensures Target(r, p, dep).Some? {
        }
      }
    }
  }

  // Reproducibility

  /** Names for the packages of the tree only. */
  ghost function NeededNames(m: Manifest, r: Resolution, naming: Naming): Naming {
    map p | p in naming && Needed(m, r, p) :: naming[p]
  }

  lemma StepIsTarget(v: World, m: Manifest, r: Resolution, t: UnversionedPkg, name: string)
    requires SnapshotOf(v, m, r.snapshot) && Resolved(r, Unversioned(t)) && name in r.snapshot.manifests[t].dependencies
    requires !r.snapshot.manifests[t].dependencies[name].IndexDep?
    ensures var dep := r.snapshot.manifests[t].dependencies[name];
      Step(v, t, dep).Some? && Imports(r, Unversioned(t))[name] == Import(dep, Unversioned(Step(v, t, dep).value))
  {
    hide Step, Reachable;
    var dep := r.snapshot.manifests[t].dependencies[name];
    assert dep in r.snapshot.manifests[t].dependencies.Values;
    assert Target(r, Unversioned(t), dep).Some?;
  }

  lemma EntryLeads(v: World, m: Manifest, r: Resolution, lock: LockFile, naming: Naming, t: UnversionedPkg)
    requires SnapshotOf(v, m, r.snapshot) && Locks(m, r, lock, naming) && Needed(m, r, Unversioned(t))
    requires Unversioned(t) in naming
    ensures EntryTracks(v, m, NeededNames(m, r, naming), lock, t)
  {
    hide Needed, Step, Reachable, ManifestOf, DependenciesFit, OnTrack, Covered, Target;
    var names := NeededNames(m, r, naming);
    var p := Unversioned(t);
    assert Resolved(r, p) && lock.packages[naming[p]] == Entry(r, naming, p);
    assert ManifestOf(v, m, t) == Some(r.snapshot.manifests[t]);
    var deps := r.snapshot.manifests[t].dependencies;
    forall name <- deps | !deps[name].IndexDep?
      ensures name in lock.packages[naming[p]].dependencies
      ensures LeadsTo(v, names, lock.packages[naming[p]].dependencies[name], deps[name], t)
    {
      StepIsTarget(v, m, r, t, name);
      assert Imports(r, p)[name] in Imports(r, p).Values;
      TargetIsNeeded(m, r, p, Imports(r, p)[name].target);
    }
  }

  lemma RootLeads(v: World, m: Manifest, r: Resolution, lock: LockFile, naming: Naming, name: string)
    requires Complete(v, m, r.snapshot) && SnapshotOf(v, m, r.snapshot) && Locks(m, r, lock, naming)
    requires name in m.dependencies
    ensures Follows(v, Some(NeededNames(m, r, naming)), RootEntry(lock, name), m.dependencies[name], ROOT)
  {
    hide Complete, SnapshotOf, Needed, Step, Normalize, Entry, TargetsNamed, Resolved;
    var dep := m.dependencies[name];
    assert dep in m.dependencies.Values;
    if !dep.IndexDep? {
      if dep.PathDep? {
        ResolvedRootIsNormal(v, m, r, dep);
      }
      RootTarget(v, m, r, dep);
      RootIsNeeded(m, r, name);
    }
  }

  /** A lock file made from the snapshot of `v` leads every later run through the tree of `v`. */
  lemma LockLeads(v: World, m: Manifest, r: Resolution, lock: LockFile, naming: Naming, w: World)
    requires Complete(v, m, r.snapshot) && SnapshotOf(v, m, r.snapshot) && Locks(m, r, lock, naming)
    requires w.gitDir == v.gitDir && w.disk == v.disk
    ensures GuidesFromRoot(v, m, w, lock, Some(NeededNames(m, r, naming)))
  {
    hide Complete, SnapshotOf, Needed, Reachable, EntryTracks, Locks, Follows;
    var names := NeededNames(m, r, naming);
    forall t | Reachable(v, m, t) && Unversioned(t) in names ensures EntryTracks(v, m, names, lock, t) {
      EntryLeads(v, m, r, lock, naming, t);
    }
    forall name <- m.dependencies ensures Follows(v, Some(names), RootEntry(lock, name), m.dependencies[name], ROOT) {
      RootLeads(v, m, r, lock, naming, name);
    }
  }

  /**
   * With a lock file made from the snapshot of one world, a snapshot of any world with the same
   * files on disk gives that same snapshot, whatever fetching would give now.
   */
  method LockedSnapshot(v: World, m: Manifest, ghost r: Resolution, lock: LockFile, ghost naming: Naming, w: World)
    returns (outcome: Outcome, snap: Snapshot)
    requires Complete(v, m, r.snapshot) && SnapshotOf(v, m, r.snapshot) && Locks(m, r, lock, naming)
    requires w.gitDir == v.gitDir && w.disk == v.disk
    ensures outcome == Success && snap == r.snapshot
  {
    hide Complete, SnapshotOf, Locks, GuidesFromRoot, Sound;
    LockLeads(v, m, r, lock, naming, w);
    SnapshotIsSound(v, m, r.snapshot);
    outcome, snap := NewWithLock(w, m, lock, v, Some(NeededNames(m, r, naming)));
    SnapshotIsUnique(v, m, snap, r.snapshot);
  }

  /** A lock file has no dangling references, so no later run breaks on it, whatever has changed on disk. */
  lemma LocksAreClosed(w: World, m: Manifest, r: Resolution, lock: LockFile, naming: Naming)
    requires Complete(w, m, r.snapshot) && Locks(m, r, lock, naming)
    ensures ClosedLock(lock)
  {
    hide Complete, Needed, Normalize;
    forall d <- lock.dependencies.Values ensures GoodDep(lock, d) {
      var name :| name in lock.dependencies && lock.dependencies[name] == d;
      RootIsNeeded(m, r, name);
      assert m.dependencies[name] in m.dependencies.Values;
      EntryFor(m, r, lock, naming, Precise(r, m.dependencies[name]).value);
    }
    forall e <- lock.packages.Values, d <- e.dependencies.Values ensures GoodDep(lock, d) {
      var entryName :| entryName in lock.packages && lock.packages[entryName] == e;
      var p :| p in naming && Needed(m, r, p) && naming[p] == entryName;
      EntryFor(m, r, lock, naming, p);
      GoodDependency(w, m, r, lock, naming, p, d);
    }
  }

  lemma EntryFor(m: Manifest, r: Resolution, lock: LockFile, naming: Naming, p: PrecisePkg)
    requires Locks(m, r, lock, naming) && Needed(m, r, p)
    ensures p in naming && Resolved(r, p) && TargetsNamed(r, naming, p)
    ensures naming[p] in lock.packages && lock.packages[naming[p]] == Entry(r, naming, p)
  {
    hide Needed, Resolved;
  }

  lemma GoodDependency(w: World, m: Manifest, r: Resolution, lock: LockFile, naming: Naming, p: PrecisePkg,
                       d: LockFileDep)
    requires Complete(w, m, r.snapshot) && Locks(m, r, lock, naming) && Needed(m, r, p)
    requires p in naming && Resolved(r, p) && TargetsNamed(r, naming, p) && d in Entry(r, naming, p).dependencies.Values
    ensures GoodDep(lock, d)
  {
    hide Complete, Needed, Locks;
    var imports := Imports(r, p);
    var name :| name in imports && d == LockFileDep(naming[imports[name].target], SpecOf(imports[name].dep));
    var i := imports[name];
    assert i in imports.Values;
    TargetIsNeeded(m, r, p, i.target);
    EntryFor(m, r, lock, naming, i.target);
    if i.dep.GitDep? {
      assert Target(r, p, i.dep) == Some(i.target);
      assert Asks(r.snapshot, p.pkg, i.dep);
      NeverUnanswered(w, m, r, p.pkg, i.dep);
    }
  }
}
