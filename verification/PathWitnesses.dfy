/** Two small packages on which locking fails: a path that is not in normal form, and a cycle of paths. */
module PathWitnesses {
  import opened Types
  import opened RelativePath
  import opened Packages
  import opened LockFiles
  import opened Snapshots
  import opened SnapshotTree
  import opened Snapshotting
  import opened Reproducibility
  import opened Graph
  import opened UpToDate

  const LIB := FilePath(false, [Normal("lib")])
  const DOT_LIB := FilePath(false, [CurDir, Normal("lib")])
  const UP := FilePath(false, [ParentDir])
  const LIB_PKG := PathPkg(LIB)
  const NO_DEPENDENCIES := Manifest(map[])

  lemma NormalForms()
    ensures Normalize(LIB) == LIB && Normalize(DOT_LIB) == LIB && Normalize(EMPTY_PATH) == EMPTY_PATH
    ensures Normalize(Join(LIB, UP)) == EMPTY_PATH
  {
    var none := Canonical(0, []);
    var lib := Canonical(0, ["lib"]);
    assert [Normal("lib")][1..] == [];
    assert PushAll(none, [Normal("lib")]) == PushAll(lib, []);
    assert [CurDir, Normal("lib")][1..] == [Normal("lib")];
    assert Join(LIB, UP).parts == [Normal("lib"), ParentDir];
    assert [Normal("lib"), ParentDir][1..] == [ParentDir] && [ParentDir][1..] == [];
    assert PushAll(none, [Normal("lib"), ParentDir]) == PushAll(lib, [ParentDir]) == PushAll(none, []);
    assert lib.Path() == [Normal("lib")] && none.Path() == [];
  }

  // A path that is not in normal form

  const DOT_MANIFEST := Manifest(map["lib" := PathDep(DOT_LIB)])
  const DOT_WORLD := World(EMPTY_PATH, map[], map[LIB := NO_DEPENDENCIES])
  const DOT_SNAPSHOT :=
    Snapshot(map[], map[(ROOT, PathDep(DOT_LIB)) := LIB_PKG], map[ROOT := DOT_MANIFEST, LIB_PKG := NO_DEPENDENCIES])

  /** With `./lib` in the root manifest a snapshot can be taken, and no lock file can be made from it. */
  lemma DotPath(r: Resolution)
    requires r.snapshot == DOT_SNAPSHOT
    ensures SnapshotOf(DOT_WORLD, DOT_MANIFEST, DOT_SNAPSHOT) && Sound(DOT_WORLD, DOT_MANIFEST)
    ensures !Resolves(DOT_MANIFEST, r)
  {
    DotSnapshot();
    SnapshotIsSound(DOT_WORLD, DOT_MANIFEST, DOT_SNAPSHOT);
    hide Complete, SnapshotOf, Sound, Resolves, IndexResolves;
    LockableExactlyWhen(DOT_WORLD, DOT_MANIFEST, r);
    NormalForms();
    assert DOT_MANIFEST.dependencies["lib"] in DOT_MANIFEST.dependencies.Values;
    assert |DOT_LIB.parts| != |LIB.parts|;
    assert !RootPathsNormal(DOT_MANIFEST);
  }

  lemma DotFacts()
    ensures LIB_PKG != ROOT && PathTarget(DOT_WORLD, ROOT, DOT_LIB) == Some(LIB_PKG)
    ensures ManifestOf(DOT_WORLD, DOT_MANIFEST, ROOT) == Some(DOT_MANIFEST)
    ensures ManifestOf(DOT_WORLD, DOT_MANIFEST, LIB_PKG) == Some(NO_DEPENDENCIES)
    ensures DOT_MANIFEST.dependencies.Values == {PathDep(DOT_LIB)} && NO_DEPENDENCIES.dependencies.Values == {}
  {
    NormalForms();
    hide Normalize;
    assert Join(EMPTY_PATH, DOT_LIB) == DOT_LIB;
    assert DOT_MANIFEST.dependencies["lib"] == PathDep(DOT_LIB);
  }

  lemma DotReachable()
    ensures Reachable(DOT_WORLD, DOT_MANIFEST, ROOT) && Reachable(DOT_WORLD, DOT_MANIFEST, LIB_PKG)
  {
    hide Reachable, PathTarget, ManifestOf;
    DotFacts();
    assert PathDep(DOT_LIB) in DOT_MANIFEST.dependencies.Values;
    RootIsReachable(DOT_WORLD, DOT_MANIFEST);
    ChildIsReachable(DOT_WORLD, DOT_MANIFEST, ROOT, LIB_PKG);
  }

  lemma DotFits()
    ensures DependenciesFit(DOT_WORLD, DOT_SNAPSHOT)
    ensures forall u <- DOT_SNAPSHOT.manifests ::
              ManifestOf(DOT_WORLD, DOT_MANIFEST, u) == Some(DOT_SNAPSHOT.manifests[u]) && Covered(DOT_SNAPSHOT, u)
  {
    hide PathTarget, ManifestOf;
    DotFacts();
    assert forall u <- DOT_SNAPSHOT.manifests :: u == ROOT || u == LIB_PKG;
    assert forall k <- DOT_SNAPSHOT.dependency :: k == (ROOT, PathDep(DOT_LIB));
  }

  lemma DotSnapshot()
    ensures SnapshotOf(DOT_WORLD, DOT_MANIFEST, DOT_SNAPSHOT) && Complete(DOT_WORLD, DOT_MANIFEST, DOT_SNAPSHOT)
  {
    hide Reachable, PathTarget, ManifestOf, Normalize, DependenciesFit, Covered;
    NormalForms();
    DotFacts();
    DotReachable();
    DotFits();
    assert forall u <- DOT_SNAPSHOT.manifests :: u == ROOT || u == LIB_PKG;
    assert forall k <- DOT_SNAPSHOT.dependency :: k == (ROOT, PathDep(DOT_LIB));
  }

  // A cycle

  const CYCLE_MANIFEST := Manifest(map["lib" := PathDep(LIB)])
  const CYCLE_LIB := Manifest(map["up" := PathDep(UP)])
  const CYCLE_WORLD := World(EMPTY_PATH, map[], map[LIB := CYCLE_LIB])
  const CYCLE_SNAPSHOT := Snapshot(
    map[],
    map[(ROOT, PathDep(LIB)) := LIB_PKG, (LIB_PKG, PathDep(UP)) := ROOT],
    map[ROOT := CYCLE_MANIFEST, LIB_PKG := CYCLE_LIB])

  lemma CycleFacts()
    ensures LIB_PKG != ROOT && PathTarget(CYCLE_WORLD, ROOT, LIB) == Some(LIB_PKG)
    ensures PathTarget(CYCLE_WORLD, LIB_PKG, UP) == Some(ROOT)
    ensures ManifestOf(CYCLE_WORLD, CYCLE_MANIFEST, ROOT) == Some(CYCLE_MANIFEST)
    ensures ManifestOf(CYCLE_WORLD, CYCLE_MANIFEST, LIB_PKG) == Some(CYCLE_LIB)
    ensures CYCLE_MANIFEST.dependencies.Values == {PathDep(LIB)} && CYCLE_LIB.dependencies.Values == {PathDep(UP)}
  {
    NormalForms();
    hide Normalize;
    assert Join(EMPTY_PATH, LIB) == LIB;
    assert CYCLE_MANIFEST.dependencies["lib"] == PathDep(LIB) && CYCLE_LIB.dependencies["up"] == PathDep(UP);
  }

  lemma CycleReachable()
    ensures Reachable(CYCLE_WORLD, CYCLE_MANIFEST, ROOT) && Reachable(CYCLE_WORLD, CYCLE_MANIFEST, LIB_PKG)
  {
    hide Reachable, PathTarget, ManifestOf;
    CycleFacts();
    assert PathDep(LIB) in CYCLE_MANIFEST.dependencies.Values;
    RootIsReachable(CYCLE_WORLD, CYCLE_MANIFEST);
    ChildIsReachable(CYCLE_WORLD, CYCLE_MANIFEST, ROOT, LIB_PKG);
  }

  lemma CycleParts()
    ensures forall u <- CYCLE_SNAPSHOT.manifests :: u == ROOT || u == LIB_PKG
    ensures forall k <- CYCLE_SNAPSHOT.dependency :: k == (ROOT, PathDep(LIB)) || k == (LIB_PKG, PathDep(UP))
    ensures LIB_PKG != ROOT ==>
            CYCLE_SNAPSHOT.dependency[(ROOT, PathDep(LIB))] == LIB_PKG
              && CYCLE_SNAPSHOT.dependency[(LIB_PKG, PathDep(UP))] == ROOT
  {
  }

  lemma CycleFits()
    ensures DependenciesFit(CYCLE_WORLD, CYCLE_SNAPSHOT)
    ensures forall u <- CYCLE_SNAPSHOT.manifests ::
              ManifestOf(CYCLE_WORLD, CYCLE_MANIFEST, u) == Some(CYCLE_SNAPSHOT.manifests[u])
                && Covered(CYCLE_SNAPSHOT, u)
  {
    hide PathTarget, ManifestOf;
    CycleFacts();
    CycleParts();
  }

  lemma CycleSnapshot()
    ensures SnapshotOf(CYCLE_WORLD, CYCLE_MANIFEST, CYCLE_SNAPSHOT)
    ensures Complete(CYCLE_WORLD, CYCLE_MANIFEST, CYCLE_SNAPSHOT)
  {
    hide Reachable, PathTarget, ManifestOf, Normalize, DependenciesFit, Covered;
    NormalForms();
    CycleFacts();
    CycleReachable();
    CycleFits();
    CycleParts();
  }

  lemma CycleEdges()
    ensures Edge(PathGraph(CYCLE_SNAPSHOT), EMPTY_PATH, LIB) && Edge(PathGraph(CYCLE_SNAPSHOT), LIB, EMPTY_PATH)
  {
    NormalForms();
    hide Normalize;
    assert Join(EMPTY_PATH, LIB) == LIB && LIB_PKG != ROOT;
    assert CYCLE_MANIFEST.dependencies["lib"] in CYCLE_MANIFEST.dependencies.Values;
    assert CYCLE_LIB.dependencies["up"] in CYCLE_LIB.dependencies.Values;
    hide PathGraph;
    PathEdges(CYCLE_SNAPSHOT, EMPTY_PATH, LIB);
    PathEdges(CYCLE_SNAPSHOT, LIB, EMPTY_PATH);
  }

  /**
   The root needs `lib`, and `lib` needs `..`: no depth bounds the check, and on a fresh lock file it
   gives no answer.
   */
  lemma Cycle(r: Resolution, lock: LockFile, naming: Naming, order: Order)
    requires r.snapshot == CYCLE_SNAPSHOT && Locks(CYCLE_MANIFEST, r, lock, naming) && Visits(CYCLE_SNAPSHOT, order)
    ensures forall depth: nat :: !DepthAtMost(CYCLE_SNAPSHOT, EMPTY_PATH, depth)
    ensures PathsClosed(CYCLE_SNAPSHOT) && !Answers(CYCLE_SNAPSHOT, lock, order)
  {
    CycleSnapshot();
    CycleEdges();
    hide Complete, SnapshotOf, Locks, Visits, PathGraph, Check, DepthAtMost, PathsClosed, Normalize;
    ReachSelf(PathGraph(CYCLE_SNAPSHOT), EMPTY_PATH);
    ReachThenEdge(PathGraph(CYCLE_SNAPSHOT), LIB, LIB, EMPTY_PATH) by {
      ReachSelf(PathGraph(CYCLE_SNAPSHOT), LIB);
    }
    assert ReachPlus(PathGraph(CYCLE_SNAPSHOT), EMPTY_PATH, EMPTY_PATH);
    BoundedExactlyWhenAcyclic(CYCLE_SNAPSHOT, EMPTY_PATH);
    FreshLockIsUpToDate(CYCLE_WORLD, CYCLE_MANIFEST, r, lock, naming, order);
  }

  /** Such a lock file can be made. */
  lemma CycleLocks(r: Resolution)
    requires r == Resolution(CYCLE_SNAPSHOT, map[], map[])
    ensures Resolves(CYCLE_MANIFEST, r)
  {
    hide Needed, Resolved;
    CycleTree(r);
    assert CYCLE_MANIFEST.dependencies["lib"] in CYCLE_MANIFEST.dependencies.Values;
  }

  lemma CycleTree(r: Resolution)
    requires r == Resolution(CYCLE_SNAPSHOT, map[], map[])
    ensures Resolved(r, Unversioned(ROOT)) && Resolved(r, Unversioned(LIB_PKG))
    ensures forall p | Needed(CYCLE_MANIFEST, r, p) :: p == Unversioned(ROOT) || p == Unversioned(LIB_PKG)
  {
    assert CYCLE_MANIFEST.dependencies["lib"] in CYCLE_MANIFEST.dependencies.Values;
    assert CYCLE_LIB.dependencies["up"] in CYCLE_LIB.dependencies.Values;
    assert LIB_PKG != ROOT;
    var tree := {Unversioned(ROOT), Unversioned(LIB_PKG)};
    assert Targets(r, Unversioned(ROOT)) <= tree && Targets(r, Unversioned(LIB_PKG)) <= tree;
    forall p | Needed(CYCLE_MANIFEST, r, p) ensures p in tree {
      var name :| name in CYCLE_MANIFEST.dependencies && Precise(r, CYCLE_MANIFEST.dependencies[name]).Some? &&
                  Reach(Depends(r), Precise(r, CYCLE_MANIFEST.dependencies[name]).value, p);
      ReachStaysInside(Depends(r), tree, Unversioned(LIB_PKG), p);
    }
  }
}
