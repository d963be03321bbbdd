/** Taking a snapshot (package/src/snapshot.rs). */
module Snapshotting {
  import opened Types
  import opened Packages
  import opened LockFiles
  import opened Snapshots
  import opened SnapshotTree

  /** A lock file whose references all lead to an entry, and to a git package where a git dependency is recorded. */
  ghost predicate ClosedLock(lock: LockFile) {
    && (forall d <- lock.dependencies.Values :: GoodDep(lock, d))
    && (forall e <- lock.packages.Values, d <- e.dependencies.Values :: GoodDep(lock, d))
  }

  predicate GoodDep(lock: LockFile, d: LockFileDep) {
    d.name in lock.packages && (d.spec.Some? ==> lock.packages[d.name].precise.LockGit?)
  }

  ghost predicate GoodEntry(lock: LockFile, entry: Option<LockFileDep>) {
    ClosedLock(lock) && (entry.Some? ==> GoodDep(lock, entry.value))
  }

  /** The run keeps to the tree of `v`, and the entry at hand leads there too. */
  ghost predicate Tracks(v: World, m: Manifest, w: World, lock: LockFile, guide: Option<Naming>, s: Snapshot,
                         entry: Option<LockFileDep>, dep: Dependency, u: UnversionedPkg) {
    Guides(v, m, w, lock, guide) && OnTrack(v, m, s) && Follows(v, guide, entry, dep, u)
  }

  lemma ChildEntryIsGood(lock: LockFile, entry: Option<LockFileDep>, name: string)
    requires GoodEntry(lock, entry)
    ensures ChildEntry(lock, entry, name).Listed? && GoodEntry(lock, ChildEntry(lock, entry, name).entry)
  {
    if entry.Some? {
      var e := lock.packages[entry.value.name];
      assert e in lock.packages.Values;
      if name in e.dependencies {
        assert e.dependencies[name] in e.dependencies.Values;
      }
    }
  }

  lemma GoodEntryLocates(w: World, lock: LockFile, known: map<GitDependency, ObjectId>, entry: Option<LockFileDep>,
                         dep: Dependency, u: UnversionedPkg)
    requires GoodEntry(lock, entry) && !dep.IndexDep?
    ensures Locate(w, lock, known, entry, dep, u) != NotFound(BrokenLock)
  {
  }

  /** What is asked of a located dependency before its package is looked at. */
  ghost predicate Stands(w: World, lock: LockFile, m: Manifest, s: Snapshot, u: UnversionedPkg, dep: Dependency) {
    Partial(w, lock, m, s) && Asks(s, u, dep)
  }

  class Snapshotter {
    var git: map<GitDependency, ObjectId>
    var dependency: map<(UnversionedPkg, Dependency), UnversionedPkg>
    var manifests: map<UnversionedPkg, Manifest>

    ghost function Contents(): Snapshot
      reads this
    {
      Snapshot(git, dependency, manifests)
    }

    constructor ()
      ensures Contents() == Snapshot(map[], map[], map[])
    {
      git, dependency, manifests := map[], map[], map[];
    }

    /**
     * Locates a dependency and everything below it. Whatever the lock file, what is added is complete;
     * and a run that keeps to the tree of `v` adds only what is in the tree, and fails only where the tree does.
     */
    method SnapshotRecursive(w: World, ghost m: Manifest, lock: LockFile, entry: Option<LockFileDep>, dep: Dependency,
                             relativeTo: UnversionedPkg, ghost v: World, ghost guide: Option<Naming>)
      returns (r: Outcome)
      requires Stands(w, lock, m, Contents(), relativeTo, dep)
      modifies this
      ensures r.Success? ==> Partial(w, lock, m, Contents()) && Settles(old(Contents()), Contents())
      ensures r.Success? ==> dep.IndexDep? || (relativeTo, dep) in dependency
      ensures GoodEntry(lock, entry) ==> r != Failure(BrokenLock)
      ensures Tracks(v, m, w, lock, guide, old(Contents()), entry, dep, relativeTo) && r.Success? ==>
              OnTrack(v, m, Contents())
      ensures Tracks(v, m, w, lock, guide, old(Contents()), entry, dep, relativeTo) && r.Failure? ==> !Sound(v, m)
      ensures FromLock(lock, entry) && CommitsGiven(w, lock, old(Contents())) && r.Success? ==>
                CommitsGiven(w, lock, Contents())
      decreases Universe(w, lock, m) - manifests.Keys
    {
      hide Partial, Asks, Settles, Universe, Locate, OnTrack, Guides, Follows, Sound, GoodEntry, Absolute, Lists,
           LocalPath, ChildEntry, Recorded, Tracks, Stands, Step, CommitsGiven, FromLock;
      if dep.IndexDep? {
        NothingToDo(w, lock, m, Contents(), entry, dep, relativeTo, v, guide);
        return Success;
      }
      ghost var s0 := Contents();
      ghost var tracked := Tracks(v, m, w, lock, guide, s0, entry, dep, relativeTo);
      ghost var given := FromLock(lock, entry) && CommitsGiven(w, lock, s0);
      var located := Locate(w, lock, git, entry, dep, relativeTo);
      LocateOutcome(w, lock, m, s0, entry, dep, relativeTo, v, guide);
      if located.NotFound? {
        return Failure(located.error);
      }
      var precise := located.pkg;
      var local := LocalPath(w, precise);
      var isNew := precise !in manifests;
      if isNew && local !in w.disk {
        MissingManifest(w, lock, m, s0, entry, dep, relativeTo, v, guide);
        return Failure(NoManifest);
      }
      git := if dep.GitDep? then git[Absolute(dep.git, relativeTo).value := precise.commit] else git;
      dependency := dependency[(relativeTo, dep) := precise];
      if isNew {
        manifests := manifests[precise := w.disk[local]];
      }
      ghost var s1 := Contents();
      AfterRecord(w, lock, m, s0, s1, entry, dep, relativeTo, precise, v, guide);
      if isNew {
        var pairs := SortedPairs(w.disk[local].dependencies);
        SettlesNothing(s1);
        for i := 0 to |pairs|
          invariant Partial(w, lock, m, Contents()) && Settles(s1, Contents())
          invariant Dealt(Contents(), precise, pairs[..i])
          invariant (tracked ==> OnTrack(v, m, Contents())) && (given ==> CommitsGiven(w, lock, Contents()))
        {
          var (name, childDep) := pairs[i];
          var childEntry := ChildEntry(lock, entry, name);
          ChildFromLock(lock, entry, name);
          ghost var s2 := Contents();
          ChildStands(w, lock, m, s0, s1, s2, entry, dep, relativeTo, precise, v, guide, pairs, i);
          if childEntry.Unlisted? {
            return Failure(BrokenLock);
          }
          r := SnapshotRecursive(w, m, lock, childEntry.entry, childDep, precise, v, guide);
          if r.Failure? {
            return;
          }
          SettlesMore(s1, s2, Contents(), precise, pairs, i);
        }
        AllDealt(w, s0, s1, Contents(), relativeTo, dep, precise, pairs);
      }
      return Success;
    }
  }

  /** The dependencies of `u` in the list have been located. */
  ghost predicate Dealt(s: Snapshot, u: UnversionedPkg, pairs: seq<(string, Dependency)>) {
    forall pair <- pairs | !pair.1.IndexDep? :: (u, pair.1) in s.dependency
  }

  lemma SettlesNothing(s: Snapshot)
    ensures Settles(s, s)
  {
  }

  lemma NothingToDo(w: World, lock: LockFile, m: Manifest, s: Snapshot, entry: Option<LockFileDep>, dep: Dependency,
                    u: UnversionedPkg, v: World, guide: Option<Naming>)
    requires Stands(w, lock, m, s, u, dep)
    ensures Partial(w, lock, m, s) && Settles(s, s)
    ensures Tracks(v, m, w, lock, guide, s, entry, dep, u) ==> OnTrack(v, m, s)
  {
    hide Partial, OnTrack;
  }

  lemma LocateOutcome(w: World, lock: LockFile, m: Manifest, s: Snapshot, entry: Option<LockFileDep>, dep: Dependency,
                      u: UnversionedPkg, v: World, guide: Option<Naming>)
    requires Stands(w, lock, m, s, u, dep) && !dep.IndexDep?
    ensures var located := Locate(w, lock, s.git, entry, dep, u);
      && (located.NotFound? && GoodEntry(lock, entry) ==> located.error != BrokenLock)
      && (located.NotFound? && Tracks(v, m, w, lock, guide, s, entry, dep, u) ==> !Sound(v, m))
      && (located.Found? && dep.GitDep? ==> Absolute(dep.git, u).Some? && located.pkg.GitPkg?)
      && (located.Found? && Tracks(v, m, w, lock, guide, s, entry, dep, u) ==> Step(v, u, dep) == Some(located.pkg))
  {
    hide GoodEntry, Locate, DependenciesFit, Universe, ManifestOf, Absolute, Step, Guides, Follows, AllCommits,
         PathTarget, Normalize, LocalPath, Reachable;
    if GoodEntry(lock, entry) {
      GoodEntryLocates(w, lock, s.git, entry, dep, u);
    }
    if Locate(w, lock, s.git, entry, dep, u).Found? {
      LocatedFits(w, lock, m, s, entry, dep, u);
    }
    if Tracks(v, m, w, lock, guide, s, entry, dep, u) {
      SameView(v, m, w, lock, guide, u);
      LocateTracks(v, m, w, lock, guide, s, entry, dep, u);
    }
  }

  lemma SameView(v: World, m: Manifest, w: World, lock: LockFile, guide: Option<Naming>, u: UnversionedPkg)
    requires Guides(v, m, w, lock, guide)
    ensures w.disk == v.disk && LocalPath(w, u) == LocalPath(v, u) && ManifestOf(w, m, u) == ManifestOf(v, m, u)
  {
    SameWorldView(v, m, w, u);
  }

  lemma MissingManifest(w: World, lock: LockFile, m: Manifest, s: Snapshot, entry: Option<LockFileDep>, dep: Dependency,
                        u: UnversionedPkg, v: World, guide: Option<Naming>)
    requires Stands(w, lock, m, s, u, dep) && !dep.IndexDep? && Locate(w, lock, s.git, entry, dep, u).Found?
    requires var t := Locate(w, lock, s.git, entry, dep, u).pkg; t !in s.manifests && LocalPath(w, t) !in w.disk
    ensures Tracks(v, m, w, lock, guide, s, entry, dep, u) ==> !Sound(v, m)
  {
    hide GoodEntry, Locate, DependenciesFit, Universe, Step, Guides, Follows, AllCommits, Normalize, LocalPath,
         Reachable;
    var t := Locate(w, lock, s.git, entry, dep, u).pkg;
    if Tracks(v, m, w, lock, guide, s, entry, dep, u) {
      LocateOutcome(w, lock, m, s, entry, dep, u, v, guide);
      SameView(v, m, w, lock, guide, u);
      SameView(v, m, w, lock, guide, t);
      StepIsReachable(v, m, u, dep);
    }
  }

  lemma AfterRecord(w: World, lock: LockFile, m: Manifest, s: Snapshot, s': Snapshot, entry: Option<LockFileDep>,
                    dep: Dependency, u: UnversionedPkg, t: UnversionedPkg, v: World, guide: Option<Naming>)
    requires Stands(w, lock, m, s, u, dep) && !dep.IndexDep? && Locate(w, lock, s.git, entry, dep, u) == Found(t)
    requires dep.GitDep? ==> Absolute(dep.git, u).Some? && t.GitPkg?
    requires LocalPath(w, t) in w.disk || t in s.manifests
    requires s' == Snapshot(if dep.GitDep? then s.git[Absolute(dep.git, u).value := t.commit] else s.git,
                            s.dependency[(u, dep) := t],
                            if t in s.manifests then s.manifests else s.manifests[t := w.disk[LocalPath(w, t)]])
    ensures Partial(w, lock, m, s') && s' == Recorded(w, s, u, dep, t)
    ensures t in s.manifests ==> Settles(s, s')
    ensures t !in s.manifests ==> Universe(w, lock, m) - s'.manifests.Keys < Universe(w, lock, m) - s.manifests.Keys
    ensures Tracks(v, m, w, lock, guide, s, entry, dep, u) ==> OnTrack(v, m, s')
    ensures FromLock(lock, entry) && CommitsGiven(w, lock, s) ==> CommitsGiven(w, lock, s')
  {
    hide GoodEntry, Locate, FromLock, CommitsGiven, DependenciesFit, Universe, Step, Guides, Follows, AllCommits,
         Normalize, LocalPath, Reachable, Absolute, OnTrack;
    RecordKeeps(w, lock, m, s, entry, dep, u, t);
    if FromLock(lock, entry) && CommitsGiven(w, lock, s) {
      RecordGiven(w, lock, s, entry, dep, u, t);
    }
    if Tracks(v, m, w, lock, guide, s, entry, dep, u) {
      LocateOutcome(w, lock, m, s, entry, dep, u, v, guide);
      SameView(v, m, w, lock, guide, u);
      OnTrackReaches(v, m, s, u);
      RecordTracks(v, m, w, s, u, dep, t);
    }
  }

  lemma OnTrackReaches(v: World, m: Manifest, s: Snapshot, u: UnversionedPkg)
    requires OnTrack(v, m, s) && u in s.manifests
    ensures Reachable(v, m, u)
  {
  }

  lemma ChildStands(w: World, lock: LockFile, m: Manifest, s0: Snapshot, s1: Snapshot, s: Snapshot,
                    entry: Option<LockFileDep>, dep: Dependency,
                    u: UnversionedPkg, t: UnversionedPkg, v: World, guide: Option<Naming>,
                    pairs: seq<(string, Dependency)>, i: nat)
    requires Stands(w, lock, m, s0, u, dep) && !dep.IndexDep? && Locate(w, lock, s0.git, entry, dep, u) == Found(t)
    requires Partial(w, lock, m, s) && Settles(s1, s) && t in s1.manifests
    requires Lists(pairs, s1.manifests[t].dependencies) && i < |pairs|
    ensures var childEntry := ChildEntry(lock, entry, pairs[i].0);
      && Stands(w, lock, m, s, t, pairs[i].1)
      && Universe(w, lock, m) - s.manifests.Keys <= Universe(w, lock, m) - s1.manifests.Keys
      && (GoodEntry(lock, entry) ==> childEntry.Listed? && GoodEntry(lock, childEntry.entry))
      && (Tracks(v, m, w, lock, guide, s0, entry, dep, u) && OnTrack(v, m, s) ==>
            childEntry.Listed? && Tracks(v, m, w, lock, guide, s, childEntry.entry, pairs[i].1, t))
  {
    hide GoodEntry, DependenciesFit, Universe, Step, Guides, Follows, AllCommits, Normalize, LocalPath, ChildEntry,
         ManifestOf, OnTrack, Locate;
    assert pairs[i] in pairs;
    if GoodEntry(lock, entry) {
      ChildEntryIsGood(lock, entry, pairs[i].0);
    }
    if Tracks(v, m, w, lock, guide, s0, entry, dep, u) && OnTrack(v, m, s) {
      LocateOutcome(w, lock, m, s0, entry, dep, u, v, guide);
      SameView(v, m, w, lock, guide, t);
      OnTrackReaches(v, m, s, t);
      ChildTracks(v, m, w, lock, guide, entry, dep, u, t, pairs[i].0);
    }
  }

  lemma SettlesMore(s1: Snapshot, s: Snapshot, s': Snapshot, t: UnversionedPkg, pairs: seq<(string, Dependency)>,
                    i: nat)
    requires Settles(s1, s) && Settles(s, s') && i < |pairs| && Dealt(s, t, pairs[..i])
    requires pairs[i].1.IndexDep? || (t, pairs[i].1) in s'.dependency
    ensures Settles(s1, s') && Dealt(s', t, pairs[..i + 1])
  {
    assert pairs[..i + 1] == pairs[..i] + [pairs[i]];
    forall u <- s'.manifests | u !in s1.manifests ensures Covered(s', u) {
      if u in s.manifests {
        assert Covered(s, u);
      }
    }
  }

  lemma AllDealt(w: World, s0: Snapshot, s1: Snapshot, s: Snapshot, u: UnversionedPkg, dep: Dependency,
                 t: UnversionedPkg, pairs: seq<(string, Dependency)>)
    requires LocalPath(w, t) in w.disk && t !in s0.manifests
    requires dep.GitDep? ==> Absolute(dep.git, u).Some? && t.GitPkg?
    requires s1 == Recorded(w, s0, u, dep, t) && Settles(s1, s)
    requires Lists(pairs, w.disk[LocalPath(w, t)].dependencies) && Dealt(s, t, pairs[..|pairs|])
    ensures Settles(s0, s) && (u, dep) in s.dependency
  {
    hide Absolute, LocalPath;
    assert pairs[..|pairs|] == pairs;
    forall x <- s.manifests | x !in s0.manifests ensures Covered(s, x) {
      if x == t {
        forall d | Asks(s, t, d) && !d.IndexDep? ensures (t, d) in s.dependency {
          var name :| name in s1.manifests[t].dependencies && s1.manifests[t].dependencies[name] == d;
          assert (name, d) in pairs;
        }
      }
    }
  }

  // Whole snapshots

  /** Every path or git dependency of every manifest in the snapshot leads to another manifest in it. */
  ghost predicate Complete(w: World, m: Manifest, s: Snapshot) {
    && ROOT in s.manifests
    && s.manifests[ROOT] == m
    && (forall u <- s.manifests :: ManifestOf(w, m, u) == Some(s.manifests[u]) && Covered(s, u))
    && (forall u <- s.manifests | u.PathPkg? :: Normalize(u.path) == u.path)
    && DependenciesFit(w, s)
  }

  function RootEntry(lock: LockFile, name: string): Option<LockFileDep> {
    if name in lock.dependencies then Some(lock.dependencies[name]) else None
  }

  /** The lock file leads from the root package through the tree of `v`. */
  ghost predicate GuidesFromRoot(v: World, m: Manifest, w: World, lock: LockFile, guide: Option<Naming>) {
    && Guides(v, m, w, lock, guide)
    && forall name <- m.dependencies :: Follows(v, guide, RootEntry(lock, name), m.dependencies[name], ROOT)
  }

  /**
   * Takes a snapshot of any finite world, with cycles or without. A success is complete, a lock file
   * without dangling references never breaks the run, and a run that is led through the tree of
   * some world succeeds exactly when that tree is sound, and gives that tree.
   */
  method NewWithLock(w: World, m: Manifest, lock: LockFile, ghost v: World, ghost guide: Option<Naming>)
    returns (r: Outcome, snap: Snapshot)
    ensures r.Success? ==> Complete(w, m, snap)
    ensures ClosedLock(lock) ==> r != Failure(BrokenLock)
    ensures GuidesFromRoot(v, m, w, lock, guide) ==> (r.Success? <==> Sound(v, m))
    ensures GuidesFromRoot(v, m, w, lock, guide) && r.Success? ==> SnapshotOf(v, m, snap)
    ensures r.Success? ==> CommitsGiven(w, lock, snap)
  {
    hide Partial, Asks, Settles, OnTrack, Guides, Sound, Follows, GoodEntry, ClosedLock, Complete, SnapshotOf, Lists,
         Covered, CommitsGiven;
    var taker := new Snapshotter();
    taker.manifests := map[ROOT := m];
    snap := Snapshot(map[], map[], map[ROOT := m]);
    ghost var tracked := GuidesFromRoot(v, m, w, lock, guide);
    ghost var s0 := taker.Contents();
    JustRoot(w, lock, m, v);
    SettlesNothing(s0);
    var pairs := SortedPairs(m.dependencies);
    for i := 0 to |pairs|
      invariant Partial(w, lock, m, taker.Contents()) && Settles(s0, taker.Contents())
      invariant Dealt(taker.Contents(), ROOT, pairs[..i])
      invariant (tracked ==> OnTrack(v, m, taker.Contents())) && CommitsGiven(w, lock, taker.Contents())
    {
      var (name, dep) := pairs[i];
      ghost var s1 := taker.Contents();
      RootStands(w, lock, m, s0, s1, pairs, i);
      r := taker.SnapshotRecursive(w, m, lock, RootEntry(lock, name), dep, ROOT, v, guide);
      if r.Failure? {
        return;
      }
      SettlesMore(s0, s1, taker.Contents(), ROOT, pairs, i);
    }
    r := Success;
    snap := Snapshot(taker.git, taker.dependency, taker.manifests);
    IsComplete(w, lock, m, s0, snap, pairs);
    if tracked {
      IsTheTree(w, lock, m, snap, v, guide);
    }
  }

  lemma JustRoot(w: World, lock: LockFile, m: Manifest, v: World)
    ensures
      var s := Snapshot(map[], map[], map[ROOT := m]);
      Partial(w, lock, m, s) && OnTrack(v, m, s) && CommitsGiven(w, lock, s)
  {
    RootIsReachable(v, m);
    NormalEmptyPath();
  }

  lemma NormalEmptyPath()
    ensures Normalize(EMPTY_PATH) == EMPTY_PATH
  {
  }

  lemma RootStands(w: World, lock: LockFile, m: Manifest, s0: Snapshot, s: Snapshot, pairs: seq<(string, Dependency)>,
                   i: nat)
    requires Partial(w, lock, m, s) && Settles(s0, s) && s0.manifests == map[ROOT := m] && Lists(pairs, m.dependencies)
    requires i < |pairs|
    ensures Stands(w, lock, m, s, ROOT, pairs[i].1)
    ensures pairs[i].0 in m.dependencies && m.dependencies[pairs[i].0] == pairs[i].1
    ensures ClosedLock(lock) ==> GoodEntry(lock, RootEntry(lock, pairs[i].0))
    ensures FromLock(lock, RootEntry(lock, pairs[i].0))
  {
    hide DependenciesFit, Universe, AllCommits, Normalize, ManifestOf;
    assert pairs[i] in pairs;
    if pairs[i].0 in lock.dependencies {
      assert lock.dependencies[pairs[i].0] in lock.dependencies.Values;
    }
  }

  lemma IsComplete(w: World, lock: LockFile, m: Manifest, s0: Snapshot, s: Snapshot, pairs: seq<(string, Dependency)>)
    requires Partial(w, lock, m, s) && Settles(s0, s) && s0.manifests == map[ROOT := m]
    requires Lists(pairs, m.dependencies) && Dealt(s, ROOT, pairs[..|pairs|])
    ensures Complete(w, m, s)
  {
    hide Universe, AllCommits, Normalize, DependenciesFit;
    assert pairs[..|pairs|] == pairs;
    forall d | Asks(s, ROOT, d) && !d.IndexDep? ensures (ROOT, d) in s.dependency {
      var name :| name in m.dependencies && m.dependencies[name] == d;
      assert (name, d) in pairs;
    }
  }

  lemma IsTheTree(w: World, lock: LockFile, m: Manifest, s: Snapshot, v: World, guide: Option<Naming>)
    requires Complete(w, m, s) && Guides(v, m, w, lock, guide) && OnTrack(v, m, s)
    ensures SnapshotOf(v, m, s) && Sound(v, m)
  {
    hide Universe, AllCommits, Normalize, OnTrack, ManifestOf, Absolute, PathTarget, Sound, Covered;
    forall u
      ensures ManifestOf(w, m, u) == ManifestOf(v, m, u)
      ensures forall path :: PathTarget(w, u, path) == PathTarget(v, u, path)
    {
      SameWorldView(v, m, w, u);
    }
    SnapshotIsSound(v, m, s);
  }

  /** A snapshot from scratch: it succeeds exactly when the tree is sound, and is the tree. */
  method NewSnapshot(w: World, m: Manifest) returns (r: Outcome, snap: Snapshot)
    ensures r.Success? <==> Sound(w, m)
    ensures r.Success? ==> Complete(w, m, snap) && SnapshotOf(w, m, snap)
  {
    hide Complete, SnapshotOf, Sound;
    r, snap := NewWithLock(w, m, EMPTY_LOCK, w, None);
  }
}
