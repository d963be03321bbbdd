/** Snapshots of the path and git packages in a dependency tree (package/src/snapshot.rs). */
module Snapshots {
  import opened Types
  import opened RelativePath
  import opened Packages
  import opened LockFiles

  /**
   The files and repositories outside: where commits are checked out, what fetching gives, and the
   manifests on disk.
   */
  datatype World = World(gitDir: FilePath, fetch: map<GitDependency, ObjectId>, disk: map<FilePath, Manifest>)

  datatype SnapshotError = RelativeGitImport | FetchFailed | RestrictedPath | NoManifest | BrokenLock

  datatype Located = Found(pkg: UnversionedPkg) | NotFound(error: SnapshotError)

  datatype Outcome = Success | Failure(error: SnapshotError)

  function RepoRoot(w: World, commit: ObjectId): FilePath {
    Join(w.gitDir, FilePath(false, [Normal(commit)]))
  }

  /** Where a package is found, from the directory of the root package. */
  function LocalPath(w: World, u: UnversionedPkg): FilePath {
    match u
    case GitPkg(_, commit, path) => Join(RepoRoot(w, commit), path)
    case PathPkg(path) => path
  }

  /** The git dependency as seen from the root, if the package it is written in gives it a meaning. */
  function Absolute(git: GitDependency, relativeTo: UnversionedPkg): Option<GitDependency> {
    if git.url.Remote? || git.url.path.rooted then Some(git)
    else if relativeTo.PathPkg? then Some(git.(url := LocalRepo(Join(relativeTo.path, git.url.path))))
    else None
  }

  function StripPrefix(p: FilePath, prefix: FilePath): Option<FilePath> {
    if p.rooted == prefix.rooted && prefix.parts <= p.parts then Some(FilePath(false, p.parts[|prefix.parts|..]))
    else None
  }

  /** The package at a path given by another package; inside a repository it may not leave it. */
  function PathTarget(w: World, relativeTo: UnversionedPkg, path: FilePath): Option<UnversionedPkg> {
    var p := Normalize(Join(LocalPath(w, relativeTo), path));
    match relativeTo
    case GitPkg(url, commit, _) =>
      (match StripPrefix(p, RepoRoot(w, commit))
       case None => None
       case Some(q) => Some(GitPkg(url, commit, q)))
    case PathPkg(_) => Some(PathPkg(p))
  }

  datatype Lookup = Present(commit: ObjectId) | Absent | Broken

  /** The commit in the lock file, if the dependency has not changed since. */
  function LockedCommit(lock: LockFile, entry: Option<LockFileDep>, git: GitDependency): Lookup {
    if entry.None? || entry.value.spec != Some(git) then Absent
    else if entry.value.name in lock.packages && lock.packages[entry.value.name].precise.LockGit?
    then Present(lock.packages[entry.value.name].precise.commit)
    else Broken
  }

  /** The package a dependency stands for, with the commits known so far. */
  function Locate(w: World, lock: LockFile, known: map<GitDependency, ObjectId>, entry: Option<LockFileDep>,
                  dep: Dependency, relativeTo: UnversionedPkg): Located
    requires !dep.IndexDep?
  {
    match dep
    case GitDep(git) =>
      (match (LockedCommit(lock, entry, git), Absolute(git, relativeTo))
       case (Broken, _) => NotFound(BrokenLock)
       case (_, None) => NotFound(RelativeGitImport)
       case (Present(commit), Some(abs)) => Found(GitPkg(abs.url, commit, abs.path))
       case (Absent, Some(abs)) =>
         if abs in known then Found(GitPkg(abs.url, known[abs], abs.path))
         else if abs in w.fetch then Found(GitPkg(abs.url, w.fetch[abs], abs.path))
         else NotFound(FetchFailed))
    case PathDep(path) =>
      (match PathTarget(w, relativeTo, path)
       case None => NotFound(RestrictedPath)
       case Some(t) => Found(t))
  }

  datatype EntryLookup = Listed(entry: Option<LockFileDep>) | Unlisted

  /** The lock entry of a dependency, below the entry of the package that has it. */
  function ChildEntry(lock: LockFile, entry: Option<LockFileDep>, name: string): EntryLookup {
    if entry.None? then Listed(None)
    else if entry.value.name !in lock.packages then Unlisted
    else
      var deps := lock.packages[entry.value.name].dependencies;
      Listed(if name in deps then Some(deps[name]) else None)
  }

  function ManifestOf(w: World, m: Manifest, u: UnversionedPkg): Option<Manifest> {
    if u == ROOT then Some(m)
    else if LocalPath(w, u) in w.disk then Some(w.disk[LocalPath(w, u)])
    else None
  }

  // The finite universe of packages

  function AllManifests(w: World, m: Manifest): set<Manifest> {
    w.disk.Values + {m}
  }

  function AllGits(w: World, m: Manifest): set<GitDependency> {
    set mf <- AllManifests(w, m), d <- mf.dependencies.Values | d.GitDep? :: d.git
  }

  function AllUrls(w: World, m: Manifest): set<Url> {
    (set g <- AllGits(w, m) :: g.url) +
    (set g <- AllGits(w, m), b <- w.disk.Keys + {EMPTY_PATH} | g.url.LocalRepo? :: LocalRepo(Join(b, g.url.path)))
  }

  function AllCommits(w: World, lock: LockFile): set<ObjectId> {
    w.fetch.Values + set e <- lock.packages.Values | e.precise.LockGit? :: e.precise.commit
  }

  function AllPaths(w: World, m: Manifest): set<FilePath> {
    (set g <- AllGits(w, m) :: g.path)
      + (set p <- w.disk.Keys, k | 0 <= k <= |p.parts| :: FilePath(false, p.parts[k..]))
  }

  function Universe(w: World, lock: LockFile, m: Manifest): set<UnversionedPkg> {
    (set u <- AllUrls(w, m), c <- AllCommits(w, lock), p <- AllPaths(w, m) :: GitPkg(u, c, p)) +
    (set p <- w.disk.Keys + {EMPTY_PATH} :: PathPkg(p))
  }

  lemma NormalHasNoCurDir(p: FilePath)
    ensures forall c <- Normalize(p).parts :: !c.CurDir?
  {
    var k := CanonicalOf(p.parts);
    assert k.Path() == Ups(k.ups) + Names(k.names);
  }

  lemma StrippedIsBelow(p: FilePath, prefix: FilePath, q: FilePath)
    requires StripPrefix(p, prefix) == Some(q) && forall c <- p.parts :: !c.CurDir?
    ensures Join(prefix, q) == p
  {
    if q.parts != [] {
      assert q.parts[0] == p.parts[|prefix.parts|];
    }
    assert p.parts == prefix.parts + q.parts;
  }

  lemma GitIsInUniverse(w: World, lock: LockFile, m: Manifest, git: GitDependency, relativeTo: UnversionedPkg,
                        commit: ObjectId)
    requires relativeTo in Universe(w, lock, m) && git in AllGits(w, m) && commit in AllCommits(w, lock)
    requires Absolute(git, relativeTo).Some?
    ensures var abs := Absolute(git, relativeTo).value; GitPkg(abs.url, commit, abs.path) in Universe(w, lock, m)
  {
    hide AllGits, AllCommits;
  }

  lemma PathIsInUniverse(w: World, lock: LockFile, m: Manifest, path: FilePath, relativeTo: UnversionedPkg)
    requires relativeTo in Universe(w, lock, m) && PathTarget(w, relativeTo, path).Some?
    requires LocalPath(w, PathTarget(w, relativeTo, path).value) in w.disk
    ensures PathTarget(w, relativeTo, path).value in Universe(w, lock, m)
  {
    hide AllGits, AllCommits, AllUrls, Normalize, Join;
    if relativeTo.GitPkg? {
      var p := Normalize(Join(LocalPath(w, relativeTo), path));
      var root := RepoRoot(w, relativeTo.commit);
      var q := StripPrefix(p, root).value;
      NormalHasNoCurDir(Join(LocalPath(w, relativeTo), path));
      StrippedIsBelow(p, root, q);
      assert p in w.disk.Keys && q == FilePath(false, p.parts[|root.parts|..]);
      assert q in AllPaths(w, m);
    }
  }

  // The state of a snapshot in the making

  /** What is known of the target of a dependency, whichever commits the lock file or the network give. */
  ghost predicate Fits(w: World, git: map<GitDependency, ObjectId>, u: UnversionedPkg, dep: Dependency,
                       t: UnversionedPkg) {
    match dep
    case GitDep(g) =>
      && Absolute(g, u).Some? && Absolute(g, u).value in git
      && t.GitPkg? && t.url == Absolute(g, u).value.url && t.path == Absolute(g, u).value.path
    case PathDep(path) => PathTarget(w, u, path) == Some(t)
    case IndexDep(_) => false
  }

  ghost predicate Asks(s: Snapshot, u: UnversionedPkg, dep: Dependency) {
    u in s.manifests && dep in s.manifests[u].dependencies.Values
  }

  ghost predicate ManifestsFit(w: World, lock: LockFile, m: Manifest, s: Snapshot) {
    && ROOT in s.manifests
    && s.manifests.Keys <= Universe(w, lock, m)
    && (forall u <- s.manifests :: ManifestOf(w, m, u) == Some(s.manifests[u]))
    && (forall u <- s.manifests | u.PathPkg? :: Normalize(u.path) == u.path)
  }

  ghost predicate DependenciesFit(w: World, s: Snapshot) {
    forall k <- s.dependency ::
      Asks(s, k.0, k.1) && s.dependency[k] in s.manifests && Fits(w, s.git, k.0, k.1, s.dependency[k])
  }

  ghost predicate Partial(w: World, lock: LockFile, m: Manifest, s: Snapshot) {
    && ManifestsFit(w, lock, m, s)
    && DependenciesFit(w, s)
    && s.git.Values <= AllCommits(w, lock)
  }

  /** Each path or git dependency of `u` has been located. */
  ghost predicate Covered(s: Snapshot, u: UnversionedPkg) {
    forall dep | Asks(s, u, dep) && !dep.IndexDep? :: (u, dep) in s.dependency
  }

  ghost predicate Grows(a: Snapshot, b: Snapshot) {
    && a.git.Keys <= b.git.Keys
    && a.dependency.Keys <= b.dependency.Keys
    && a.manifests.Keys <= b.manifests.Keys
    && forall u <- a.manifests :: b.manifests[u] == a.manifests[u]
  }

  /** From `a` to `b`, every new package has been dealt with. */
  ghost predicate Settles(a: Snapshot, b: Snapshot) {
    Grows(a, b) && forall u <- b.manifests | u !in a.manifests :: Covered(b, u)
  }

  /** The snapshot after `dep` of `u` was located at `t`. */
  function Recorded(w: World, s: Snapshot, u: UnversionedPkg, dep: Dependency, t: UnversionedPkg): Snapshot
    requires dep.GitDep? ==> Absolute(dep.git, u).Some? && t.GitPkg?
    requires LocalPath(w, t) in w.disk || t in s.manifests
  {
    Snapshot(
      if dep.GitDep? then s.git[Absolute(dep.git, u).value := t.commit] else s.git,
      s.dependency[(u, dep) := t],
      if t in s.manifests then s.manifests else s.manifests[t := w.disk[LocalPath(w, t)]])
  }

  lemma LocatedFits(w: World, lock: LockFile, m: Manifest, s: Snapshot, entry: Option<LockFileDep>, dep: Dependency,
                    u: UnversionedPkg)
    requires Partial(w, lock, m, s) && !dep.IndexDep? && Locate(w, lock, s.git, entry, dep, u).Found?
    ensures var t := Locate(w, lock, s.git, entry, dep, u).pkg;
      && (dep.GitDep? ==> Absolute(dep.git, u).Some? && t.GitPkg? && t.commit in AllCommits(w, lock))
      && (dep.GitDep? ==> t == GitPkg(Absolute(dep.git, u).value.url, t.commit, Absolute(dep.git, u).value.path))
      && (dep.PathDep? ==> PathTarget(w, u, dep.path) == Some(t))
      && (t.PathPkg? ==> Normalize(t.path) == t.path)
  {
    hide ManifestsFit, DependenciesFit;
    if dep.PathDep? {
      NormalizeTwice(Join(LocalPath(w, u), dep.path));
    } else if LockedCommit(lock, entry, dep.git).Present? {
      assert lock.packages[entry.value.name] in lock.packages.Values;
    }
  }

  lemma GitsAsked(w: World, lock: LockFile, m: Manifest, s: Snapshot, u: UnversionedPkg, dep: Dependency)
    requires ManifestsFit(w, lock, m, s) && Asks(s, u, dep) && dep.GitDep?
    ensures dep.git in AllGits(w, m)
  {
    assert s.manifests[u] in AllManifests(w, m);
  }

  lemma LocatedInUniverse(w: World, lock: LockFile, m: Manifest, s: Snapshot, entry: Option<LockFileDep>,
                          dep: Dependency, u: UnversionedPkg)
    requires Partial(w, lock, m, s) && Asks(s, u, dep) && !dep.IndexDep? && Locate(w, lock, s.git, entry, dep, u).Found?
    requires LocalPath(w, Locate(w, lock, s.git, entry, dep, u).pkg) in w.disk
    ensures Locate(w, lock, s.git, entry, dep, u).pkg in Universe(w, lock, m)
  {
    hide Universe, Locate, DependenciesFit, Normalize, LocalPath, AllGits, AllCommits;
    LocatedFits(w, lock, m, s, entry, dep, u);
    if dep.PathDep? {
      PathIsInUniverse(w, lock, m, dep.path, u);
    } else {
      GitsAsked(w, lock, m, s, u, dep);
      GitIsInUniverse(w, lock, m, dep.git, u, Locate(w, lock, s.git, entry, dep, u).pkg.commit);
    }
  }

  /** Recording a located dependency keeps the snapshot in order. */
  lemma RecordKeeps(w: World, lock: LockFile, m: Manifest, s: Snapshot, entry: Option<LockFileDep>, dep: Dependency,
                    u: UnversionedPkg, t: UnversionedPkg)
    requires Partial(w, lock, m, s) && Asks(s, u, dep) && !dep.IndexDep?
    requires Locate(w, lock, s.git, entry, dep, u) == Found(t)
    requires LocalPath(w, t) in w.disk || t in s.manifests
    requires dep.GitDep? ==> Absolute(dep.git, u).Some? && t.GitPkg?
    ensures var s' := Recorded(w, s, u, dep, t);
      && Partial(w, lock, m, s') && Grows(s, s')
      && (t !in s.manifests ==> Universe(w, lock, m) - s'.manifests.Keys < Universe(w, lock, m) - s.manifests.Keys)
  {
    hide Universe, Locate, Normalize, LocalPath, AllCommits, PathTarget, Absolute, ManifestsFit, DependenciesFit;
    LocatedFits(w, lock, m, s, entry, dep, u);
    if t !in s.manifests {
      LocatedInUniverse(w, lock, m, s, entry, dep, u);
    }
    RecordKeepsManifests(w, lock, m, s, dep, u, t);
    RecordKeepsDependencies(w, s, dep, u, t);
  }

  lemma RecordKeepsManifests(w: World, lock: LockFile, m: Manifest, s: Snapshot, dep: Dependency, u: UnversionedPkg,
                             t: UnversionedPkg)
    requires ManifestsFit(w, lock, m, s) && (LocalPath(w, t) in w.disk || t in s.manifests)
    requires dep.GitDep? ==> Absolute(dep.git, u).Some? && t.GitPkg?
    requires t !in s.manifests ==> t in Universe(w, lock, m)
    requires t.PathPkg? ==> Normalize(t.path) == t.path
    ensures var s' := Recorded(w, s, u, dep, t);
      && ManifestsFit(w, lock, m, s')
      && (t !in s.manifests ==> Universe(w, lock, m) - s'.manifests.Keys < Universe(w, lock, m) - s.manifests.Keys)
  {
    hide Universe, Normalize, LocalPath, Absolute;
    if t !in s.manifests {
      assert t in Universe(w, lock, m) - s.manifests.Keys;
    }
  }

  lemma RecordKeepsDependencies(w: World, s: Snapshot, dep: Dependency, u: UnversionedPkg, t: UnversionedPkg)
    requires DependenciesFit(w, s) && Asks(s, u, dep) && !dep.IndexDep?
    requires LocalPath(w, t) in w.disk || t in s.manifests
    requires dep.GitDep? ==> Absolute(dep.git, u).Some? && t.GitPkg?
    requires dep.GitDep? ==> t == GitPkg(Absolute(dep.git, u).value.url, t.commit, Absolute(dep.git, u).value.path)
    requires dep.PathDep? ==> PathTarget(w, u, dep.path) == Some(t)
    ensures DependenciesFit(w, Recorded(w, s, u, dep, t))
  {
    hide LocalPath, PathTarget, Absolute;
    var s' := Recorded(w, s, u, dep, t);
    forall k <- s'.dependency
      ensures Asks(s', k.0, k.1) && s'.dependency[k] in s'.manifests && Fits(w, s'.git, k.0, k.1, s'.dependency[k])
    {
      if k != (u, dep) {
        assert k in s.dependency;
      }
    }
  }

  // Where commits come from

  /** Fetching `g` gives the commit, or the lock file records it for a dependency that was written as `g`. */
  ghost predicate CommitFrom(w: World, lock: LockFile, g: GitDependency, commit: ObjectId) {
    (g in w.fetch && w.fetch[g] == commit) || LockedFor(lock, g, commit)
  }

  ghost predicate LockedFor(lock: LockFile, g: GitDependency, commit: ObjectId) {
    exists d: LockFileDep, u: UnversionedPkg ::
      && InLock(lock, d) && d.spec.Some? && Absolute(d.spec.value, u) == Some(g) && d.name in lock.packages
      && lock.packages[d.name].precise.LockGit? && lock.packages[d.name].precise.commit == commit
  }

  /** Every commit in the snapshot comes from fetching or from an unchanged dependency of the lock file. */
  ghost predicate CommitsGiven(w: World, lock: LockFile, s: Snapshot) {
    && (forall g <- s.git :: CommitFrom(w, lock, g, s.git[g]))
    && (forall k <- s.dependency | k.1.GitDep? && s.dependency[k].GitPkg? && Absolute(k.1.git, k.0).Some? ::
          CommitFrom(w, lock, Absolute(k.1.git, k.0).value, s.dependency[k].commit))
  }

  ghost predicate FromLock(lock: LockFile, entry: Option<LockFileDep>) {
    entry.Some? ==> InLock(lock, entry.value)
  }

  lemma ChildFromLock(lock: LockFile, entry: Option<LockFileDep>, name: string)
    ensures ChildEntry(lock, entry, name).Listed? ==> FromLock(lock, ChildEntry(lock, entry, name).entry)
  {
    var child := ChildEntry(lock, entry, name);
    if child.Listed? && child.entry.Some? {
      var e := lock.packages[entry.value.name];
      assert e in lock.packages.Values && child.entry.value in e.dependencies.Values;
    }
  }

  /** The commit of a git dependency: the recorded one if it is unchanged, the known one, or what fetching gives. */
  lemma CommitChosen(w: World, lock: LockFile, known: map<GitDependency, ObjectId>, entry: Option<LockFileDep>,
                     git: GitDependency, u: UnversionedPkg)
    requires Locate(w, lock, known, entry, GitDep(git), u).Found?
    ensures
      var commit := Locate(w, lock, known, entry, GitDep(git), u).pkg.commit;
      var abs := Absolute(git, u).value;
      && (entry.Some? && entry.value.spec == Some(git) ==> lock.packages[entry.value.name].precise.commit == commit)
      && (entry.None? || entry.value.spec != Some(git) ==>
            if abs in known then commit == known[abs] else abs in w.fetch && commit == w.fetch[abs])
  {
  }

  lemma LocatedCommit(w: World, lock: LockFile, s: Snapshot, entry: Option<LockFileDep>, git: GitDependency,
                      u: UnversionedPkg)
    requires CommitsGiven(w, lock, s) && FromLock(lock, entry)
    requires Locate(w, lock, s.git, entry, GitDep(git), u).Found?
    ensures Absolute(git, u).Some?
    ensures CommitFrom(w, lock, Absolute(git, u).value, Locate(w, lock, s.git, entry, GitDep(git), u).pkg.commit)
  {
    hide Absolute;
    CommitChosen(w, lock, s.git, entry, git, u);
  }

  lemma RecordGiven(w: World, lock: LockFile, s: Snapshot, entry: Option<LockFileDep>, dep: Dependency,
                    u: UnversionedPkg, t: UnversionedPkg)
    requires CommitsGiven(w, lock, s) && FromLock(lock, entry) && !dep.IndexDep?
    requires Locate(w, lock, s.git, entry, dep, u) == Found(t) && (LocalPath(w, t) in w.disk || t in s.manifests)
    requires dep.GitDep? ==> Absolute(dep.git, u).Some? && t.GitPkg?
    ensures CommitsGiven(w, lock, Recorded(w, s, u, dep, t))
  {
    hide Locate, Absolute, LocalPath, CommitFrom;
    if dep.GitDep? {
      LocatedCommit(w, lock, s, entry, dep.git, u);
    }
  }
}
