/** Rebuilding a resolution from a lock file (package/src/resolve.rs). */
module LockRoundTrip {
  import opened Types
  import opened Ordering
  import opened Versions
  import opened Packages
  import opened LockFiles
  import opened Graph

  function VersionsIn(entries: set<LockFileEntry>, id: PackageId): set<SemVer> {
    set e <- entries | e.precise.LockIndex? && e.precise.id == id :: e.precise.version
  }

  function IdsIn(entries: set<LockFileEntry>): set<PackageId> {
    set e <- entries | e.precise.LockIndex? :: e.precise.id
  }

  /** The versions of index packages that a lock file mentions. */
  function LockedVersions(lock: LockFile): map<PackageId, seq<SemVer>> {
    map id <- IdsIn(lock.packages.Values) :: SortedVersions(VersionsIn(lock.packages.Values, id))
  }

  /** Collects the versions in a lock file, then sorts each list and removes its duplicates. */
  method CopyFromLock(lock: LockFile) returns (indexPackages: map<PackageId, seq<SemVer>>)
    ensures indexPackages == LockedVersions(lock)
  {
    var lists: map<PackageId, seq<SemVer>> := map[];
    var todo := lock.packages.Values;
    while todo != {}
      invariant todo <= lock.packages.Values
      invariant lists.Keys == IdsIn(lock.packages.Values - todo)
      invariant forall id <- lists, v :: v in lists[id] <==> v in VersionsIn(lock.packages.Values - todo, id)
      decreases todo
    {
      var entry :| entry in todo;
      ghost var done := lock.packages.Values - todo;
      todo := todo - {entry};
      assert lock.packages.Values - todo == done + {entry};
      forall id ensures VersionsIn(done + {entry}, id) == VersionsIn(done, id) + VersionsIn({entry}, id) {
      }
      if entry.precise.LockIndex? {
        var id, version := entry.precise.id, entry.precise.version;
        assert id !in lists ==> VersionsIn(done, id) == {};
        lists := lists[id := (if id in lists then lists[id] else []) + [version]];
      }
    }
    assert lock.packages.Values - todo == lock.packages.Values;
    assert forall id <- lists :: (set v <- lists[id]) == VersionsIn(lock.packages.Values, id);
    indexPackages := map id <- lists :: SortedVersions(set v <- lists[id]);
  }

  /** The resolution that has only the versions in the lock file. */
  function Rebuilt(r: Resolution, lock: LockFile): Resolution {
    r.(indexPackages := LockedVersions(lock))
  }

  /** Every list of versions was sorted and cleared of duplicates. */
  ghost predicate Ordered(r: Resolution) {
    forall id <- r.indexPackages :: Ascending(r.indexPackages[id], SemVerLe)
  }

  lemma TargetIsListed(r: Resolution, dep: IndexDependency)
    requires IndexTarget(r, dep).Some?
    ensures var p := IndexTarget(r, dep).value;
      p.IndexPkg? && p.id == dep.id && p.id in r.indexPackages && p.version in r.indexPackages[p.id]
        && dep.version.Matches(p.version)
  {
    MatchIsListed(r.indexPackages[dep.id], dep.version);
  }

  lemma {:induction false} MatchIsListed(versions: seq<SemVer>, req: VersionReq)
    requires FirstMatch(versions, req).Some?
    ensures FirstMatch(versions, req).value in versions && req.Matches(FirstMatch(versions, req).value)
  {
    if !req.Matches(versions[0]) {
      MatchIsListed(versions[1..], req);
    }
  }

  /** A package of the tree is a direct dependency of the manifest or of another package of the tree. */
  lemma NeededBySomeone(m: Manifest, r: Resolution, p: PrecisePkg)
    requires Needed(m, r, p)
    ensures (exists dep <- m.dependencies.Values :: Precise(r, dep) == Some(p)) ||
            (exists q | q in Known(r) && Resolved(r, q) :: p in Targets(r, q))
  {
    hide Precise, Resolved, Targets, Known;
    var name :| name in m.dependencies && Precise(r, m.dependencies[name]).Some? &&
                Reach(Depends(r), Precise(r, m.dependencies[name]).value, p);
    var path :| IsPath(Depends(r), path) && path[0] == Precise(r, m.dependencies[name]).value && path[|path| - 1] == p;
    if |path| == 1 {
      assert m.dependencies[name] in m.dependencies.Values;
    } else {
      assert Edge(Depends(r), path[|path| - 2], path[|path| - 2 + 1]);
    }
  }

  lemma NeededVersionIsListed(m: Manifest, r: Resolution, id: PackageId, v: SemVer)
    requires Needed(m, r, IndexPkg(id, v))
    ensures id in r.indexPackages && v in r.indexPackages[id]
  {
    hide Needed, Depends, Known;
    NeededBySomeone(m, r, IndexPkg(id, v));
    if dep :| dep in m.dependencies.Values && Precise(r, dep) == Some(IndexPkg(id, v)) {
      TargetIsListed(r, dep.index);
    } else {
      var q :| q in Known(r) && Resolved(r, q) && IndexPkg(id, v) in Targets(r, q);
      var i :| i in Imports(r, q).Values && i.target == IndexPkg(id, v);
      assert Target(r, q, i.dep) == Some(IndexPkg(id, v));
      TargetIsListed(r, i.dep.index);
    }
  }

  lemma LockedVersionHasEntry(lock: LockFile, id: PackageId, v: SemVer)
    ensures (id in LockedVersions(lock) && v in LockedVersions(lock)[id]) <==>
            exists name <- lock.packages :: lock.packages[name].precise == LockIndex(id, v)
  {
    if id in LockedVersions(lock) && v in LockedVersions(lock)[id] {
      var e :| e in lock.packages.Values && e.precise == LockIndex(id, v);
      var name :| name in lock.packages && lock.packages[name] == e;
    }
    if name :| name in lock.packages && lock.packages[name].precise == LockIndex(id, v) {
      var e := lock.packages[name];
      assert e in lock.packages.Values;
      assert id in IdsIn(lock.packages.Values) && v in VersionsIn(lock.packages.Values, id);
    }
  }

  /** The lock file mentions exactly the index packages of the tree. */
  lemma LockedVersionsAreNeeded(m: Manifest, r: Resolution, lock: LockFile, naming: Naming, id: PackageId, v: SemVer)
    requires Locks(m, r, lock, naming)
    ensures (id in LockedVersions(lock) && v in LockedVersions(lock)[id]) <==> Needed(m, r, IndexPkg(id, v))
  {
    hide Needed, Resolved, TargetsNamed, Resolves, RootsNamed, LockedVersions, LockDeps;
    LockedVersionHasEntry(lock, id, v);
    if name :| name in lock.packages && lock.packages[name].precise == LockIndex(id, v) {
      var p :| p in naming && Needed(m, r, p) && naming[p] == name;
      assert ToLock(p) == LockIndex(id, v);
    }
    if Needed(m, r, IndexPkg(id, v)) {
      assert lock.packages[naming[IndexPkg(id, v)]].precise == LockIndex(id, v);
    }
  }

  lemma LeastInFewer(versions: seq<SemVer>, fewer: seq<SemVer>, req: VersionReq, v: SemVer)
    requires Ascending(versions, SemVerLe) && Ascending(fewer, SemVerLe) && FirstMatch(versions, req) == Some(v)
    requires v in fewer && forall w <- fewer :: w in versions
    ensures FirstMatch(fewer, req) == Some(v)
  {
    hide SemVerLe, Ascending, FirstMatch;
    FirstMatchIsLeast(versions, req);
    FirstMatchIsLeast(fewer, req);
    assert LeastMatch(versions, req, v) && LeastMatch(fewer, req, v);
  }

  /** Fewer versions to choose from, the same choice. */
  lemma SameVersion(m: Manifest, r: Resolution, lock: LockFile, naming: Naming, dep: IndexDependency)
    requires Locks(m, r, lock, naming) && Ordered(r)
    requires IndexTarget(r, dep).Some? && Needed(m, r, IndexTarget(r, dep).value)
    ensures IndexTarget(Rebuilt(r, lock), dep) == IndexTarget(r, dep)
  {
    hide Needed, Locks, SemVerLe, Ascending, FirstMatch;
    TargetIsListed(r, dep);
    var v := IndexTarget(r, dep).value.version;
    LockedVersionsAreNeeded(m, r, lock, naming, dep.id, v);
    forall w <- LockedVersions(lock)[dep.id] ensures w in r.indexPackages[dep.id] {
      LockedVersionsAreNeeded(m, r, lock, naming, dep.id, w);
      NeededVersionIsListed(m, r, dep.id, w);
    }
    LeastInFewer(r.indexPackages[dep.id], LockedVersions(lock)[dep.id], dep.version, v);
  }

  lemma RootHasTarget(m: Manifest, r: Resolution, lock: LockFile, naming: Naming, name: string)
    requires Locks(m, r, lock, naming) && name in m.dependencies
    ensures Precise(r, m.dependencies[name]).Some?
  {
    hide Needed, Precise;
    assert m.dependencies[name] in m.dependencies.Values;
  }

  lemma SamePrecise(m: Manifest, r: Resolution, lock: LockFile, naming: Naming, name: string)
    requires Locks(m, r, lock, naming) && Ordered(r) && name in m.dependencies
    ensures Precise(Rebuilt(r, lock), m.dependencies[name]) == Precise(r, m.dependencies[name])
  {
    hide Needed, Locks, IndexTarget;
    var dep := m.dependencies[name];
    RootHasTarget(m, r, lock, naming, name);
    RootIsNeeded(m, r, name);
    if dep.IndexDep? {
      SameVersion(m, r, lock, naming, dep.index);
    }
  }

  lemma SameTarget(m: Manifest, r: Resolution, lock: LockFile, naming: Naming, p: PrecisePkg, name: string)
    requires Locks(m, r, lock, naming) && Ordered(r) && Needed(m, r, p) && Resolved(r, p)
    requires name in Requested(r, p).value
    ensures Target(Rebuilt(r, lock), p, Requested(r, p).value[name]) == Target(r, p, Requested(r, p).value[name])
  {
    hide Locks, Needed;
    var dep := Requested(r, p).value[name];
    assert Imports(r, p)[name] in Imports(r, p).Values;
    TargetIsNeeded(m, r, p, Imports(r, p)[name].target);
    if dep.IndexDep? {
      SameVersion(m, r, lock, naming, dep.index);
    }
  }

  lemma SameImports(m: Manifest, r: Resolution, lock: LockFile, naming: Naming, p: PrecisePkg)
    requires Locks(m, r, lock, naming) && Ordered(r) && Needed(m, r, p)
    ensures Resolved(r, p) && Resolved(Rebuilt(r, lock), p) && Imports(Rebuilt(r, lock), p) == Imports(r, p)
  {
    hide Needed, Target, LockedVersions, Entry, TargetsNamed;
    var r' := Rebuilt(r, lock);
    assert Requested(r', p) == Requested(r, p);
    var deps := Requested(r, p).value;
    forall name <- deps ensures Target(r', p, deps[name]) == Target(r, p, deps[name]) {
      SameTarget(m, r, lock, naming, p, name);
    }
  }

  /**
   Two resolutions that agree on the roots and on every package of the first tree have trees where one
   contains the other.
   */
  lemma TreeContains(m: Manifest, r: Resolution, r': Resolution, p: PrecisePkg)
    requires forall dep <- m.dependencies.Values :: Precise(r', dep) == Precise(r, dep)
    requires forall q | Needed(m, r, q) :: Resolved(r, q) && Resolved(r', q) && Imports(r', q) == Imports(r, q)
    requires Needed(m, r', p)
    ensures Needed(m, r, p)
  {
    hide Precise, Resolved, Imports;
    var tree := set q | q in Known(r) && Needed(m, r, q);
    forall q | Needed(m, r, q) ensures q in tree {
      DependsOn(r, q);
    }
    assert Closed(Depends(r'), tree) by {
      forall a <- tree, b | Edge(Depends(r'), a, b) ensures b in tree {
        assert Targets(r', a) == Targets(r, a);
        TargetIsNeeded(m, r, a, b);
      }
    }
    var name :| name in m.dependencies && Precise(r', m.dependencies[name]).Some? &&
                Reach(Depends(r'), Precise(r', m.dependencies[name]).value, p);
    assert m.dependencies[name] in m.dependencies.Values;
    RootIsNeeded(m, r, name);
    ReachStaysInside(Depends(r'), tree, Precise(r', m.dependencies[name]).value, p);
  }

  /**
   * The lock round trip: the resolution rebuilt from a lock file has the same tree, resolves every
   * dependency in it to the same package, and is locked by the same file.
   */
  lemma RoundTrip(m: Manifest, r: Resolution, lock: LockFile, naming: Naming)
    requires Locks(m, r, lock, naming) && Ordered(r)
    ensures var r' := Rebuilt(r, lock);
      && Agree(m, r, r')
      && (forall p :: Needed(m, r', p) <==> Needed(m, r, p))
      && Locks(m, r', lock, naming)
  {
    var r' := Rebuilt(r, lock);
    SameRoots(m, r, lock, naming);
    forall p | Needed(m, r, p) ensures Resolved(r, p) && Resolved(r', p) && Imports(r', p) == Imports(r, p) {
      SameImports(m, r, lock, naming, p);
    }
    SameTree(m, r, r');
    StillLocks(m, r, r', lock, naming);
  }

  lemma SameRoots(m: Manifest, r: Resolution, lock: LockFile, naming: Naming)
    requires Locks(m, r, lock, naming) && Ordered(r)
    ensures forall dep <- m.dependencies.Values :: Precise(Rebuilt(r, lock), dep) == Precise(r, dep)
  {
    hide *;
    forall dep <- m.dependencies.Values ensures Precise(Rebuilt(r, lock), dep) == Precise(r, dep) {
      var name :| name in m.dependencies && m.dependencies[name] == dep;
      SamePrecise(m, r, lock, naming, name);
    }
  }

  /** The same direct dependencies, and the same dependencies for each package of the tree. */
  ghost predicate Agree(m: Manifest, r: Resolution, r': Resolution) {
    && (forall dep <- m.dependencies.Values :: Precise(r', dep) == Precise(r, dep))
    && (forall p | Needed(m, r, p) :: Resolved(r, p) && Resolved(r', p) && Imports(r', p) == Imports(r, p))
  }

  lemma SameTree(m: Manifest, r: Resolution, r': Resolution)
    requires Agree(m, r, r')
    ensures forall p :: Needed(m, r', p) <==> Needed(m, r, p)
  {
    hide Precise, Needed, Resolved, Imports;
    forall p ensures Needed(m, r', p) <==> Needed(m, r, p) {
      if Needed(m, r', p) {
        TreeContains(m, r, r', p);
      }
      if Needed(m, r, p) {
        forall q | Needed(m, r', q) ensures Needed(m, r, q) {
          TreeContains(m, r, r', q);
        }
        TreeContains(m, r', r, p);
      }
    }
  }

  lemma StillLocks(m: Manifest, r: Resolution, r': Resolution, lock: LockFile, naming: Naming)
    requires Locks(m, r, lock, naming) && Agree(m, r, r')
    requires forall p :: Needed(m, r', p) <==> Needed(m, r, p)
    ensures Locks(m, r', lock, naming)
  {
    hide Precise, Needed, Resolved, Imports;
    assert RootDeps(m, r', naming) == RootDeps(m, r, naming);
  }
}
