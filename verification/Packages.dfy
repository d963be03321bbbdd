/** Packages, manifests and resolutions (package/src/lib.rs, package/src/resolve.rs). */
module Packages {
  import opened Types
  import opened RelativePath
  import opened Ordering
  import opened Versions
  import opened Graph

  /** A path without prefix, absolute or relative. */
  datatype FilePath = FilePath(rooted: bool, parts: Path)

  const EMPTY_PATH := FilePath(false, [])

  /** `a.join(b)`: an absolute path replaces what it is joined to, and only a leading `.` is ever seen. */
  function Join(a: FilePath, b: FilePath): FilePath {
    if b.rooted then b
    else if (a.rooted || a.parts != []) && b.parts != [] && b.parts[0].CurDir?
    then FilePath(a.rooted, a.parts + b.parts[1..])
    else FilePath(a.rooted, a.parts + b.parts)
  }

  /** Nothing is above the root of an absolute path, so climbing from there is dropped. */
  function Normalize(p: FilePath): FilePath {
    FilePath(p.rooted, if p.rooted then Names(CanonicalOf(p.parts).names) else CanonicalOf(p.parts).Path())
  }

  lemma NormalizeTwice(p: FilePath)
    ensures Normalize(Normalize(p)) == Normalize(p)
  {
    var k := CanonicalOf(p.parts);
    NormalizationIsIdempotent(k);
    var below := Canonical(0, k.names);
    NormalizationIsIdempotent(below);
    assert Ups(0) + Names(k.names) == Names(k.names);
  }

  datatype Url = Remote(text: string) | LocalRepo(path: FilePath)

  datatype GitTarget = Head | Branch(branch: string) | Tag(tag: string) | Commit(commit: string)

  /** A git object id in hexadecimal. */
  type ObjectId = string

  datatype GitDependency = GitDependency(url: Url, target: GitTarget, path: FilePath)

  datatype PackageId = Github(org: string, name: string, path: FilePath)

  datatype IndexDependency = IndexDependency(id: PackageId, version: VersionReq)

  datatype Dependency = GitDep(git: GitDependency) | PathDep(path: FilePath) | IndexDep(index: IndexDependency)

  /** A package with nothing left to resolve: its place, and for git its commit. */
  datatype UnversionedPkg = GitPkg(url: Url, commit: ObjectId, path: FilePath) | PathPkg(path: FilePath)

  datatype PrecisePkg = Unversioned(pkg: UnversionedPkg) | IndexPkg(id: PackageId, version: SemVer)

  /** The root package has the empty path. */
  const ROOT := PathPkg(EMPTY_PATH)

  datatype Manifest = Manifest(dependencies: map<string, Dependency>)

  datatype Snapshot = Snapshot(
    git: map<GitDependency, ObjectId>,
    dependency: map<(UnversionedPkg, Dependency), UnversionedPkg>,
    manifests: map<UnversionedPkg, Manifest>)

  datatype Resolution = Resolution(
    snapshot: Snapshot,
    index: map<(PackageId, SemVer), map<string, IndexDependency>>,
    indexPackages: map<PackageId, seq<SemVer>>)

  // `None` stands for a lookup that fails, with an error or a panic.

  function IndexDepVersion(r: Resolution, dep: IndexDependency): Option<SemVer> {
    if dep.id in r.indexPackages then FirstMatch(r.indexPackages[dep.id], dep.version) else None
  }

  /** The package an index dependency resolves to. */
  function IndexTarget(r: Resolution, dep: IndexDependency): Option<PrecisePkg> {
    match IndexDepVersion(r, dep)
    case None => None
    case Some(v) => Some(IndexPkg(dep.id, v))
  }

  /** The package a dependency of the root resolves to. A path is taken as the manifest spells it. */
  function Precise(r: Resolution, dep: Dependency): Option<PrecisePkg> {
    match dep
    case GitDep(git) =>
      if git in r.snapshot.git then Some(Unversioned(GitPkg(git.url, r.snapshot.git[git], git.path))) else None
    case PathDep(path) => Some(Unversioned(PathPkg(path)))
    case IndexDep(index) => IndexTarget(r, index)
  }

  /** What a package asks for, by the names it uses. */
  function Requested(r: Resolution, pkg: PrecisePkg): Option<map<string, Dependency>> {
    match pkg
    case Unversioned(u) => if u in r.snapshot.manifests then Some(r.snapshot.manifests[u].dependencies) else None
    case IndexPkg(id, v) =>
      if (id, v) in r.index then Some(map name <- r.index[(id, v)] :: IndexDep(r.index[(id, v)][name])) else None
  }

  /** The package that a dependency of `pkg` resolves to. */
  function Target(r: Resolution, pkg: PrecisePkg, dep: Dependency): Option<PrecisePkg> {
    if dep.IndexDep? then IndexTarget(r, dep.index)
    else if pkg.Unversioned? && (pkg.pkg, dep) in r.snapshot.dependency
    then Some(Unversioned(r.snapshot.dependency[(pkg.pkg, dep)]))
    else None
  }

  /** The package is known, and each of its dependencies resolves. */
  predicate Resolved(r: Resolution, pkg: PrecisePkg) {
    Requested(r, pkg).Some? && forall dep <- Requested(r, pkg).value.Values :: Target(r, pkg, dep).Some?
  }

  datatype Import = Import(dep: Dependency, target: PrecisePkg)

  function Imports(r: Resolution, pkg: PrecisePkg): (m: map<string, Import>)
    requires Resolved(r, pkg)
    ensures m.Keys == Requested(r, pkg).value.Keys
  {
    var deps := Requested(r, pkg).value;
    map name <- deps :: Import(deps[name], Target(r, pkg, deps[name]).value)
  }

  /** An index package imports what its index entry lists, each at the version the lookup finds. */
  lemma IndexPackageImports(r: Resolution, id: PackageId, v: SemVer)
    ensures
      var p := IndexPkg(id, v);
      && (Resolved(r, p) <==>
            (id, v) in r.index && forall name <- r.index[(id, v)] :: IndexDepVersion(r, r.index[(id, v)][name]).Some?)
      && (Resolved(r, p) ==>
            && Imports(r, p).Keys == r.index[(id, v)].Keys
            && forall name <- Imports(r, p) ::
                 var dep := r.index[(id, v)][name];
                 Imports(r, p)[name] == Import(IndexDep(dep), IndexPkg(dep.id, IndexDepVersion(r, dep).value)))
  {
    var p := IndexPkg(id, v);
    if (id, v) in r.index {
      var deps := r.index[(id, v)];
      assert Requested(r, p).value.Keys == deps.Keys;
      forall name <- deps ensures IndexDep(deps[name]) in Requested(r, p).value.Values {
        assert Requested(r, p).value[name] == IndexDep(deps[name]);
      }
    }
  }

  /** A path or git package imports what its manifest asks for, where the snapshot or the lookup says. */
  lemma ManifestImports(r: Resolution, u: UnversionedPkg)
    requires u in r.snapshot.manifests
    ensures
      var p, deps := Unversioned(u), r.snapshot.manifests[u].dependencies;
      && (Resolved(r, p) <==> forall dep <- deps.Values ::
            if dep.IndexDep? then IndexDepVersion(r, dep.index).Some? else (u, dep) in r.snapshot.dependency)
      && (Resolved(r, p) ==>
            && Imports(r, p).Keys == deps.Keys
            && forall name <- deps | !deps[name].IndexDep? ::
                 Imports(r, p)[name] == Import(deps[name], Unversioned(r.snapshot.dependency[(u, deps[name])])))
  {
    var p, deps := Unversioned(u), r.snapshot.manifests[u].dependencies;
    if Resolved(r, p) {
      forall name <- deps | !deps[name].IndexDep? ensures (u, deps[name]) in r.snapshot.dependency {
        assert deps[name] in deps.Values && Target(r, p, deps[name]).Some?;
      }
    }
  }

  /** The dependencies of a package in the order of their names. */
  function SortedDependencies(r: Resolution, pkg: PrecisePkg): (deps: Option<seq<(string, Import)>>)
    ensures deps.Some? <==> Resolved(r, pkg)
    ensures deps.Some? ==> Lists(deps.value, Imports(r, pkg))
  {
    if !Resolved(r, pkg) then None else
    var imports := Imports(r, pkg);
    Some(SortedPairs(imports))
  }

  ghost predicate Lists<V(!new)>(pairs: seq<(string, V)>, m: map<string, V>) {
    && (forall pair <- pairs :: pair.0 in m && m[pair.0] == pair.1)
    && (forall name <- m :: (name, m[name]) in pairs)
    && forall i, j :: 0 <= i < j < |pairs| ==> StringLe(pairs[i].0, pairs[j].0) && pairs[i].0 != pairs[j].0
  }

  function SortedPairs<V(!new)>(m: map<string, V>): (pairs: seq<(string, V)>)
    ensures Lists(pairs, m)
  {
    StringsAreOrdered();
    var names := Sorted(m.Keys, StringLe);
    assert forall i | 0 <= i < |names| :: names[i] in m;
    var r := seq(|names|, i requires 0 <= i < |names| => (names[i], m[names[i]]));
    assert forall name <- m :: (name, m[name]) in r by {
      forall name <- m ensures (name, m[name]) in r {
        var i :| 0 <= i < |names| && names[i] == name;
        assert r[i] == (name, m[name]);
      }
    }
    r
  }

  // The dependency graph

  function Targets(r: Resolution, pkg: PrecisePkg): set<PrecisePkg>
    requires Resolved(r, pkg)
  {
    set i <- Imports(r, pkg).Values :: i.target
  }

  /** The packages that the snapshot or the index knows. */
  function Known(r: Resolution): set<PrecisePkg> {
    (set u <- r.snapshot.manifests :: Unversioned(u)) + (set k <- r.index :: IndexPkg(k.0, k.1))
  }

  function Depends(r: Resolution): Edges<PrecisePkg> {
    map p | p in Known(r) && Resolved(r, p) :: Targets(r, p)
  }

  lemma DependsOn(r: Resolution, p: PrecisePkg)
    requires Resolved(r, p)
    ensures p in Known(r) && p in Depends(r) && Depends(r)[p] == Targets(r, p)
  {
    if p.IndexPkg? {
      assert (p.id, p.version) in r.index;
    }
  }

  /** The packages in the dependency tree of a manifest. */
  ghost predicate Needed(m: Manifest, r: Resolution, p: PrecisePkg) {
    exists name <- m.dependencies ::
      Precise(r, m.dependencies[name]).Some? && Reach(Depends(r), Precise(r, m.dependencies[name]).value, p)
  }

  /** Every dependency of the manifest, direct or not, resolves. */
  ghost predicate Resolves(m: Manifest, r: Resolution) {
    && (forall dep <- m.dependencies.Values :: Precise(r, dep).Some?)
    && (forall p | Needed(m, r, p) :: Resolved(r, p))
  }

  lemma RootIsNeeded(m: Manifest, r: Resolution, name: string)
    requires name in m.dependencies && Precise(r, m.dependencies[name]).Some?
    ensures Needed(m, r, Precise(r, m.dependencies[name]).value)
  {
    ReachSelf(Depends(r), Precise(r, m.dependencies[name]).value);
  }

  lemma TargetIsNeeded(m: Manifest, r: Resolution, p: PrecisePkg, q: PrecisePkg)
    requires Needed(m, r, p) && Resolved(r, p) && q in Targets(r, p)
    ensures Needed(m, r, q)
  {
    DependsOn(r, p);
    var name :| name in m.dependencies && Precise(r, m.dependencies[name]).Some? &&
                 Reach(Depends(r), Precise(r, m.dependencies[name]).value, p);
    ReachThenEdge(Depends(r), Precise(r, m.dependencies[name]).value, p, q);
  }
}
