/** Lock files and how they are built from a resolution (package/src/lock.rs). */
module LockFiles {
  import opened Types
  import opened Packages
  import opened Graph
  import Versions

  /** The name of a lock file entry: the name its importer uses, and a number to tell namesakes apart. */
  datatype EntryName = EntryName(name: string, id: nat)

  datatype LockPrecisePkg =
    | LockGit(url: Url, commit: ObjectId, path: FilePath)
    | LockPath
    | LockIndex(id: PackageId, version: Versions.SemVer)

  datatype LockFileDep = LockFileDep(name: EntryName, spec: Option<GitDependency>)

  datatype LockFileEntry = LockFileEntry(precise: LockPrecisePkg, dependencies: map<string, LockFileDep>)

  datatype LockFile = LockFile(dependencies: map<string, LockFileDep>, packages: map<EntryName, LockFileEntry>)

  const EMPTY_LOCK := LockFile(map[], map[])

  /** The lock file records `d` somewhere. */
  ghost predicate InLock(lock: LockFile, d: LockFileDep) {
    d in lock.dependencies.Values || exists e <- lock.packages.Values :: d in e.dependencies.Values
  }

  type Naming = map<PrecisePkg, EntryName>

  /** Local paths do not go into the lock file. */
  function ToLock(p: PrecisePkg): LockPrecisePkg {
    match p
    case Unversioned(GitPkg(url, commit, path)) => LockGit(url, commit, path)
    case Unversioned(PathPkg(_)) => LockPath
    case IndexPkg(id, version) => LockIndex(id, version)
  }

  /** The package that an entry is for, unless it is a local path. */
  function PackageOf(e: LockPrecisePkg): Option<PrecisePkg> {
    match e
    case LockGit(url, commit, path) => Some(Unversioned(GitPkg(url, commit, path)))
    case LockPath => None
    case LockIndex(id, version) => Some(IndexPkg(id, version))
  }

  /** Entries say which git or index package they are for, and nothing about local ones. */
  lemma EntriesIdentify(p: PrecisePkg, e: LockPrecisePkg)
    ensures PackageOf(ToLock(p)) == if p.Unversioned? && p.pkg.PathPkg? then None else Some(p)
    ensures PackageOf(e).Some? ==> ToLock(PackageOf(e).value) == e
  {
  }

  function SpecOf(dep: Dependency): Option<GitDependency> {
    if dep.GitDep? then Some(dep.git) else None
  }

  // Naming

  ghost predicate Injective(naming: Naming) {
    forall p, q | p in naming && q in naming && naming[p] == naming[q] :: p == q
  }

  ghost predicate Extends(before: Naming, after: Naming) {
    forall p <- before :: p in after && after[p] == before[p]
  }

  /** The numbers given out for each name run from zero to its count, and none is given twice. */
  ghost predicate Counted(counts: map<string, nat>, names: Naming) {
    && Injective(names)
    && (forall p <- names :: names[p].name in counts && names[p].id <= counts[names[p].name])
    && (forall name <- counts, k: nat | k <= counts[name] :: EntryName(name, k) in names.Values)
  }

  class LockFileNamer {
    var counts: map<string, nat>
    var names: Naming

    ghost predicate Valid()
      reads this
    {
      Counted(counts, names)
    }

    constructor ()
      ensures Valid() && names == map[]
    {
      counts, names := map[], map[];
    }

    /** A package keeps the name it was first given, and no two packages share one. */
    method Name(name: string, pkg: PrecisePkg) returns (r: EntryName)
      requires Valid()
      modifies this
      ensures Valid()
      ensures pkg in old(names) ==> names == old(names) && r == old(names)[pkg]
      ensures pkg !in old(names) ==> r.name == name && r !in old(names).Values && names == old(names)[pkg := r]
    {
      if pkg in names {
        r := names[pkg];
      } else {
        var count := if name in counts then counts[name] + 1 else 0;
        r := EntryName(name, count);
        OneMoreName(counts, names, name, pkg);
        counts := counts[name := count];
        names := names[pkg := r];
      }
    }

    /** Names the packages of a list of dependencies, in order. */
    method NameAll(ghost imports: map<string, Import>, deps: seq<(string, Import)>)
      returns (named: map<string, LockFileDep>)
      requires Valid() && Lists(deps, imports)
      modifies this
      ensures Valid() && Extends(old(names), names)
      ensures (forall i <- imports.Values :: i.target in names) && named == LockDeps(imports, names)
      ensures forall p <- names | p !in old(names) :: NamedIn(imports, names[p].name, p)
    {
      hide Counted, NamesSome, NewAreImports, Lists;
      named := map[];
      NamesNone(imports, names);
      for i := 0 to |deps|
        invariant Valid() && Extends(old(names), names)
        invariant NamesSome(imports, names, named) && NewAreImports(imports, old(names), names)
        invariant forall k | 0 <= k < i :: deps[k].0 in named
      {
        var (name, imp) := deps[i];
        ghost var names1 := names;
        IsImport(imports, deps, i);
        var target := Name(name, imp.target);
        NameOne(imports, old(names), names1, names, named, name, target);
        named := named[name := LockFileDep(target, SpecOf(imp.dep))];
      }
      AllNamed(imports, deps, old(names), names, named);
    }
  }

  /** The dependencies named so far have the names of their packages. */
  ghost predicate NamesSome(imports: map<string, Import>, names: Naming, named: map<string, LockFileDep>) {
    forall name <- named ::
      && name in imports && imports[name].target in names
      && named[name] == LockFileDep(names[imports[name].target], SpecOf(imports[name].dep))
  }

  ghost predicate NewAreImports(imports: map<string, Import>, before: Naming, after: Naming) {
    forall p <- after | p !in before :: NamedIn(imports, after[p].name, p)
  }

  lemma NamesNone(imports: map<string, Import>, names: Naming)
    ensures NamesSome(imports, names, map[]) && NewAreImports(imports, names, names)
  {
  }

  lemma IsImport(imports: map<string, Import>, deps: seq<(string, Import)>, i: nat)
    requires Lists(deps, imports) && i < |deps|
    ensures deps[i].0 in imports && imports[deps[i].0] == deps[i].1
  {
    assert deps[i] in deps;
  }

  lemma NameOne(imports: map<string, Import>, before: Naming, mid: Naming, after: Naming,
                named: map<string, LockFileDep>, name: string, target: EntryName)
    requires NamesSome(imports, mid, named) && NewAreImports(imports, before, mid) && name in imports
    requires imports[name].target in mid ==> after == mid && target == mid[imports[name].target]
    requires imports[name].target !in mid ==> target.name == name && after == mid[imports[name].target := target]
    ensures NamesSome(imports, after, named[name := LockFileDep(target, SpecOf(imports[name].dep))])
    ensures NewAreImports(imports, before, after)
  {
    hide SpecOf;
  }

  lemma AllNamed(imports: map<string, Import>, deps: seq<(string, Import)>, before: Naming, names: Naming,
                 named: map<string, LockFileDep>)
    requires Lists(deps, imports) && NamesSome(imports, names, named) && NewAreImports(imports, before, names)
    requires forall k | 0 <= k < |deps| :: deps[k].0 in named
    ensures (forall i <- imports.Values :: i.target in names) && named == LockDeps(imports, names)
    ensures forall p <- names | p !in before :: NamedIn(imports, names[p].name, p)
  {
    forall name <- imports ensures name in named {
      assert (name, imports[name]) in deps;
    }
  }

  lemma NamesDiffer(counts: map<string, nat>, names: Naming)
    requires Counted(counts, names)
    ensures Injective(names)
  {
  }

  lemma OneMoreName(counts: map<string, nat>, names: Naming, name: string, pkg: PrecisePkg)
    requires Counted(counts, names) && pkg !in names
    ensures var count := if name in counts then counts[name] + 1 else 0;
      Counted(counts[name := count], names[pkg := EntryName(name, count)]) && EntryName(name, count) !in names.Values
  {
    var count := if name in counts then counts[name] + 1 else 0;
    var e := EntryName(name, count);
    var counts', names' := counts[name := count], names[pkg := e];
    assert names'.Values == names.Values + {e} by {
      forall f <- names.Values ensures f in names'.Values {
        var p :| p in names && names[p] == f;
        assert names'[p] == f;
      }
      assert names'[pkg] == e;
    }
    forall n <- counts', k: nat | k <= counts'[n] ensures EntryName(n, k) in names'.Values {
      if EntryName(n, k) != e {
        assert n in counts && k <= counts[n];
      }
    }
  }

  /** `p` is imported under that name. */
  predicate NamedIn(imports: map<string, Import>, name: string, p: PrecisePkg) {
    name in imports && imports[name].target == p
  }

  ghost predicate ImportedAs(r: Resolution, importer: PrecisePkg, name: string, p: PrecisePkg) {
    Resolved(r, importer) && NamedIn(Imports(r, importer), name, p)
  }

  /** New names are those of imports: `pkg` is imported as `id`, and others by packages that were visited. */
  ghost predicate NamesAreImports(r: Resolution, before: Naming, after: Naming, visited: set<PrecisePkg>, id: string,
                                  pkg: PrecisePkg) {
    forall p <- after | p !in before ::
      (p == pkg && after[p].name == id) || exists q <- visited :: ImportedAs(r, q, after[p].name, p)
  }

  lemma NamesOfVisit(r: Resolution, before: Naming, mid: Naming, after: Naming, visited: set<PrecisePkg>, id: string,
                     pkg: PrecisePkg)
    requires Resolved(r, pkg) && Extends(mid, after)
    requires forall p <- mid | p !in before :: p == pkg && mid[p].name == id
    requires forall p <- after | p !in mid :: NamedIn(Imports(r, pkg), after[p].name, p)
    ensures NamesAreImports(r, before, after, visited + {pkg}, id, pkg)
  {
    hide Resolved, Imports, NamedIn;
    forall p <- after | p !in before && p !in mid
      ensures exists q <- visited + {pkg} :: ImportedAs(r, q, after[p].name, p)
    {
      assert ImportedAs(r, pkg, after[p].name, p);
    }
  }

  lemma NamesGoOn(r: Resolution, before: Naming, mid: Naming, after: Naming, visited0: set<PrecisePkg>,
                  visited: set<PrecisePkg>, id: string, pkg: PrecisePkg, name: string, target: PrecisePkg)
    requires NamesAreImports(r, before, mid, visited0, id, pkg) && Extends(mid, after) && visited0 <= visited
    requires NamesAreImports(r, mid, after, visited, name, target) && pkg in visited && ImportedAs(r, pkg, name, target)
    ensures NamesAreImports(r, before, after, visited, id, pkg)
  {
    hide ImportedAs;
  }

  // Entries

  predicate TargetsNamed(r: Resolution, naming: Naming, p: PrecisePkg)
    requires Resolved(r, p)
  {
    forall i <- Imports(r, p).Values :: i.target in naming
  }

  function LockDeps(imports: map<string, Import>, naming: Naming): map<string, LockFileDep>
    requires forall i <- imports.Values :: i.target in naming
  {
    map name <- imports :: LockFileDep(naming[imports[name].target], SpecOf(imports[name].dep))
  }

  /** The lock file entry of a package. */
  function Entry(r: Resolution, naming: Naming, p: PrecisePkg): LockFileEntry
    requires Resolved(r, p) && TargetsNamed(r, naming, p)
  {
    LockFileEntry(ToLock(p), LockDeps(Imports(r, p), naming))
  }

  lemma EntryIsStable(r: Resolution, before: Naming, after: Naming, p: PrecisePkg)
    requires Resolved(r, p) && TargetsNamed(r, before, p) && Extends(before, after)
    ensures TargetsNamed(r, after, p) && Entry(r, after, p) == Entry(r, before, p)
  {
  }

  /** The entries are those of the visited packages. */
  ghost predicate Collected(r: Resolution, names: Naming, visited: set<PrecisePkg>,
                            acc: map<EntryName, LockFileEntry>) {
    && visited <= names.Keys
    && acc.Keys == (set p <- visited :: names[p])
    && (forall p <- visited :: Resolved(r, p) && TargetsNamed(r, names, p) && acc[names[p]] == Entry(r, names, p))
  }

  lemma CollectedIsStable(r: Resolution, before: Naming, after: Naming, visited: set<PrecisePkg>,
                          acc: map<EntryName, LockFileEntry>)
    requires Collected(r, before, visited, acc) && Extends(before, after)
    ensures Collected(r, after, visited, acc)
  {
    forall p <- visited ensures TargetsNamed(r, after, p) && Entry(r, after, p) == Entry(r, before, p) {
      EntryIsStable(r, before, after, p);
    }
    assert forall p <- visited :: p in after && after[p] == before[p];
  }

  /** Adding the entry of `p`, or writing it again, keeps the collection exact. */
  lemma CollectOne(r: Resolution, names: Naming, visited: set<PrecisePkg>, acc: map<EntryName, LockFileEntry>,
                   p: PrecisePkg)
    requires Collected(r, names, visited, acc) && Injective(names)
    requires p in names && Resolved(r, p) && TargetsNamed(r, names, p)
    ensures Collected(r, names, visited + {p}, acc[names[p] := Entry(r, names, p)])
    ensures names[p] in acc <==> p in visited
  {
    hide Entry, Resolved, TargetsNamed;
  }

  /** All that happened to the packages from `visited` on: they are reached from `pkg`, and so are their targets. */
  ghost predicate Explored(r: Resolution, before: set<PrecisePkg>, after: set<PrecisePkg>, pkg: PrecisePkg) {
    && before <= after
    && (forall p <- after - before :: Reach(Depends(r), pkg, p))
    && (forall p <- after - before :: Resolved(r, p) && Targets(r, p) <= after)
  }

  class Collector {
    const namer: LockFileNamer
    var acc: map<EntryName, LockFileEntry>
    ghost var visited: set<PrecisePkg>

    ghost predicate Valid(r: Resolution)
      reads this, namer
    {
      namer.Valid() && Collected(r, namer.names, visited, acc)
    }

    constructor (r: Resolution)
      ensures Valid(r) && fresh(namer) && namer.names == map[] && visited == {}
    {
      namer := new LockFileNamer();
      acc, visited := map[], {};
    }

    /** Names a package and its dependencies and writes its entry; says whether that is its first visit. */
    method Visit(r: Resolution, id: string, pkg: PrecisePkg, deps: seq<(string, Import)>)
      returns (given: EntryName, isNew: bool)
      requires Valid(r) && Resolved(r, pkg) && Lists(deps, Imports(r, pkg))
      modifies this, namer
      ensures Valid(r) && Extends(old(namer.names), namer.names)
      ensures pkg in namer.names && given == namer.names[pkg]
      ensures visited == old(visited) + {pkg} && isNew == (pkg !in old(visited))
      ensures NamesAreImports(r, old(namer.names), namer.names, visited, id, pkg)
    {
      hide Counted, Collected, Resolved, Imports, Requested, Target, Lists, LockDeps, NamesAreImports, NamedIn;
      ghost var names0 := namer.names;
      given := namer.Name(id, pkg);
      CollectedIsStable(r, names0, namer.names, visited, acc);
      ghost var names1 := namer.names;
      var named := namer.NameAll(Imports(r, pkg), deps);
      CollectedIsStable(r, names1, namer.names, visited, acc);
      NamesOfVisit(r, names0, names1, namer.names, visited, id, pkg);
      NamesDiffer(namer.counts, namer.names);
      CollectOne(r, namer.names, visited, acc, pkg);
      isNew := given !in acc;
      acc := acc[given := LockFileEntry(ToLock(pkg), named)];
      visited := visited + {pkg};
    }

    method CollectPackages(r: Resolution, id: string, pkg: PrecisePkg) returns (name: Option<EntryName>)
      requires Valid(r)
      modifies this, namer
      ensures name.Some? ==> Valid(r) && Extends(old(namer.names), namer.names)
      ensures name.Some? ==> pkg in visited && pkg in namer.names && name.value == namer.names[pkg]
      ensures name.Some? ==> Explored(r, old(visited), visited, pkg)
      ensures name.Some? ==> NamesAreImports(r, old(namer.names), namer.names, visited, id, pkg)
      ensures name.None? ==> Unresolvable(r, pkg)
      decreases Known(r) - visited
    {
      hide Counted, Collected, Resolved, Imports, Requested, Target, Explored, Exploring, Unresolvable, Depends, Known,
           Targets, Lists, NamesAreImports, ImportedAs;
      var sorted := SortedDependencies(r, pkg);
      if sorted.None? {
        UnresolvedHere(r, pkg);
        return None;
      }
      var deps := sorted.value;
      ghost var visited0 := visited;
      var given, isNew := Visit(r, id, pkg, deps);
      FirstVisit(r, visited0, pkg);
      if isNew {
        for i := 0 to |deps|
          invariant Valid(r) && Extends(old(namer.names), namer.names) && pkg in namer.names
          invariant given == namer.names[pkg]
          invariant Exploring(r, visited0, visited, pkg)
          invariant TargetsIn(deps[..i], visited)
          invariant NamesAreImports(r, old(namer.names), namer.names, visited, id, pkg)
        {
          IsTarget(r, pkg, deps, i);
          ghost var visited1, names1 := visited, namer.names;
          LessUnknown(r, visited0, visited, pkg);
          var child := CollectPackages(r, deps[i].0, deps[i].1.target);
          if child.None? {
            UnresolvableBelow(r, pkg, deps[i].1.target);
            return None;
          }
          ExploreMore(r, visited0, visited1, visited, pkg, deps[i].1.target);
          NamesGoOn(r, old(namer.names), names1, namer.names, visited1, visited, id, pkg, deps[i].0, deps[i].1.target);
          assert deps[..i + 1] == deps[..i] + [deps[i]];
        }
        assert deps[..|deps|] == deps;
        AllExplored(r, visited0, visited, pkg, deps);
      }
      name := Some(given);
    }
  }

  ghost predicate TargetsIn(deps: seq<(string, Import)>, visited: set<PrecisePkg>) {
    forall d <- deps :: d.1.target in visited
  }

  /** While the dependencies of `pkg` are explored. */
  ghost predicate Exploring(r: Resolution, before: set<PrecisePkg>, now: set<PrecisePkg>, pkg: PrecisePkg) {
    && before + {pkg} <= now && pkg !in before
    && (forall p <- now - before :: Reach(Depends(r), pkg, p))
    && (forall p <- now - before - {pkg} :: Resolved(r, p) && Targets(r, p) <= now)
  }

  /** Something that `pkg` needs does not resolve. */
  ghost predicate Unresolvable(r: Resolution, pkg: PrecisePkg) {
    exists p :: Reach(Depends(r), pkg, p) && !Resolved(r, p)
  }

  lemma UnresolvedHere(r: Resolution, pkg: PrecisePkg)
    requires !Resolved(r, pkg)
    ensures Unresolvable(r, pkg)
  {
    ReachSelf(Depends(r), pkg);
  }

  lemma UnresolvableBelow(r: Resolution, pkg: PrecisePkg, target: PrecisePkg)
    requires Edge(Depends(r), pkg, target) && Unresolvable(r, target)
    ensures Unresolvable(r, pkg)
  {
    var p :| Reach(Depends(r), target, p) && !Resolved(r, p);
    EdgeThenReach(Depends(r), pkg, target, p);
  }

  lemma FirstVisit(r: Resolution, before: set<PrecisePkg>, pkg: PrecisePkg)
    ensures pkg !in before ==> Exploring(r, before, before + {pkg}, pkg)
    ensures pkg in before ==> Explored(r, before, before + {pkg}, pkg)
  {
    ReachSelf(Depends(r), pkg);
    if pkg in before {
      assert before + {pkg} == before;
    }
  }

  lemma IsTarget(r: Resolution, pkg: PrecisePkg, deps: seq<(string, Import)>, i: nat)
    requires Resolved(r, pkg) && Lists(deps, Imports(r, pkg)) && i < |deps|
    ensures Edge(Depends(r), pkg, deps[i].1.target) && ImportedAs(r, pkg, deps[i].0, deps[i].1.target)
  {
    hide Imports, Resolved;
    DependsOn(r, pkg);
    assert deps[i] in deps;
    assert Imports(r, pkg)[deps[i].0] in Imports(r, pkg).Values;
  }

  lemma LessUnknown(r: Resolution, before: set<PrecisePkg>, now: set<PrecisePkg>, pkg: PrecisePkg)
    requires Exploring(r, before, now, pkg) && Resolved(r, pkg)
    ensures Known(r) - now < Known(r) - before
  {
    DependsOn(r, pkg);
    assert pkg in Known(r) - before;
  }

  lemma ExploreMore(r: Resolution, before: set<PrecisePkg>, mid: set<PrecisePkg>, now: set<PrecisePkg>, pkg: PrecisePkg,
                    target: PrecisePkg)
    requires Exploring(r, before, mid, pkg) && Explored(r, mid, now, target) && Edge(Depends(r), pkg, target)
    ensures Exploring(r, before, now, pkg) && mid <= now && pkg in now
  {
    hide Resolved, Targets, Depends;
    forall p <- now - mid ensures Reach(Depends(r), pkg, p) {
      EdgeThenReach(Depends(r), pkg, target, p);
    }
  }

  lemma AllExplored(r: Resolution, before: set<PrecisePkg>, now: set<PrecisePkg>, pkg: PrecisePkg,
                    deps: seq<(string, Import)>)
    requires Exploring(r, before, now, pkg) && Resolved(r, pkg) && Lists(deps, Imports(r, pkg))
    requires TargetsIn(deps, now)
    ensures Explored(r, before, now, pkg) && pkg in now
  {
    hide Imports, Resolved;
    forall t <- Targets(r, pkg) ensures t in now {
      var name :| name in Imports(r, pkg) && Imports(r, pkg)[name].target == t;
      var pair := (name, Imports(r, pkg)[name]);
      assert pair in deps;
    }
  }

  // Whole lock files

  ghost predicate RootsNamed(m: Manifest, r: Resolution, naming: Naming) {
    forall dep <- m.dependencies.Values :: Precise(r, dep).Some? && Precise(r, dep).value in naming
  }

  function RootDeps(m: Manifest, r: Resolution, naming: Naming): map<string, LockFileDep>
    requires RootsNamed(m, r, naming)
  {
    map name <- m.dependencies ::
      LockFileDep(naming[Precise(r, m.dependencies[name]).value], SpecOf(m.dependencies[name]))
  }

  /**
   * The lock file records the dependency tree of the manifest under the names of `naming`: an entry
   * for each package in the tree and for no other, and in it each dependency with its name.
   */
  ghost predicate Locks(m: Manifest, r: Resolution, lock: LockFile, naming: Naming) {
    && Resolves(m, r)
    && Injective(naming)
    && RootsNamed(m, r, naming)
    && (forall p | Needed(m, r, p) :: p in naming && TargetsNamed(r, naming, p))
    && lock.dependencies == RootDeps(m, r, naming)
    && lock.packages.Keys == (set p <- naming | Needed(m, r, p) :: naming[p])
    && (forall p <- naming | Needed(m, r, p) :: lock.packages[naming[p]] == Entry(r, naming, p))
  }

  /**
   Every package is named after an import of it, by the manifest or by a package of the tree, and
   namesakes are numbered without gaps.
   */
  ghost predicate WellNamed(m: Manifest, r: Resolution, naming: Naming) {
    && (forall p <- naming :: NamedByRoot(m, r, naming[p].name, p) || NamedByTree(m, r, naming[p].name, p))
    && (forall p <- naming, k: nat | k < naming[p].id :: EntryName(naming[p].name, k) in naming.Values)
  }

  ghost predicate NamedByRoot(m: Manifest, r: Resolution, name: string, p: PrecisePkg) {
    name in m.dependencies && Precise(r, m.dependencies[name]) == Some(p)
  }

  ghost predicate NamedByTree(m: Manifest, r: Resolution, name: string, p: PrecisePkg) {
    exists q | Needed(m, r, q) :: ImportedAs(r, q, name, p)
  }

  lemma RootNames(m: Manifest, r: Resolution, before: Naming, after: Naming, visited: set<PrecisePkg>, id: string,
                  pkg: PrecisePkg)
    requires forall p <- before :: NamedByRoot(m, r, before[p].name, p) || NamedByTree(m, r, before[p].name, p)
    requires NamesAreImports(r, before, after, visited, id, pkg) && Extends(before, after) && Tree(m, r, visited)
    requires NamedByRoot(m, r, id, pkg)
    ensures forall p <- after :: NamedByRoot(m, r, after[p].name, p) || NamedByTree(m, r, after[p].name, p)
  {
    hide NamedByRoot, ImportedAs, Needed;
  }

  lemma NamedWell(m: Manifest, r: Resolution, counts: map<string, nat>, names: Naming)
    requires Counted(counts, names)
    requires forall p <- names :: NamedByRoot(m, r, names[p].name, p) || NamedByTree(m, r, names[p].name, p)
    ensures WellNamed(m, r, names)
  {
    hide NamedByRoot, NamedByTree;
  }

  /** Builds the lock file, which succeeds exactly when everything in the tree resolves. */
  method NewLock(m: Manifest, r: Resolution) returns (lock: Option<LockFile>)
    ensures lock.Some? ==> exists naming :: Locks(m, r, lock.value, naming) && WellNamed(m, r, naming)
    ensures lock.Some? <==> Resolves(m, r)
  {
    hide Counted, Collected, Resolved, Imports, Requested, Target, Explored, Unresolvable, Targets, Entry, Depends,
         Known, Needed, Resolves, Tree, Locks, Precise, Lists, RootsDone, RootDepIs, NamesAreImports, NamedByTree,
         WellNamed;
    var c := new Collector(r);
    var pairs := SortedPairs(m.dependencies);
    var dependencies: map<string, LockFileDep> := map[];
    TreeOfNothing(m, r);
    NoRoots(m, r, c.namer.names, c.visited, pairs);
    for i := 0 to |pairs|
      invariant c.Valid(r) && fresh(c) && fresh(c.namer)
      invariant Tree(m, r, c.visited)
      invariant forall p <- c.namer.names ::
                  NamedByRoot(m, r, c.namer.names[p].name, p) || NamedByTree(m, r, c.namer.names[p].name, p)
      invariant RootsDone(m, r, c.namer.names, c.visited, pairs[..i], dependencies)
    {
      var (name, dep) := pairs[i];
      PairIs(m, pairs, i);
      var pkg := Precise(r, dep);
      if pkg.None? {
        RootUnresolved(m, r, name);
        return None;
      }
      ghost var names0, visited0 := c.namer.names, c.visited;
      var given := c.CollectPackages(r, name, pkg.value);
      if given.None? {
        RootUnresolvable(m, r, name);
        return None;
      }
      MoreTree(m, r, visited0, c.visited, name);
      RootNames(m, r, names0, c.namer.names, c.visited, name, pkg.value);
      AnotherRoot(m, r, names0, c.namer.names, visited0, c.visited, pairs, i, dependencies);
      dependencies := dependencies[name := LockFileDep(given.value, SpecOf(dep))];
    }
    AllRoots(m, r, c.namer.names, c.visited, pairs, dependencies);
    NamedWell(m, r, c.namer.counts, c.namer.names);
    lock := Some(LockFile(dependencies, c.acc));
    LockIsComplete(m, r, c.namer.counts, c.namer.names, c.visited, c.acc, dependencies);
  }

  ghost predicate RootDepIs(r: Resolution, names: Naming, visited: set<PrecisePkg>, dep: Dependency,
                            locked: LockFileDep) {
    && Precise(r, dep).Some?
    && Precise(r, dep).value in visited
    && Precise(r, dep).value in names
    && locked == LockFileDep(names[Precise(r, dep).value], SpecOf(dep))
  }

  ghost predicate RootsDone(m: Manifest, r: Resolution, names: Naming, visited: set<PrecisePkg>,
                            done: seq<(string, Dependency)>, dependencies: map<string, LockFileDep>) {
    && (forall k | 0 <= k < |done| :: done[k].0 in dependencies)
    && (forall name <- dependencies ::
         name in m.dependencies && RootDepIs(r, names, visited, m.dependencies[name], dependencies[name]))
  }

  lemma NoRoots(m: Manifest, r: Resolution, names: Naming, visited: set<PrecisePkg>, pairs: seq<(string, Dependency)>)
    ensures RootsDone(m, r, names, visited, pairs[..0], map[])
  {
  }

  lemma PairIs(m: Manifest, pairs: seq<(string, Dependency)>, i: nat)
    requires Lists(pairs, m.dependencies) && i < |pairs|
    ensures pairs[i].0 in m.dependencies && m.dependencies[pairs[i].0] == pairs[i].1
  {
    assert pairs[i] in pairs;
  }

  lemma AnotherRoot(m: Manifest, r: Resolution, names0: Naming, names: Naming, visited0: set<PrecisePkg>,
                    visited: set<PrecisePkg>,
                    pairs: seq<(string, Dependency)>, i: nat, dependencies: map<string, LockFileDep>)
    requires i < |pairs| && RootsDone(m, r, names0, visited0, pairs[..i], dependencies)
    requires pairs[i].0 in m.dependencies && m.dependencies[pairs[i].0] == pairs[i].1 && Precise(r, pairs[i].1).Some?
    requires Extends(names0, names) && Explored(r, visited0, visited, Precise(r, pairs[i].1).value)
    requires Precise(r, pairs[i].1).value in visited && Precise(r, pairs[i].1).value in names
    ensures RootsDone(m, r, names, visited, pairs[..i + 1],
                      dependencies[pairs[i].0 := LockFileDep(names[Precise(r, pairs[i].1).value], SpecOf(pairs[i].1))])
  {
    hide Precise, Resolved, Targets, Depends;
  }

  lemma AllRoots(m: Manifest, r: Resolution, names: Naming, visited: set<PrecisePkg>,
                 pairs: seq<(string, Dependency)>, dependencies: map<string, LockFileDep>)
    requires Lists(pairs, m.dependencies) && RootsDone(m, r, names, visited, pairs[..|pairs|], dependencies)
    ensures dependencies.Keys == m.dependencies.Keys
    ensures forall name <- dependencies :: RootDepIs(r, names, visited, m.dependencies[name], dependencies[name])
  {
    hide RootDepIs;
    forall name <- m.dependencies ensures name in dependencies {
      assert (name, m.dependencies[name]) in pairs;
    }
  }

  /** A part of the tree that is closed under dependencies. */
  ghost predicate Tree(m: Manifest, r: Resolution, visited: set<PrecisePkg>) {
    && (forall p <- visited :: Needed(m, r, p))
    && (forall p <- visited :: Resolved(r, p) && Targets(r, p) <= visited)
  }

  lemma TreeOfNothing(m: Manifest, r: Resolution)
    ensures Tree(m, r, {})
  {
  }

  lemma MoreTree(m: Manifest, r: Resolution, before: set<PrecisePkg>, after: set<PrecisePkg>, name: string)
    requires Tree(m, r, before) && name in m.dependencies && Precise(r, m.dependencies[name]).Some?
    requires Explored(r, before, after, Precise(r, m.dependencies[name]).value)
    ensures Tree(m, r, after)
  {
    hide Resolved, Targets, Depends;
  }

  lemma RootUnresolved(m: Manifest, r: Resolution, name: string)
    requires name in m.dependencies && Precise(r, m.dependencies[name]).None?
    ensures !Resolves(m, r)
  {
    assert m.dependencies[name] in m.dependencies.Values;
  }

  lemma RootUnresolvable(m: Manifest, r: Resolution, name: string)
    requires name in m.dependencies && Precise(r, m.dependencies[name]).Some?
    requires Unresolvable(r, Precise(r, m.dependencies[name]).value)
    ensures !Resolves(m, r)
  {
    var p :| Reach(Depends(r), Precise(r, m.dependencies[name]).value, p) && !Resolved(r, p);
    assert Needed(m, r, p);
  }

  /** A closed part of the tree that has the roots is the whole tree. */
  lemma TreeIsNeeded(m: Manifest, r: Resolution, visited: set<PrecisePkg>, p: PrecisePkg)
    requires Tree(m, r, visited) && Needed(m, r, p)
    requires forall dep <- m.dependencies.Values :: Precise(r, dep).Some? && Precise(r, dep).value in visited
    ensures p in visited
  {
    assert Closed(Depends(r), visited);
    var name :| name in m.dependencies && Precise(r, m.dependencies[name]).Some? &&
                Reach(Depends(r), Precise(r, m.dependencies[name]).value, p);
    assert m.dependencies[name] in m.dependencies.Values;
    ReachStaysInside(Depends(r), visited, Precise(r, m.dependencies[name]).value, p);
  }

  lemma LockIsComplete(m: Manifest, r: Resolution, counts: map<string, nat>, names: Naming, visited: set<PrecisePkg>,
                       acc: map<EntryName, LockFileEntry>, dependencies: map<string, LockFileDep>)
    requires Counted(counts, names) && Collected(r, names, visited, acc) && Tree(m, r, visited)
    requires dependencies.Keys == m.dependencies.Keys
    requires forall name <- dependencies :: RootDepIs(r, names, visited, m.dependencies[name], dependencies[name])
    ensures Locks(m, r, LockFile(dependencies, acc), names) && Resolves(m, r)
  {
    hide Resolved, Targets, Entry, TargetsNamed, Needed, Precise;
    forall dep <- m.dependencies.Values ensures Precise(r, dep).Some? && Precise(r, dep).value in visited {
      var name :| name in m.dependencies && m.dependencies[name] == dep;
      assert RootDepIs(r, names, visited, dep, dependencies[name]);
    }
    forall p ensures Needed(m, r, p) <==> p in visited {
      if Needed(m, r, p) {
        TreeIsNeeded(m, r, visited, p);
      }
    }
    assert (set p <- names | Needed(m, r, p) :: names[p]) == (set p <- visited :: names[p]);
    assert dependencies == RootDeps(m, r, names);
  }
}
