/** Where the paths of packages lead: what joining, normalising and locating mean on directories. */
module PackagePaths {
  import opened Types
  import opened RelativePath
  import opened Packages
  import opened Snapshots

  /** The directory a path leads to from `base`; an absolute path does not depend on it. */
  function Leads(base: Dir, p: FilePath): Dir {
    Walk(if p.rooted then [] else base, p.parts)
  }

  lemma {:induction false} WalkConcat(dir: Dir, p: Path, q: Path)
    ensures Walk(dir, p + q) == Walk(Walk(dir, p), q)
    decreases |p|
  {
    if p == [] {
      assert p + q == q;
    } else {
      assert (p + q)[1..] == p[1..] + q;
      WalkConcat(Step(dir, p[0]), p[1..], q);
    }
  }

  lemma {:induction false} WalkNames(dir: Dir, names: Dir)
    ensures Walk(dir, Names(names)) == dir + names
    decreases |names|
  {
    if names == [] {
      assert dir + names == dir;
    } else {
      assert Names(names)[1..] == Names(names[1..]);
      WalkNames(dir + [names[0]], names[1..]);
      assert dir + [names[0]] + names[1..] == dir + names;
    }
  }

  /** A joined path leads where the second leads from where the first does. */
  lemma JoinLeads(base: Dir, a: FilePath, b: FilePath)
    ensures Leads(base, Join(a, b)) == Leads(Leads(base, a), b)
  {
    if !b.rooted {
      WalkConcat(if a.rooted then [] else base, a.parts, b.parts);
      if b.parts != [] && b.parts[0].CurDir? {
        WalkConcat(if a.rooted then [] else base, a.parts, b.parts[1..]);
      }
    }
  }

  lemma NormalizeLeads(base: Dir, p: FilePath)
    ensures Leads(base, Normalize(p)) == Leads(base, p)
  {
    var k := CanonicalOf(p.parts);
    if p.rooted {
      WalkNames([], k.names);
      CanonicalLeadsThere([], p.parts);
      assert Above([], k.ups) == [];
    } else {
      NormalPathLeadsThere(base, p.parts);
    }
  }

  /** Paths have the same normal form exactly when they lead to the same place from everywhere. */
  lemma NormalFormsAgree(p: FilePath, q: FilePath)
    requires p.rooted == q.rooted
    ensures Normalize(p) == Normalize(q) <==> forall base: Dir :: Leads(base, p) == Leads(base, q)
  {
    if p.rooted {
      NormalizeLeads([], p);
      NormalizeLeads([], q);
      var a, b := CanonicalOf(p.parts).names, CanonicalOf(q.parts).names;
      WalkNames([], a);
      WalkNames([], b);
      assert [] + a == a && [] + b == b;
      var base: Dir := [];
      assert Leads(base, p) == a && Leads(base, q) == b;
    } else {
      NormalFormsDecide(p.parts, q.parts);
      if Normalize(p) == Normalize(q) {
        forall base: Dir ensures Leads(base, p) == Leads(base, q) {
          NormalizeLeads(base, p);
          NormalizeLeads(base, q);
        }
      } else {
        var base: Dir :| Walk(base, p.parts) != Walk(base, q.parts);
        assert Leads(base, p) != Leads(base, q);
      }
    }
  }

  // Path dependencies

  /** The part of a normal path below a prefix is put back by joining it to the prefix. */
  lemma JoinBelow(root: FilePath, p: FilePath)
    requires StripPrefix(Normalize(p), root).Some?
    ensures Join(root, StripPrefix(Normalize(p), root).value) == Normalize(p)
  {
    var n, q := Normalize(p), StripPrefix(Normalize(p), root).value;
    assert n.parts == root.parts + q.parts;
    if q.parts != [] {
      assert q.parts[0] == n.parts[|root.parts|];
      NoCurDir(p, |root.parts|);
    }
  }

  lemma NoCurDir(p: FilePath, i: nat)
    requires i < |Normalize(p).parts|
    ensures !Normalize(p).parts[i].CurDir?
  {
  }

  /** A path dependency stands for the package that the path leads to from the package that has it. */
  lemma TargetLeads(w: World, base: Dir, u: UnversionedPkg, path: FilePath)
    requires PathTarget(w, u, path).Some?
    ensures Leads(base, LocalPath(w, PathTarget(w, u, path).value)) == Leads(Leads(base, LocalPath(w, u)), path)
  {
    hide Normalize, Join, Leads;
    var joined := Join(LocalPath(w, u), path);
    JoinLeads(base, LocalPath(w, u), path);
    NormalizeLeads(base, joined);
    if u.GitPkg? {
      JoinBelow(RepoRoot(w, u.commit), joined);
    }
  }

  /** A package in a repository stays in it: the same repository, at the same commit. */
  lemma TargetStays(w: World, u: UnversionedPkg, path: FilePath)
    requires PathTarget(w, u, path).Some?
    ensures
      var t := PathTarget(w, u, path).value;
      t.GitPkg? == u.GitPkg? && (u.GitPkg? ==> t.url == u.url && t.commit == u.commit && !t.path.rooted)
  {
  }

  /** With an absolute checkout directory, exactly the paths that lead out of the repository are refused. */
  lemma RefusedExactlyOutside(w: World, base: Dir, u: UnversionedPkg, path: FilePath)
    requires u.GitPkg? && w.gitDir.rooted && Normalize(w.gitDir) == w.gitDir
    ensures PathTarget(w, u, path).Some? <==>
            Leads(base, RepoRoot(w, u.commit)) <= Leads(Leads(base, LocalPath(w, u)), path)
  {
    var root, joined := RepoRoot(w, u.commit), Join(LocalPath(w, u), path);
    JoinLeads(base, LocalPath(w, u), path);
    NormalizeLeads(base, joined);
    var dir := CanonicalOf(w.gitDir.parts).names;
    var names := CanonicalOf(joined.parts).names;
    assert root.rooted && joined.rooted;
    assert root.parts == Names(dir + [u.commit]);
    WalkNames([], dir + [u.commit]);
    WalkNames([], names);
    assert [] + (dir + [u.commit]) == dir + [u.commit] && [] + names == names;
    assert Leads(base, root) == dir + [u.commit] && Leads(base, joined) == names;
    NamesPrefix(dir + [u.commit], names);
  }

  lemma NamesPrefix(a: Dir, b: Dir)
    ensures Names(a) <= Names(b) <==> a <= b
  {
    if Names(a) <= Names(b) {
      forall i | 0 <= i < |a| ensures a[i] == b[i] {
        assert Names(a)[i] == Names(b)[i];
      }
    }
  }

  /** Without that, they are those whose normal form does not start as the repository's path does. */
  lemma RefusedExactly(w: World, u: UnversionedPkg, path: FilePath)
    requires u.GitPkg?
    ensures
      var root := RepoRoot(w, u.commit);
      PathTarget(w, u, path).Some? <==>
        exists below: Path :: Normalize(Join(LocalPath(w, u), path)) == FilePath(root.rooted, root.parts + below)
  {
    var root, p := RepoRoot(w, u.commit), Normalize(Join(LocalPath(w, u), path));
    if PathTarget(w, u, path).Some? {
      assert p == FilePath(root.rooted, root.parts + p.parts[|root.parts|..]);
    }
  }

  // Git dependencies

  /**
   A git dependency keeps its target and its path inside the repository. The url of a local repository
   leads where it did from the package that has it; a package in a repository cannot have a relative one.
   */
  lemma AbsoluteLeads(w: World, base: Dir, git: GitDependency, u: UnversionedPkg)
    ensures Absolute(git, u).None? <==> u.GitPkg? && git.url.LocalRepo? && !git.url.path.rooted
    ensures Absolute(git, u).Some? ==>
              var abs := Absolute(git, u).value;
              && abs.target == git.target && abs.path == git.path
              && (git.url.Remote? ==> abs.url == git.url)
              && (git.url.LocalRepo? ==>
                    && abs.url.LocalRepo?
                    && Leads(base, abs.url.path) == Leads(Leads(base, LocalPath(w, u)), git.url.path))
  {
    hide Leads, Join;
    if git.url.LocalRepo? && !git.url.path.rooted && u.PathPkg? {
      JoinLeads(base, u.path, git.url.path);
    } else if git.url.LocalRepo? && git.url.path.rooted {
      AbsoluteIgnoresBase(base, Leads(base, LocalPath(w, u)), git.url.path);
    }
  }

  lemma AbsoluteIgnoresBase(a: Dir, b: Dir, p: FilePath)
    requires p.rooted
    ensures Leads(a, p) == Leads(b, p)
  {
  }
}
