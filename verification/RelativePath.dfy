/** Normalisation of relative paths (core/src/cache.rs). */
module RelativePath {

  /** The components of a relative path without prefix. */
  datatype Component = CurDir | ParentDir | Normal(name: string)

  type Path = seq<Component>

  /** A directory, as the names that lead to it from the root. */
  type Dir = seq<string>

  /** One step from a directory; there is nothing above the root. */
  function Step(dir: Dir, c: Component): Dir {
    match c
    case CurDir => dir
    case ParentDir => if dir == [] then [] else dir[..|dir| - 1]
    case Normal(name) => dir + [name]
  }

  /** The directory a path leads to. */
  function Walk(dir: Dir, p: Path): Dir
    decreases |p|
  {
    if p == [] then dir else Walk(Step(dir, p[0]), p[1..])
  }

  function Ups(k: nat): Path {
    seq(k, _ => ParentDir)
  }

  function Names(names: Dir): Path {
    seq(|names|, i requires 0 <= i < |names| => Normal(names[i]))
  }

  /** Going up `k` times and then down along `names`. */
  datatype Canonical = Canonical(ups: nat, names: Dir) {
    function Path(): Path {
      Ups(ups) + Names(names)
    }
  }

  function Push(k: Canonical, c: Component): Canonical {
    match c
    case CurDir => k
    case ParentDir => if k.names == [] then Canonical(k.ups + 1, []) else Canonical(k.ups, k.names[..|k.names| - 1])
    case Normal(name) => Canonical(k.ups, k.names + [name])
  }

  function PushAll(k: Canonical, p: Path): Canonical
    decreases |p|
  {
    if p == [] then k else PushAll(Push(k, p[0]), p[1..])
  }

  /** The canonical form of a path. */
  function CanonicalOf(p: Path): Canonical {
    PushAll(Canonical(0, []), p)
  }

  method NormalizeRelPath(p: Path) returns (r: Path)
    ensures r == CanonicalOf(p).Path()
  {
    var parents: Path := [];
    var names: Dir := [];
    for i := 0 to |p|
      invariant parents == Ups(|parents|)
      invariant PushAll(Canonical(|parents|, names), p[i..]) == CanonicalOf(p)
    {
      match p[i]
      case CurDir =>
      case ParentDir =>
        if names == [] {
          parents := parents + [ParentDir];
        } else {
          names := names[..|names| - 1];
        }
      case Normal(name) => names := names + [name];
    }
    r := parents + Names(names);
  }

  // Meaning

  /** The directory `k` levels up. */
  function Above(dir: Dir, k: nat): Dir {
    if k <= |dir| then dir[..|dir| - k] else []
  }

  function Follow(dir: Dir, k: Canonical): Dir {
    Above(dir, k.ups) + k.names
  }

  lemma FollowPush(dir: Dir, k: Canonical, c: Component)
    ensures Follow(dir, Push(k, c)) == Step(Follow(dir, k), c)
  {
  }

  lemma {:induction false} FollowPushAll(dir: Dir, k: Canonical, p: Path)
    ensures Follow(dir, PushAll(k, p)) == Walk(Follow(dir, k), p)
    decreases |p|
  {
    if p != [] {
      FollowPush(dir, k, p[0]);
      FollowPushAll(dir, Push(k, p[0]), p[1..]);
    }
  }

  /** The canonical form leads where the path leads, from every directory. */
  lemma CanonicalLeadsThere(dir: Dir, p: Path)
    ensures Follow(dir, CanonicalOf(p)) == Walk(dir, p)
  {
    FollowPushAll(dir, Canonical(0, []), p);
    assert Follow(dir, Canonical(0, [])) == dir;
  }

  lemma {:induction false} PushAllConcat(k: Canonical, p: Path, q: Path)
    ensures PushAll(k, p + q) == PushAll(PushAll(k, p), q)
    decreases |p|
  {
    if p == [] {
      assert p + q == q;
    } else {
      assert (p + q)[1..] == p[1..] + q;
      PushAllConcat(Push(k, p[0]), p[1..], q);
    }
  }

  lemma {:induction false} PushUps(k: nat, n: nat)
    ensures PushAll(Canonical(k, []), Ups(n)) == Canonical(k + n, [])
    decreases n
  {
    if n > 0 {
      assert Ups(n)[1..] == Ups(n - 1);
      PushUps(k + 1, n - 1);
    }
  }

  lemma {:induction false} PushNames(k: nat, before: Dir, names: Dir)
    ensures PushAll(Canonical(k, before), Names(names)) == Canonical(k, before + names)
    decreases |names|
  {
    if names == [] {
      assert before + names == before;
    } else {
      assert Names(names)[1..] == Names(names[1..]);
      PushNames(k, before + [names[0]], names[1..]);
      assert before + [names[0]] + names[1..] == before + names;
    }
  }

  /** Normalising a canonical path changes nothing. */
  lemma NormalizationIsIdempotent(k: Canonical)
    ensures CanonicalOf(k.Path()) == k
  {
    PushAllConcat(Canonical(0, []), Ups(k.ups), Names(k.names));
    PushUps(0, k.ups);
    PushNames(k.ups, [], k.names);
    assert [] + k.names == k.names;
  }

  /** The normal form of a path, as a path, leads where the path leads. */
  lemma NormalPathLeadsThere(dir: Dir, p: Path)
    ensures Walk(dir, CanonicalOf(p).Path()) == Walk(dir, p)
  {
    var k := CanonicalOf(p);
    NormalizationIsIdempotent(k);
    CanonicalLeadsThere(dir, k.Path());
    CanonicalLeadsThere(dir, p);
  }

  /** A directory deep enough, with names that `hi` does not start with, tells two heights apart. */
  lemma HeightsDiffer(hi: Canonical, lo: Canonical)
    requires hi.ups > lo.ups
    ensures exists dir: Dir :: Follow(dir, hi) != Follow(dir, lo)
  {
    var name := if hi.names == [] then "" else hi.names[0] + "x";
    assert hi.names != [] ==> |name| != |hi.names[0]|;
    var dir: Dir := seq(hi.ups, _ => name);
    assert Follow(dir, hi) == hi.names;
    assert Follow(dir, lo)[0] == name;
  }

  /** Two canonical forms that lead to the same place from every directory are equal. */
  lemma CanonicalIsUnique(a: Canonical, b: Canonical)
    ensures (forall dir: Dir :: Follow(dir, a) == Follow(dir, b)) ==> a == b
  {
    if a.ups == b.ups {
      var dir: Dir := [];
      assert Above(dir, a.ups) == [];
      assert Follow(dir, a) == a.names && Follow(dir, b) == b.names;
    } else {
      HeightsDiffer(if a.ups > b.ups then a else b, if a.ups > b.ups then b else a);
    }
  }

  /** Equal normal forms, exactly when the paths lead to the same place from every directory. */
  lemma NormalFormsDecide(p: Path, q: Path)
    ensures CanonicalOf(p).Path() == CanonicalOf(q).Path() <==> forall dir: Dir :: Walk(dir, p) == Walk(dir, q)
  {
    var a, b := CanonicalOf(p), CanonicalOf(q);
    if a.Path() == b.Path() {
      NormalizationIsIdempotent(a);
      NormalizationIsIdempotent(b);
      forall dir: Dir ensures Walk(dir, p) == Walk(dir, q) {
        CanonicalLeadsThere(dir, p);
        CanonicalLeadsThere(dir, q);
      }
    } else {
      CanonicalIsUnique(a, b);
      var dir: Dir :| Follow(dir, a) != Follow(dir, b);
      CanonicalLeadsThere(dir, p);
      CanonicalLeadsThere(dir, q);
    }
  }
}
