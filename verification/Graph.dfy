/** Reachability in the directed graphs of imports and of package dependencies. */
module Graph {

  type Edges<T> = map<T, set<T>>

  predicate Edge<T(==)>(g: Edges<T>, a: T, b: T) {
    a in g && b in g[a]
  }

  ghost predicate IsPath<T>(g: Edges<T>, p: seq<T>) {
    |p| > 0 && forall i :: 0 <= i < |p| - 1 ==> Edge(g, p[i], p[i + 1])
  }

  /** Zero or more edges lead from `a` to `b`. */
  ghost predicate Reach<T(!new)>(g: Edges<T>, a: T, b: T) {
    exists p :: IsPath(g, p) && p[0] == a && p[|p| - 1] == b
  }

  /** One or more edges lead from `a` to `b`. */
  ghost predicate ReachPlus<T(!new)>(g: Edges<T>, a: T, b: T) {
    exists m :: Edge(g, a, m) && Reach(g, m, b)
  }

  ghost predicate Closed<T(!new)>(g: Edges<T>, s: set<T>) {
    forall a <- s, b | Edge(g, a, b) :: b in s
  }

  lemma ReachSelf<T(!new)>(g: Edges<T>, a: T)
    ensures Reach(g, a, a)
  {
    assert IsPath(g, [a]);
  }

  lemma ReachThenEdge<T(!new)>(g: Edges<T>, a: T, b: T, c: T)
    requires Reach(g, a, b) && Edge(g, b, c)
    ensures Reach(g, a, c)
  {
    var p :| IsPath(g, p) && p[0] == a && p[|p| - 1] == b;
    assert IsPath(g, p + [c]);
  }

  lemma EdgeThenReach<T(!new)>(g: Edges<T>, a: T, b: T, c: T)
    requires Edge(g, a, b) && Reach(g, b, c)
    ensures Reach(g, a, c)
  {
    var p :| IsPath(g, p) && p[0] == b && p[|p| - 1] == c;
    assert IsPath(g, [a] + p);
  }

  lemma {:induction false} PathStaysInside<T(!new)>(g: Edges<T>, s: set<T>, p: seq<T>)
    requires Closed(g, s) && IsPath(g, p) && p[0] in s
    ensures p[|p| - 1] in s
    decreases |p|
  {
    if |p| > 1 {
      assert Edge(g, p[0], p[1]);
      PathStaysInside(g, s, p[1..]);
    }
  }

  /** A set closed under edges contains all that its members reach. */
  lemma ReachStaysInside<T(!new)>(g: Edges<T>, s: set<T>, a: T, b: T)
    requires Closed(g, s) && a in s && Reach(g, a, b)
    ensures b in s
  {
    var p :| IsPath(g, p) && p[0] == a && p[|p| - 1] == b;
    PathStaysInside(g, s, p);
  }

  /** A walk followed by an edge has at least one edge. */
  lemma ReachIsPlus<T(!new)>(g: Edges<T>, a: T, b: T, c: T)
    requires Reach(g, a, b) && Edge(g, b, c)
    ensures ReachPlus(g, a, c)
  {
    var p :| IsPath(g, p) && p[0] == a && p[|p| - 1] == b;
    if |p| == 1 {
      ReachSelf(g, c);
    } else {
      assert Edge(g, p[0], p[1]) && IsPath(g, p[1..]);
      assert Reach(g, p[1], b);
      ReachThenEdge(g, p[1], b, c);
    }
  }

  lemma ReachPlusThenEdge<T(!new)>(g: Edges<T>, a: T, b: T, c: T)
    requires (a == b || ReachPlus(g, a, b)) && Edge(g, b, c)
    ensures ReachPlus(g, a, c)
  {
    if a == b {
      ReachSelf(g, c);
    } else {
      var m :| Edge(g, a, m) && Reach(g, m, b);
      ReachThenEdge(g, m, b, c);
    }
  }

  /** Whatever a part of a graph reaches, the graph reaches. */
  lemma ReachInLarger<T(!new)>(g: Edges<T>, larger: Edges<T>, a: T, b: T)
    requires Reach(g, a, b) && forall x, y | Edge(g, x, y) :: Edge(larger, x, y)
    ensures Reach(larger, a, b)
  {
    var p :| IsPath(g, p) && p[0] == a && p[|p| - 1] == b;
    assert IsPath(larger, p);
  }
}
