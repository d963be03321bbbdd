/** The two-way record of imports, and the transitive closures computed from it (core/src/cache.rs). */
module ImportData {
  import opened Graph
  import opened TermCache
  import opened CacheHub

  /** A position in a source file. */
  datatype Pos = Pos(file: FileId, offset: nat)

  type RevImports = map<FileId, map<FileId, Pos>>

  function RevEdges(revImports: RevImports): Edges<FileId> {
    map f <- revImports :: revImports[f].Keys
  }

  /** The two maps record the same edges. */
  ghost predicate Dual(imports: Imports, revImports: RevImports) {
    forall f, h :: Edge(AllEdges(imports), f, h) <==> Edge(RevEdges(revImports), h, f)
  }

  class ImportData {
    var imports: Imports
    var revImports: RevImports

    ghost predicate Valid()
      reads this
    {
      Dual(imports, revImports)
    }

    constructor ()
      ensures Valid() && imports == map[] && revImports == map[]
    {
      imports, revImports := map[], map[];
    }

    /** What both resolvers do for an import in `parent`: the first position of each edge is kept. */
    method Record(parent: FileId, target: ImportTarget, pos: Pos)
      requires Valid()
      modifies this
      ensures Valid()
      ensures imports == old(imports)[parent := TargetsOf(old(imports), parent) + {target}]
      ensures Edge(AllEdges(imports), parent, target.file)
      ensures forall f, h ::
                Edge(AllEdges(imports), f, h) <==>
                  Edge(AllEdges(old(imports)), f, h) || (f == parent && h == target.file)
      ensures revImports[target.file][parent] ==
              if Edge(AllEdges(old(imports)), parent, target.file) then old(revImports)[target.file][parent] else pos
    {
      var importers := if target.file in revImports then revImports[target.file] else map[];
      if parent !in importers {
        importers := importers[parent := pos];
      }
      RecordedEdges(imports, parent, target);
      imports := imports[parent := TargetsOf(imports, parent) + {target}];
      revImports := revImports[target.file := importers];
      assert forall f, h ::
               Edge(RevEdges(revImports), h, f) <==>
                 Edge(RevEdges(old(revImports)), h, f) || (f == parent && h == target.file);
    }

    method TransitiveImports(file: FileId) returns (r: set<FileId>)
      ensures forall h :: h in r <==> ReachPlus(AllEdges(imports), file, h)
    {
      r := Closure(AllEdges(imports), file);
    }

    method TransitiveRevImports(file: FileId) returns (r: set<FileId>)
      ensures forall h :: h in r <==> ReachPlus(RevEdges(revImports), file, h)
    {
      r := Closure(RevEdges(revImports), file);
    }
  }

  lemma RecordedEdges(imports: Imports, parent: FileId, target: ImportTarget)
    ensures forall f, h :: Edge(AllEdges(imports[parent := TargetsOf(imports, parent) + {target}]), f, h) <==>
                           Edge(AllEdges(imports), f, h) || (f == parent && h == target.file)
  {
    var imports' := imports[parent := TargetsOf(imports, parent) + {target}];
    forall f, h
      ensures Edge(AllEdges(imports'), f, h) <==> Edge(AllEdges(imports), f, h) || (f == parent && h == target.file)
    {
      EdgesAreImports(imports, f, h);
      EdgesAreImports(imports', f, h);
      if f == parent && h == target.file {
        assert target in TargetsOf(imports', f);
      }
    }
  }

  // The worklist

  function Successors(g: Edges<FileId>, f: FileId): set<FileId> {
    if f in g then g[f] else {}
  }

  /** All files an edge leads to. */
  ghost function Targets(g: Edges<FileId>): set<FileId> {
    set f <- g, h <- g[f] :: h
  }

  /** `found` is reachable from `file`, and closed under edges but for what is still on the stack. */
  ghost predicate Exploring(g: Edges<FileId>, file: FileId, found: set<FileId>, stack: seq<FileId>) {
    && (forall h <- found :: h in Targets(g) && ReachPlus(g, file, h))
    && (forall h <- stack :: h == file || h in found)
    && (forall f, h | (f == file || f in found) && Edge(g, f, h) :: h in found || f in stack)
  }

  method Closure(g: Edges<FileId>, file: FileId) returns (found: set<FileId>)
    ensures forall h :: h in found <==> ReachPlus(g, file, h)
  {
    found := {};
    var stack := [file];
    while stack != []
      invariant Exploring(g, file, found, stack)
      decreases Targets(g) - found, |stack|
    {
      var f := stack[|stack| - 1];
      ghost var before, found0 := stack, found;
      stack := stack[..|stack| - 1];
      var todo := Successors(g, f);
      while todo != {}
        invariant todo <= Successors(g, f)
        invariant found0 <= found && found == found0 + (Successors(g, f) - todo)
        invariant forall h :: h in stack <==> h in before[..|before| - 1] || h in found - found0
        invariant |stack| < |before| || found0 < found
        decreases todo
      {
        var h :| h in todo;
        todo := todo - {h};
        if h !in found {
          found := found + {h};
          stack := stack + [h];
        }
      }
      ExploreStep(g, file, found0, before, f, found, stack);
    }
    ExploredAll(g, file, found);
  }

  lemma ExploreStep(g: Edges<FileId>, file: FileId, found0: set<FileId>, before: seq<FileId>, f: FileId,
                    found: set<FileId>, stack: seq<FileId>)
    requires Exploring(g, file, found0, before) && before != [] && f == before[|before| - 1]
    requires found == found0 + Successors(g, f)
    requires forall h :: h in stack <==> h in before[..|before| - 1] || h in found - found0
    ensures Exploring(g, file, found, stack)
    ensures Targets(g) - found <= Targets(g) - found0 && (found0 < found ==> Targets(g) - found < Targets(g) - found0)
  {
    hide Reach, ReachPlus;
    assert f in before;
    forall h <- Successors(g, f) ensures h in Targets(g) && ReachPlus(g, file, h) {
      assert Edge(g, f, h);
      ReachPlusThenEdge(g, file, f, h);
    }
    if found0 < found {
      var h :| h in found && h !in found0;
      assert h in Targets(g) - found0 && h !in Targets(g) - found;
    }
  }

  lemma ExploredAll(g: Edges<FileId>, file: FileId, found: set<FileId>)
    requires Exploring(g, file, found, [])
    ensures forall h :: h in found <==> ReachPlus(g, file, h)
  {
    forall h | ReachPlus(g, file, h) ensures h in found {
      var m :| Edge(g, file, m) && Reach(g, m, h);
      ReachStaysInside(g, found, m, h);
    }
  }

  // Duality

  lemma {:induction false} ReversedPath(g: Edges<FileId>, rev: Edges<FileId>, p: seq<FileId>)
    requires IsPath(g, p) && forall f, h :: Edge(g, f, h) ==> Edge(rev, h, f)
    ensures Reach(rev, p[|p| - 1], p[0])
    decreases |p|
  {
    if |p| == 1 {
      ReachSelf(rev, p[0]);
    } else {
      ReversedPath(g, rev, p[1..]);
      assert Edge(g, p[0], p[1]);
      ReachThenEdge(rev, p[|p| - 1], p[1], p[0]);
    }
  }

  lemma ReversedReachPlus(g: Edges<FileId>, rev: Edges<FileId>, a: FileId, b: FileId)
    requires ReachPlus(g, a, b) && forall f, h :: Edge(g, f, h) ==> Edge(rev, h, f)
    ensures ReachPlus(rev, b, a)
  {
    var m :| Edge(g, a, m) && Reach(g, m, b);
    var p :| IsPath(g, p) && p[0] == m && p[|p| - 1] == b;
    ReversedPath(g, rev, p);
    ReachIsPlus(rev, b, m, a);
  }

  /** A file is among the transitive importers of another exactly when it transitively imports it. */
  lemma ClosuresAreDual(imports: Imports, revImports: RevImports, f: FileId, h: FileId)
    requires Dual(imports, revImports)
    ensures ReachPlus(RevEdges(revImports), f, h) <==> ReachPlus(AllEdges(imports), h, f)
  {
    if ReachPlus(RevEdges(revImports), f, h) {
      ReversedReachPlus(RevEdges(revImports), AllEdges(imports), f, h);
    }
    if ReachPlus(AllEdges(imports), h, f) {
      ReversedReachPlus(AllEdges(imports), RevEdges(revImports), h, f);
    }
  }
}
