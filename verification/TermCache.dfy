/** The term cache, and the pass that transforms a file with everything it imports (core/src/cache.rs). */
module TermCache {
  import opened Types
  import opened Graph

  type FileId = nat

  /** The code of a program in its runtime form. */
  datatype Term = Term(code: int)

  datatype TermState =
    | Populated
    | CustomTransforming
    | CustomTransformed(transformId: nat)
    | ImportsResolving
    | ImportsResolved
    | Transforming
    | Transformed
    | Closurized
  {
    /** The derived order of the states. */
    function Rank(): nat {
      match this
      case Populated => 0
      case CustomTransforming => 1
      case CustomTransformed(_) => 2
      case ImportsResolving => 3
      case ImportsResolved => 4
      case Transforming => 5
      case Transformed => 6
      case Closurized => 7
    }
  }

  datatype InputFormat = Nickel | OtherFormat(name: string)

  datatype TermEntry = TermEntry(value: Term, format: InputFormat, state: TermState) {
    predicate Pending() {
      state.Rank() < Transforming.Rank()
    }
    predicate Done() {
      state.Rank() >= Transformed.Rank()
    }
  }

  /** An entry waits for the pass until it is transforming; it is through with it once transformed. */
  lemma StatesOfThePass(e: TermEntry)
    ensures e.Pending() <==> !e.state.Transforming? && !e.state.Transformed? && !e.state.Closurized?
    ensures e.Done() <==> e.state.Transformed? || e.state.Closurized?
  {
  }

  type Terms = map<FileId, TermEntry>

  /** Transforming one term may fail on an unbound type variable. */
  type Transformation = (FileId, Term) -> Option<Term>

  datatype TransformResult = Cached | Done | IncompatibleState | UnboundTypeVariable {
    predicate Ok() {
      Cached? || this.Done?
    }
  }

  function PendingFiles(terms: Terms): set<FileId> {
    set f | f in terms && terms[f].Pending()
  }

  /** The entry of `f` after it went through the pass. */
  function Rewritten(tr: Transformation, f: FileId, e: TermEntry): TermEntry
    requires tr(f, e.value).Some?
  {
    e.(value := tr(f, e.value).value, state := Transformed)
  }

  ghost predicate IsRewritten(tr: Transformation, before: Terms, after: Terms, f: FileId)
    requires f in before && f in after
  {
    before[f].Pending() && tr(f, before[f].value).Some? && after[f] == Rewritten(tr, f, before[f])
  }

  /** What one call of the pass from `root` may change, whichever calls are under way around it. */
  ghost predicate Advances(tr: Transformation, g: Edges<FileId>, before: Terms, after: Terms, root: FileId) {
    && after.Keys == before.Keys
    && (forall f <- before :: after[f] == before[f] || (Reach(g, root, f) && IsRewritten(tr, before, after, f)))
    && (forall f <- before :: IsRewritten(tr, before, after, f) ==> ImportsBegun(g, after, f, {}))
  }

  class Cache {
    var terms: Terms

    constructor ()
      ensures terms == map[]
    {
      terms := map[];
    }

    method Transform(tr: Transformation, g: Edges<FileId>, f: FileId) returns (r: TransformResult)
      modifies this
      ensures r.Ok() ==> f in terms && !terms[f].Pending() && Advances(tr, g, old(terms), terms, f)
      ensures r.Cached? <==> f in old(terms) && old(terms)[f].Done()
      ensures r.Cached? ==> terms == old(terms)
      ensures !r.Ok() ==> exists h :: FailsAt(tr, g, old(terms), terms, f, h, r)
      decreases PendingFiles(terms)
    {
      hide Advances, FailsAt, PendingFiles, Reach, Edge;
      AdvancesNothing(tr, g, terms, f);
      if f !in terms {
        FailsHere(tr, g, terms, f, IncompatibleState);
        return IncompatibleState;
      } else if terms[f].state.Rank() >= Transformed.Rank() {
        return Cached;
      } else if terms[f].state.Rank() >= Transforming.Rank() {
        return TransformResult.Done;
      }
      ghost var before := terms;
      var entry := terms[f];
      terms := terms - {f};
      var term := tr(f, entry.value);
      if term.None? {
        FailsHere(tr, g, before, f, UnboundTypeVariable);
        return UnboundTypeVariable;
      }
      terms := terms[f := entry.(value := term.value, state := Transforming)];
      ghost var start := terms;
      assert start == Started(tr, before, f);
      AdvancesNothing(tr, g, start, f);
      var todo := ImportedBy(g, f);
      while todo != {}
        invariant todo <= ImportedBy(g, f) && ImportsBegun(g, terms, f, todo)
        invariant Advances(tr, g, start, terms, f)
        decreases todo
      {
        var h :| h in todo;
        ghost var mid := terms;
        LessPending(tr, g, before, f, mid, h);
        r := Transform(tr, g, h);
        if !r.Ok() {
          FailsAbove(tr, g, before, f, mid, terms, h, r);
          return;
        }
        AdvancesCompose(tr, g, start, mid, terms, f, h);
        ImportsGoOn(tr, g, mid, terms, f, h, todo);
        todo := todo - {h};
      }
      Finish(tr, g, before, terms, f);
      terms := terms[f := terms[f].(state := Transformed)];
      r := TransformResult.Done;
    }
  }

  function ImportedBy(g: Edges<FileId>, f: FileId): set<FileId> {
    if f in g then g[f] else {}
  }

  /** The imports of `f` have been begun, but for some. */
  ghost predicate ImportsBegun(g: Edges<FileId>, terms: Terms, f: FileId, todo: set<FileId>) {
    forall h <- ImportedBy(g, f) :: h in todo || (h in terms && !terms[h].Pending())
  }

  /** The cache once `f` is under way. */
  function Started(tr: Transformation, terms: Terms, f: FileId): Terms
    requires f in terms && tr(f, terms[f].value).Some?
  {
    terms[f := terms[f].(value := tr(f, terms[f].value).value, state := Transforming)]
  }

  /** The entry of `f` was rewritten, and what it imports has perhaps been dealt with. */
  ghost predicate Touched(tr: Transformation, before: Terms, after: Terms, f: FileId)
    requires f in before && f in after
  {
    && before[f].Pending() && tr(f, before[f].value).Some?
    && (after[f] == Rewritten(tr, f, before[f]) || after[f] == Rewritten(tr, f, before[f]).(state := Transforming))
  }

  /**
   A pass from `root` that failed at `h`: a file that is missing leaves all entries in place; a file
   that cannot be transformed loses its entry. Entries in reach may have been rewritten.
   */
  ghost predicate FailsAt(tr: Transformation, g: Edges<FileId>, before: Terms, after: Terms, root: FileId, h: FileId,
                          r: TransformResult) {
    && Reach(g, root, h)
    && (r.IncompatibleState? ==> h !in before && after.Keys == before.Keys)
    && (r.UnboundTypeVariable? ==>
          h in before && before[h].Pending() && tr(h, before[h].value).None? && after.Keys == before.Keys - {h})
    && (forall f <- after ::
          f in before && (after[f] == before[f] || (Reach(g, root, f) && Touched(tr, before, after, f))))
  }

  lemma FailsHere(tr: Transformation, g: Edges<FileId>, terms: Terms, f: FileId, r: TransformResult)
    requires r.IncompatibleState? ==> f !in terms
    requires r.UnboundTypeVariable? ==> f in terms && terms[f].Pending() && tr(f, terms[f].value).None?
    ensures FailsAt(tr, g, terms, if r.UnboundTypeVariable? then terms - {f} else terms, f, f, r)
  {
    ReachSelf(g, f);
  }

  lemma LessPending(tr: Transformation, g: Edges<FileId>, before: Terms, f: FileId, mid: Terms, h: FileId)
    requires f in before && before[f].Pending() && tr(f, before[f].value).Some?
    requires Advances(tr, g, Started(tr, before, f), mid, f)
    ensures PendingFiles(mid) < PendingFiles(before)
  {
    hide Reach;
    assert f in PendingFiles(before) && f !in PendingFiles(mid);
  }

  /** What became of the entries since before `f` was started. */
  lemma AdvancedFrom(tr: Transformation, g: Edges<FileId>, before: Terms, f: FileId, mid: Terms)
    requires f in before && before[f].Pending() && tr(f, before[f].value).Some?
    requires Advances(tr, g, Started(tr, before, f), mid, f)
    ensures mid.Keys == before.Keys
    ensures forall x <- mid | mid[x].Pending() :: mid[x] == before[x]
    ensures forall x <- mid :: mid[x] == before[x] || (Reach(g, f, x) && Touched(tr, before, mid, x))
  {
    ReachSelf(g, f);
    hide Reach;
  }

  lemma FailsAbove(tr: Transformation, g: Edges<FileId>, before: Terms, f: FileId, mid: Terms, after: Terms,
                   child: FileId, r: TransformResult)
    requires f in before && before[f].Pending() && tr(f, before[f].value).Some?
    requires Advances(tr, g, Started(tr, before, f), mid, f)
    requires child in ImportedBy(g, f) && (exists h :: FailsAt(tr, g, mid, after, child, h, r))
    ensures exists h :: FailsAt(tr, g, before, after, f, h, r)
  {
    hide Reach, Advances;
    var h :| FailsAt(tr, g, mid, after, child, h, r);
    AdvancedFrom(tr, g, before, f, mid);
    forall x | Reach(g, child, x) ensures Reach(g, f, x) {
      EdgeThenReach(g, f, child, x);
    }
    assert FailsAt(tr, g, before, after, f, h, r);
  }

  lemma ImportsGoOn(tr: Transformation, g: Edges<FileId>, mid: Terms, after: Terms, f: FileId, h: FileId,
                    todo: set<FileId>)
    requires Advances(tr, g, mid, after, h) && h in after && !after[h].Pending() && ImportsBegun(g, mid, f, todo)
    ensures ImportsBegun(g, after, f, todo - {h})
  {
    hide Reach;
  }

  lemma Finish(tr: Transformation, g: Edges<FileId>, before: Terms, terms: Terms, f: FileId)
    requires f in before && before[f].Pending() && tr(f, before[f].value).Some?
    requires Advances(tr, g, Started(tr, before, f), terms, f) && ImportsBegun(g, terms, f, {})
    ensures f in terms && Advances(tr, g, before, terms[f := terms[f].(state := Transformed)], f)
  {
    ReachSelf(g, f);
    hide Reach;
  }

  lemma AdvancesNothing(tr: Transformation, g: Edges<FileId>, terms: Terms, root: FileId)
    ensures Advances(tr, g, terms, terms, root)
  {
  }

  lemma AdvancesCompose(tr: Transformation, g: Edges<FileId>, before: Terms, mid: Terms, after: Terms, root: FileId,
                        child: FileId)
    requires Advances(tr, g, before, mid, root) && Advances(tr, g, mid, after, child) && child in ImportedBy(g, root)
    ensures Advances(tr, g, before, after, root)
  {
    forall f <- before ensures after[f] == before[f] || (Reach(g, root, f) && IsRewritten(tr, before, after, f)) {
      if after[f] != mid[f] {
        EdgeThenReach(g, root, child, f);
      }
    }
  }

  // Whole passes

  /** Between passes no entry is under way, and what is transformed only imports what is. */
  ghost predicate Settled(g: Edges<FileId>, terms: Terms) {
    && (forall f <- terms :: !terms[f].state.Transforming?)
    && (forall f <- terms, h | terms[f].Done() && Edge(g, f, h) :: h in terms && terms[h].Done())
  }

  /** The cache after a pass from `root`: exactly the pending files it reaches are rewritten, once. */
  ghost predicate TransformedFrom(tr: Transformation, g: Edges<FileId>, before: Terms, after: Terms, root: FileId) {
    && after.Keys == before.Keys
    && forall f <- before ::
         if Reach(g, root, f) && before[f].Pending()
         then tr(f, before[f].value).Some? && after[f] == Rewritten(tr, f, before[f])
         else after[f] == before[f]
  }

  /** On any import graph, a pass that succeeds from a settled cache transforms all that `root` reaches. */
  lemma PassTransformsReachable(tr: Transformation, g: Edges<FileId>, before: Terms, after: Terms, root: FileId)
    requires Settled(g, before) && Advances(tr, g, before, after, root) && root in after && !after[root].Pending()
    ensures TransformedFrom(tr, g, before, after, root) && Settled(g, after)
    ensures forall f | Reach(g, root, f) :: f in after && after[f].Done()
  {
    var finished := set f | f in after && after[f].Done();
    assert forall f <- after :: !after[f].Pending() ==> f in finished;
    assert Closed(g, finished) by {
      forall f <- finished, h | Edge(g, f, h) ensures h in finished {
        if after[f] != before[f] {
          assert ImportsBegun(g, after, f, {});
        }
      }
    }
    forall f | Reach(g, root, f) ensures f in finished {
      ReachStaysInside(g, finished, root, f);
    }
  }

  /** If every file in reach is present and can be transformed, the pass succeeds. */
  method TransformAll(cache: Cache, tr: Transformation, g: Edges<FileId>, root: FileId) returns (r: TransformResult)
    requires Settled(g, cache.terms)
    modifies cache
    ensures r.Ok() ==> TransformedFrom(tr, g, old(cache.terms), cache.terms, root) && Settled(g, cache.terms)
    ensures r.Ok() ==> forall f | Reach(g, root, f) :: f in cache.terms && cache.terms[f].Done()
    ensures r.Ok() <==> forall f | Reach(g, root, f) ::
      f in old(cache.terms) && (old(cache.terms)[f].Pending() ==> tr(f, old(cache.terms)[f].value).Some?)
  {
    ghost var before := cache.terms;
    r := cache.Transform(tr, g, root);
    if r.Ok() {
      PassTransformsReachable(tr, g, before, cache.terms, root);
    }
  }

  lemma NoImports(f: FileId, h: FileId)
    requires Reach(map[], f, h)
    ensures h == f
  {
    ReachStaysInside(map[], {f}, f, h);
  }

  /** A file that cannot be transformed: its entry is gone. */
  method LostEntry() returns (cache: Cache, r: TransformResult)
    ensures r == UnboundTypeVariable && cache.terms == map[]
  {
    cache := new Cache();
    cache.terms := map[0 := TermEntry(Term(0), Nickel, Populated)];
    ghost var before := cache.terms;
    var tr: Transformation := (f, term) => None;
    r := cache.Transform(tr, map[], 0);
    forall h | Reach(map[], 0, h) ensures h == 0 {
      NoImports(0, h);
    }
  }
}
