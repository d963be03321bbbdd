/** What static simplification promises for a whole annotation, and what its promises depend on. */
module StaticContract {
  import opened Types
  import opened Blame
  import opened Simplify
  import opened FreshTails
  import opened Hazards
  import opened Agreement
  import BlamePreservation

  /**
   On every observation that does not blame the term, the simplified contract meets the events of the
   original one, but for those that are announced as lost or gained, and gives the same value, seals
   made for the term apart, exactly when no other is announced. It blames the term exactly when a record
   that hides excluded fields is sealed over for a quantifier that stays. Events are not counted: a
   failure that is announced as lost at one place is still among the events of the simplified contract
   if a check of the same side, blaming the same party, fails at another.
   */
  lemma SimplifiedContractAgrees(t: Type, next: nat, ci: Embedded, v: Value)
    requires SealBlind(ci) && WellKinded(t, map[], Positive) && ShadowFree(t, NO_VARS, Positive)
    requires TermSafe(Run(t, map[], Positive, ci, v).events)
    ensures
      var (t', s) := Simplified(t, next);
      var o, o' := Run(t, map[], Positive, ci, v), Run(t', s.env, Positive, ci, Erase(v));
      var h := Met(t, map[], NO_VARS, Positive, ci, v);
      && o.events + Gained(h) == o'.events + Lost(h)
      && (TermSafe(o'.events) <==> NewRefusal(Positive) !in h)
      && (o'.out == Erase(o.out) <==> OtherValue !in h)
  {
    var s := State(map[], next);
    SimplifyGrows(t, NO_VARS, Positive, s);
    BlamePreservation.PreservesType(t, BlamePreservation.Runs(map[], Simplified(t, next).1.env, NO_VARS, ci), Positive,
                                    s, v);
    TermBlamed(Run(t, map[], Positive, ci, v).events,
               Run(Simplified(t, next).0, Simplified(t, next).1.env, Positive, ci, Erase(v)).events,
               Met(t, map[], NO_VARS, Positive, ci, v));
  }

  lemma TermBlamed(events: set<Event>, events': set<Event>, h: set<Hazard>)
    requires TermSafe(events) && events + Gained(h) == events' + Lost(h)
    ensures TermSafe(events') <==> NewRefusal(Positive) !in h
  {
    if NewRefusal(Positive) in h {
      assert Fail(Positive, Positive) in events' + Lost(h);
    } else {
      assert forall e <- events' :: e in events + Gained(h);
    }
  }

  // Types on which no check on the context is lost

  /** No dictionary check on the context is skipped: no `{_ : a}` stands in negative position with `a` removed. */
  predicate DictsKept(t: Type, vars: SimplifyVars, pol: Polarity)
    decreases t
  {
    match t
    case Arrow(dom, codom) => DictsKept(dom, vars, pol.Flip()) && DictsKept(codom, vars, pol)
    case Forall(x, kind, body) => DictsKept(body, if Elided(kind, pol) then Elide(vars, x, kind) else vars, pol)
    case Array(elem) => DictsKept(elem, vars, pol)
    case Dict(field, flavour) => !(pol.Negative? && SkipsDict(field, flavour, vars, pol)) && DictsKept(field, vars, pol)
    case Record(rows) => DictsKeptRecord(rows, vars, pol)
    case Enum(rows) => DictsKeptEnum(rows, vars, pol)
    case _ => true
  }

  predicate DictsKeptRecord(rows: RecordRows, vars: SimplifyVars, pol: Polarity)
    decreases rows
  {
    rows.RExtend? ==> DictsKept(rows.typ, vars, pol) && DictsKeptRecord(rows.tail, vars, pol)
  }

  predicate DictsKeptEnum(rows: EnumRows, vars: SimplifyVars, pol: Polarity)
    decreases rows
  {
    rows.EExtend? ==> (rows.arg.Some? ==> DictsKept(rows.arg.value, vars, pol)) && DictsKeptEnum(rows.tail, vars, pol)
  }

  /** In positive position, a record that ends in a variable that stays lists every field the variable excludes. */
  predicate SealsCovered(t: Type, env: Env, pol: Polarity)
    decreases t
  {
    match t
    case Arrow(dom, codom) => SealsCovered(dom, env, pol.Flip()) && SealsCovered(codom, env, pol)
    case Forall(x, kind, body) => SealsCovered(body, env[x := Bind(x, kind, pol)], pol)
    case Array(elem) => SealsCovered(elem, env, pol)
    case Dict(field, _) => SealsCovered(field, env, pol)
    case Record(rows) => CoversTail(rows, env, pol) && SealsCoveredRecord(rows, env, pol)
    case Enum(rows) => SealsCoveredEnum(rows, env, pol)
    case _ => true
  }

  predicate CoversTail(rows: RecordRows, env: Env, pol: Polarity) {
    var tail := TailOf(rows);
    pol.Positive? && tail.RVar? && tail.id in env && env[tail.id].SealTail? && env[tail.id].pol.Negative? ==>
      env[tail.id].excluded <= Declared(rows)
  }

  predicate SealsCoveredRecord(rows: RecordRows, env: Env, pol: Polarity)
    decreases rows
  {
    rows.RExtend? ==> SealsCovered(rows.typ, env, pol) && SealsCoveredRecord(rows.tail, env, pol)
  }

  predicate SealsCoveredEnum(rows: EnumRows, env: Env, pol: Polarity)
    decreases rows
  {
    rows.EExtend? ==>
      (rows.arg.Some? ==> SealsCovered(rows.arg.value, env, pol)) && SealsCoveredEnum(rows.tail, env, pol)
  }

  /** Quantifiers over rows in positive position are among the removed ones. */
  ghost predicate RowsTracked(env: Env, vars: SimplifyVars) {
    forall x <- env | env[x].SealTail? && env[x].pol.Positive? :: x in vars.rows && vars.rows[x] == env[x].excluded
  }

  /** What is met, as far as the type excludes it; `same` if no tail was generated. */
  ghost predicate Avoids(h: set<Hazard>, kept: bool, covered: bool, same: bool) {
    && (kept && covered ==> SkippedCheck(Negative) !in h)
    && (covered ==> NewRefusal(Positive) !in h)
    && (same ==> NewRefusal(Negative) !in h)
    && (covered && same ==> OtherValue !in h)
  }

  lemma {:induction false} NothingMet(t: Type, env: Env, vars: SimplifyVars, pol: Polarity, ci: Embedded, s: State,
                                      v: Value)
    requires RowsTracked(env, vars)
    ensures Avoids(Met(t, env, vars, pol, ci, v), DictsKept(t, vars, pol), SealsCovered(t, env, pol),
                   SimplifyType(t, vars, pol, s).1.next == s.next)
    decreases t, 0
  {
    match t
    case Forall(x, kind, body) =>
      NothingMet(body, env[x := Bind(x, kind, pol)], if Elided(kind, pol) then Elide(vars, x, kind) else vars, pol, ci,
                 s, v);
    case Arrow(dom, codom) =>
      if v.Fun? {
        var s1 := SimplifyType(dom, vars, pol.Flip(), s).1;
        NothingMetAll(dom, env, vars, pol.Flip(), ci, s, v.args);
        NothingMetAll(codom, env, vars, pol, ci, s1, v.results);
      }
      FunctionAvoids(dom, codom, env, vars, pol, ci, s, v);
    case Array(elem) => if v.Elems? { NothingMetAll(elem, env, vars, pol, ci, s, v.elems); }
    case Dict(field, flavour) =>
      if v.Fields? {
        forall x <- v.fields
          ensures Avoids(Met(field, env, vars, pol, ci, v.fields[x]), DictsKept(field, vars, pol),
                         SealsCovered(field, env, pol), SimplifyType(field, vars, pol, s).1.next == s.next)
        {
          NothingMet(field, env, vars, pol, ci, s, v.fields[x]);
        }
      }
      DictAvoids(field, flavour, env, vars, pol, ci, s, v);
    case Record(rows) => NothingMetInRecord(rows, env, vars, pol, ci, s, v);
    case Enum(rows) => if v.Tag? || v.Variant? { NothingMetEnum(rows, env, vars, pol, ci, s, v); }
    case _ =>
  }

  lemma FunctionAvoids(dom: Type, codom: Type, env: Env, vars: SimplifyVars, pol: Polarity, ci: Embedded, s: State,
                       v: Value)
    requires
      var (dom', s1) := SimplifyType(dom, vars, pol.Flip(), s);
      v.Fun? ==>
        && Avoids(MetAll(dom, env, vars, pol.Flip(), ci, v.args), DictsKept(dom, vars, pol.Flip()),
                  SealsCovered(dom, env, pol.Flip()), s1.next == s.next)
        && Avoids(MetAll(codom, env, vars, pol, ci, v.results), DictsKept(codom, vars, pol),
                  SealsCovered(codom, env, pol), SimplifyType(codom, vars, pol, s1).1.next == s1.next)
    ensures
      var t := Arrow(dom, codom);
      Avoids(Met(t, env, vars, pol, ci, v), DictsKept(t, vars, pol), SealsCovered(t, env, pol),
             SimplifyType(t, vars, pol, s).1.next == s.next)
  {
    SimplifyGrows(dom, vars, pol.Flip(), s);
    SimplifyGrows(codom, vars, pol, SimplifyType(dom, vars, pol.Flip(), s).1);
  }

  lemma DictAvoids(field: Type, flavour: DictFlavour, env: Env, vars: SimplifyVars, pol: Polarity, ci: Embedded,
                   s: State, v: Value)
    requires v.Fields? ==> forall x <- v.fields ::
               Avoids(Met(field, env, vars, pol, ci, v.fields[x]), DictsKept(field, vars, pol),
                      SealsCovered(field, env, pol), SimplifyType(field, vars, pol, s).1.next == s.next)
    ensures
      var t := Dict(field, flavour);
      Avoids(Met(t, env, vars, pol, ci, v), DictsKept(t, vars, pol), SealsCovered(t, env, pol),
             SimplifyType(t, vars, pol, s).1.next == s.next)
  {
  }

  lemma RecordUnfolds(rows: RecordRows, env: Env, vars: SimplifyVars, pol: Polarity, ci: Embedded, s: State, v: Value)
    ensures DictsKept(Record(rows), vars, pol) == DictsKeptRecord(rows, vars, pol)
    ensures SealsCovered(Record(rows), env, pol) == (CoversTail(rows, env, pol) && SealsCoveredRecord(rows, env, pol))
    ensures SimplifyType(Record(rows), vars, pol, s).1 ==
            SimplifyRecord(rows, vars, pol, s, Declared(rows), CanElide(rows, vars)).1
    ensures Met(Record(rows), env, vars, pol, ci, v) ==
            if !v.Fields? then MetShape(Record(rows), vars, pol, v)
            else if Declared(rows) <= v.fields.Keys && TailPasses(TailOf(rows), Declared(rows), env, pol, v)
            then MetRecord(rows, env, vars, pol, ci, v, RunFields(rows, env, pol, ci, v.fields)) else {}
  {
  }

  lemma {:induction false} NothingMetInRecord(rows: RecordRows, env: Env, vars: SimplifyVars, pol: Polarity,
                                              ci: Embedded, s: State, v: Value)
    requires RowsTracked(env, vars)
    ensures Avoids(Met(Record(rows), env, vars, pol, ci, v), DictsKept(Record(rows), vars, pol),
                   SealsCovered(Record(rows), env, pol), SimplifyType(Record(rows), vars, pol, s).1.next == s.next)
    decreases rows, 1
  {
    hide Met, DictsKept, SealsCovered, SimplifyType, SimplifyRecord, RunFields, MetFields, DictsKeptRecord,
         SealsCoveredRecord, TailPasses, RowsTracked, CoversTail, CanElide, NewlyRefused;
    RecordUnfolds(rows, env, vars, pol, ci, s, v);
    if v.Fields? && Declared(rows) <= v.fields.Keys && TailPasses(TailOf(rows), Declared(rows), env, pol, v) {
      NothingMetFields(rows, env, vars, pol, ci, s, Declared(rows), CanElide(rows, vars), v.fields);
      NothingLeftOver(rows, vars, pol, s, Declared(rows), CanElide(rows, vars));
      NothingRefused(rows, env, vars, pol, v);
    }
  }

  lemma {:induction false} NothingMetAll(t: Type, env: Env, vars: SimplifyVars, pol: Polarity, ci: Embedded, s: State,
                                         vs: seq<Value>)
    requires RowsTracked(env, vars)
    ensures Avoids(MetAll(t, env, vars, pol, ci, vs), DictsKept(t, vars, pol), SealsCovered(t, env, pol),
                   SimplifyType(t, vars, pol, s).1.next == s.next)
    decreases t, 1, |vs|
  {
    if vs != [] {
      NothingMet(t, env, vars, pol, ci, s, vs[0]);
      NothingMetAll(t, env, vars, pol, ci, s, vs[1..]);
    }
  }

  lemma {:induction false} NothingMetFields(rows: RecordRows, env: Env, vars: SimplifyVars, pol: Polarity, ci: Embedded,
                                            s: State, declared: set<Ident>, canElide: bool, fs: map<Ident, Value>)
    requires RowsTracked(env, vars)
    ensures Avoids(MetFields(rows, env, vars, pol, ci, fs), DictsKeptRecord(rows, vars, pol),
                   SealsCoveredRecord(rows, env, pol),
                   SimplifyRecord(rows, vars, pol, s, declared, canElide).1.next == s.next)
    decreases rows, 0
  {
    if rows.RExtend? {
      var s1 := SimplifyType(rows.typ, vars, pol, s).1;
      SimplifyGrows(rows.typ, vars, pol, s);
      RecordGrows(rows.tail, vars, pol, s1, declared, canElide);
      NothingMetFields(rows.tail, env, vars, pol, ci, s1, declared, canElide, fs);
      if rows.id in fs {
        NothingMet(rows.typ, env, vars, pol, ci, s, fs[rows.id]);
      }
    }
  }

  /** A removed tail in negative position that leaves excluded fields over is replaced with a generated one. */
  ghost predicate LeavesOver(rows: RecordRows, vars: SimplifyVars, pol: Polarity, declared: set<Ident>) {
    pol.Negative? && TailOf(rows).RVar? && TailOf(rows).id in vars.rows && vars.rows[TailOf(rows).id] - declared != {}
  }

  lemma {:induction false} NothingLeftOver(rows: RecordRows, vars: SimplifyVars, pol: Polarity, s: State,
                                           declared: set<Ident>, canElide: bool)
    ensures SimplifyRecord(rows, vars, pol, s, declared, canElide).1.next == s.next ==>
            !LeavesOver(rows, vars, pol, declared)
    decreases rows
  {
    if rows.RExtend? {
      var s1 := SimplifyType(rows.typ, vars, pol, s).1;
      SimplifyGrows(rows.typ, vars, pol, s);
      RecordGrows(rows.tail, vars, pol, s1, declared, canElide);
      NothingLeftOver(rows.tail, vars, pol, s1, declared, canElide);
    }
  }

  /** Where every excluded field is declared, none is hidden. */
  lemma NothingRefused(rows: RecordRows, env: Env, vars: SimplifyVars, pol: Polarity, v: Value)
    requires RowsTracked(env, vars) && v.Fields? && Declared(rows) <= v.fields.Keys
    requires TailPasses(TailOf(rows), Declared(rows), env, pol, v)
    ensures pol.Positive? && CoversTail(rows, env, pol) ==> !NewlyRefused(TailOf(rows), env, pol, v)
    ensures pol.Negative? && !LeavesOver(rows, vars, pol, Declared(rows)) ==> !NewlyRefused(TailOf(rows), env, pol, v)
  {
    if NewlyRefused(TailOf(rows), env, pol, v) {
      NoClash(v);
      var x :| x in Hidden(v.tail) * env[TailOf(rows).id].excluded;
      assert x !in Declared(rows);
    }
  }

  lemma {:induction false} NothingMetEnum(rows: EnumRows, env: Env, vars: SimplifyVars, pol: Polarity, ci: Embedded,
                                          s: State, v: Value)
    requires RowsTracked(env, vars) && (v.Tag? || v.Variant?)
    ensures Avoids(MetEnum(rows, env, vars, pol, ci, v), DictsKeptEnum(rows, vars, pol),
                   SealsCoveredEnum(rows, env, pol), SimplifyEnum(rows, vars, pol, s).2.next == s.next)
    decreases rows, 0
  {
    if rows.EExtend? {
      var s1 := SimplifyEnum(rows.tail, vars, pol, s).2;
      EnumGrows(rows.tail, vars, pol, s);
      NothingMetEnum(rows.tail, env, vars, pol, ci, s, v);
      if rows.arg.Some? {
        SimplifyGrows(rows.arg.value, vars, pol, s1);
        if v.Variant? {
          NothingMet(rows.arg.value, env, vars, pol, ci, s1, v.arg);
        }
      }
    }
  }

  /** The types on which simplification loses no check on the side of the context and adds none on the term. */
  predicate Preserving(t: Type) {
    DictsKept(t, NO_VARS, Positive) && SealsCovered(t, map[], Positive)
  }

  /** A check on the side of the term that meets a seal of the context and blames the context. */
  const ON_SEAL := Fail(Positive, Negative)

  /** A check on the side of the context that the context fails. */
  const BY_CONTEXT := Fail(Negative, Negative)

  lemma PreservedEvents(events: set<Event>, events': set<Event>, h: set<Hazard>)
    requires events + Gained(h) == events' + Lost(h) && SkippedCheck(Negative) !in h && NewRefusal(Positive) !in h
    ensures events - {ON_SEAL} <= events' <= events + {BY_CONTEXT}
    ensures SkippedCheck(Positive) in h ==> ON_SEAL in events
    ensures NewRefusal(Negative) in h ==> BY_CONTEXT in events'
    ensures SkippedCheck(Positive) !in h && NewRefusal(Negative) !in h ==> events' == events
  {
    forall x <- h | x.SkippedCheck? ensures x.site.Positive? {
      assert x == SkippedCheck(x.site);
    }
    assert Lost(h) <= {ON_SEAL} && Gained(h) <= {BY_CONTEXT};
    if SkippedCheck(Positive) in h {
      assert ON_SEAL in events' + Lost(h);
    }
    if NewRefusal(Negative) in h {
      assert BY_CONTEXT in events + Gained(h);
    }
    forall e <- events | e != ON_SEAL ensures e in events' { assert e in events' + Lost(h); }
    forall e <- events' ensures e in events + {BY_CONTEXT} { assert e in events + Gained(h); }
  }

  /**
   Blame preservation, for every observation of such a type that does not blame the term: the simplified
   contract does not blame it either, and every failure of the context is still met, but for checks on
   the side of the term that meet a seal of the context. If no such check fails, no event is lost. The
   only new event is a refusal of a record that the context hands over, in which an excluded field is
   hidden by a seal made for the term.
   */
  lemma BlamePreserved(t: Type, next: nat, ci: Embedded, v: Value)
    requires SealBlind(ci) && WellKinded(t, map[], Positive) && ShadowFree(t, NO_VARS, Positive) && Preserving(t)
    requires TermSafe(Run(t, map[], Positive, ci, v).events)
    ensures
      var (t', s) := Simplified(t, next);
      var events, events' := Run(t, map[], Positive, ci, v).events, Run(t', s.env, Positive, ci, Erase(v)).events;
      var h := Met(t, map[], NO_VARS, Positive, ci, v);
      && TermSafe(events') && events - {ON_SEAL} <= events' <= events + {BY_CONTEXT}
      && (SkippedCheck(Positive) in h ==> ON_SEAL in events)
      && (NewRefusal(Negative) in h ==> BY_CONTEXT in events')
      && (SkippedCheck(Positive) !in h && NewRefusal(Negative) !in h ==> events' == events)
  {
    SimplifiedContractAgrees(t, next, ci, v);
    NothingMet(t, map[], NO_VARS, Positive, ci, State(map[], next), v);
    PreservedEvents(Run(t, map[], Positive, ci, v).events,
                    Run(Simplified(t, next).0, Simplified(t, next).1.env, Positive, ci, Erase(v)).events,
                    Met(t, map[], NO_VARS, Positive, ci, v));
  }

  /** The same where no check on the side of the term fails: no event at all is lost. */
  lemma NoBlameLost(t: Type, next: nat, ci: Embedded, v: Value)
    requires SealBlind(ci) && WellKinded(t, map[], Positive) && ShadowFree(t, NO_VARS, Positive) && Preserving(t)
    requires Run(t, map[], Positive, ci, v).events <= {BY_CONTEXT}
    ensures
      var (t', s) := Simplified(t, next);
      var events, events' := Run(t, map[], Positive, ci, v).events, Run(t', s.env, Positive, ci, Erase(v)).events;
      && events <= events' <= {BY_CONTEXT}
      && (NewRefusal(Negative) !in Met(t, map[], NO_VARS, Positive, ci, v) ==> events' == events)
  {
    BlamePreserved(t, next, ci, v);
  }

  /**
   If besides simplification generates no tail variable, the simplified contract gives the value of the
   original one, and all its events but for checks on the side of the term that meet a seal of the context.
   */
  lemma FaithfulWithoutFreshTails(t: Type, next: nat, ci: Embedded, v: Value)
    requires SealBlind(ci) && WellKinded(t, map[], Positive) && ShadowFree(t, NO_VARS, Positive) && Preserving(t)
    requires TermSafe(Run(t, map[], Positive, ci, v).events)
    requires Simplified(t, next).1.next == next
    ensures
      var (t', s) := Simplified(t, next);
      var o, o' := Run(t, map[], Positive, ci, v), Run(t', s.env, Positive, ci, Erase(v));
      && o'.out == Erase(o.out) && o.events - {ON_SEAL} <= o'.events <= o.events
      && (SkippedCheck(Positive) !in Met(t, map[], NO_VARS, Positive, ci, v) ==> o'.events == o.events)
  {
    BlamePreserved(t, next, ci, v);
    SimplifiedContractAgrees(t, next, ci, v);
    NothingMet(t, map[], NO_VARS, Positive, ci, State(map[], next), v);
    assert Gained(Met(t, map[], NO_VARS, Positive, ci, v)) == {};
  }

  // What the promises depend on

  const NO_CONTRACTS: Embedded := (c, pol, v) => Pass(v)

  const A := Name("a")
  const R := Name("r")
  const META := Name("meta")
  const OTHER := Name("other")
  const ONE := Atom(NumberGround, 1)

  /** `forall r. {; r} -> {meta : String; r}` */
  const INJECT_META: Type :=
    Forall(R, RecordRowsKind({META}), Arrow(Record(RVar(R)), Record(RExtend(META, String, RVar(R)))))

  lemma RunOne(t: Type, env: Env, pol: Polarity, ci: Embedded, v: Value)
    ensures
      var o := Run(t, env, pol, ci, v);
      RunAll(t, env, pol, ci, [v]) == Outcomes([o.out], o.events)
  {
    assert RunAll(t, env, pol, ci, [v][1..]) == Outcomes([], {});
  }

  const OTHER_ONLY := Fields(map[OTHER := ONE], NoTail)

  /** The record type that has only a tail, on the record that has only `other`. */
  lemma RunOther(tail: RecordRows, env: Env)
    requires tail.RVar?
    ensures
      var f := FieldsOutcome(map[OTHER := ONE], {});
      Run(Record(tail), env, Negative, NO_CONTRACTS, OTHER_ONLY) == RunTail(tail, {}, env, Negative, OTHER_ONLY, f)
    ensures {OTHER} * {META} == {} && OTHER_ONLY.fields.Keys - {} == {OTHER}
    ensures Restrict(map[OTHER := ONE], {}) == map[] && Restrict(map[OTHER := ONE], {OTHER}) == map[OTHER := ONE]
  {
    RunRecordType(tail, env, Negative, NO_CONTRACTS, OTHER_ONLY);
    assert |OTHER.text| != |META.text|;
  }

  lemma OtherErased()
    ensures Erase(OTHER_ONLY) == OTHER_ONLY && Erase(Fun([OTHER_ONLY], [])) == Fun([OTHER_ONLY], [])
  {
    assert Erase(OTHER_ONLY) == OTHER_ONLY;
    var v := Fun([OTHER_ONLY], []);
    assert Erase(v).args == [Erase(OTHER_ONLY)] && Erase(v).results == [];
  }

  /** A call with a field that is not declared: it reaches the function only under the original contract. */
  lemma DroppedFieldWitness(next: nat)
    ensures
      var v := Fun([OTHER_ONLY], []);
      var (t', s) := Simplified(INJECT_META, next);
      var o, o' := Run(INJECT_META, map[], Positive, NO_CONTRACTS, v), Run(t', s.env, Positive, NO_CONTRACTS, Erase(v));
      && o.events == {} == o'.events
      && o.out == Fun([Fields(map[], SealedTail(R, Positive, map[OTHER := ONE], NoTail))], [])
      && o'.out == Fun([Fields(map[], NoTail)], [])
  {
    InjectMetaOriginal();
    InjectMetaSimplified(next);
    var x := Generated(next);
    var v := Fun([OTHER_ONLY], []);
    var env := map[x := ExcludedOnly({META})];
    OtherErased();
    RunOther(RVar(x), env);
    assert Run(Record(RVar(x)), env, Negative, NO_CONTRACTS, OTHER_ONLY) == Outcome(Fields(map[], NoTail), {});
    hide Run, SimplifyType, Simplified;
    RunOne(Record(RVar(x)), env, Negative, NO_CONTRACTS, OTHER_ONLY);
    RunArrow(Record(RVar(x)), Dyn, env, Positive, NO_CONTRACTS, v);
  }

  lemma InjectMetaOriginal()
    ensures
      var o := Run(INJECT_META, map[], Positive, NO_CONTRACTS, Fun([OTHER_ONLY], []));
      && o.events == {}
      && o.out == Fun([Fields(map[], SealedTail(R, Positive, map[OTHER := ONE], NoTail))], [])
  {
    var env: Env := map[R := SealTail(R, Positive, {META})];
    var codom := Record(RExtend(META, String, RVar(R)));
    var v := Fun([OTHER_ONLY], []);
    var none: Env := map[];
    assert none[R := SealTail(R, Positive, {META})] == env;
    assert Run(INJECT_META, map[], Positive, NO_CONTRACTS, v) ==
           Run(Arrow(Record(RVar(R)), codom), env, Positive, NO_CONTRACTS, v);
    RunOther(RVar(R), env);
    assert Run(Record(RVar(R)), env, Negative, NO_CONTRACTS, OTHER_ONLY) ==
           Outcome(Fields(map[], SealedTail(R, Positive, map[OTHER := ONE], NoTail)), {});
    hide Run;
    RunOne(Record(RVar(R)), env, Negative, NO_CONTRACTS, OTHER_ONLY);
    RunArrow(Record(RVar(R)), codom, env, Positive, NO_CONTRACTS, v);
  }

  lemma InjectMetaSimplified(next: nat)
    ensures
      var x := Generated(next);
      Simplified(INJECT_META, next) == (Arrow(Record(RVar(x)), Dyn), State(map[x := ExcludedOnly({META})], next + 1))
  {
    var x := Generated(next);
    var s, s1 := State(map[], next), State(map[x := ExcludedOnly({META})], next + 1);
    var vars := SimplifyVars({}, map[R := {META}]);
    var codom := Record(RExtend(META, String, RVar(R)));
    assert Elide(NO_VARS, R, RecordRowsKind({META})) == vars;
    assert {META} - {} == {META};
    assert s.env[x := ExcludedOnly({META})] == s1.env;
    assert SimplifyTailVar(R, vars, Negative, s, {}) == (RVar(x), s1);
    assert SimplifyType(Record(RVar(R)), vars, Negative, s) == (Record(RVar(x)), s1);
    assert SimplifyType(codom, vars, Positive, s1) == (Dyn, s1);
    assert SimplifyType(Arrow(Record(RVar(R)), codom), vars, Positive, s) == (Arrow(Record(RVar(x)), Dyn), s1);
  }

  /** `forall a. (forall a. a -> a) -> a`: the inner quantifier stays, and rebinds the name of a removed one. */
  const INNER: Type := Forall(A, TypeKind, Arrow(Var(A), Var(A)))
  const SHADOWED: Type := Forall(A, TypeKind, Arrow(INNER, Var(A)))

  /** The context passes a function that is not parametric: only the original contract notices. */
  lemma ShadowingWitness(next: nat)
    ensures !ShadowFree(SHADOWED, NO_VARS, Positive) && WellKinded(SHADOWED, map[], Positive)
    ensures
      var v := Fun([Fun([ONE], [ONE])], []);
      var (t', s) := Simplified(SHADOWED, next);
      && Run(SHADOWED, map[], Positive, NO_CONTRACTS, v).events == {Fail(Negative, Negative)}
      && Run(t', s.env, Positive, NO_CONTRACTS, Erase(v)).events == {}
  {
    ShadowedOriginal();
    ShadowedSimplified(next);
    KeptRun();
    ShadowedKinds();
    hide Run, Simplified;
  }

  lemma ShadowedKinds()
    ensures !ShadowFree(SHADOWED, NO_VARS, Positive) && WellKinded(SHADOWED, map[], Positive)
  {
    assert Elide(NO_VARS, A, TypeKind) == SimplifyVars({A}, map[]);
    assert !ShadowFree(INNER, SimplifyVars({A}, map[]), Negative);
  }

  lemma KeptRun()
    ensures
      var v := Erase(Fun([Fun([ONE], [ONE])], []));
      Run(Arrow(Forall(A, TypeKind, Arrow(Dyn, Dyn)), Dyn), map[], Positive, NO_CONTRACTS, v).events == {}
  {
    var f := Fun([ONE], [ONE]);
    var v := Fun([f], []);
    assert Erase(ONE) == ONE;
    assert Erase(f).args == [ONE] && Erase(f).results == [ONE];
    assert Erase(v).args == [f] && Erase(v).results == [];
    var env: Env := map[A := SealVar(A, Negative)];
    var kept := Forall(A, TypeKind, Arrow(Dyn, Dyn));
    var none: Env := map[];
    assert none[A := SealVar(A, Negative)] == env;
    assert Run(kept, none, Negative, NO_CONTRACTS, f) == Run(Arrow(Dyn, Dyn), env, Negative, NO_CONTRACTS, f);
    hide Run;
    DynAll(env, Positive, NO_CONTRACTS, [ONE]);
    DynAll(env, Negative, NO_CONTRACTS, [ONE]);
    RunArrow(Dyn, Dyn, env, Negative, NO_CONTRACTS, f);
    RunOne(kept, none, Negative, NO_CONTRACTS, f);
    RunArrow(kept, Dyn, none, Positive, NO_CONTRACTS, v);
  }

  lemma ShadowedOriginal()
    ensures Run(SHADOWED, map[], Positive, NO_CONTRACTS, Fun([Fun([ONE], [ONE])], [])).events ==
            {Fail(Negative, Negative)}
  {
    var f := Fun([ONE], [ONE]);
    var v := Fun([f], []);
    var env: Env := map[A := SealVar(A, Positive)];
    var inner: Env := map[A := SealVar(A, Negative)];
    var none: Env := map[];
    assert none[A := SealVar(A, Positive)] == env && env[A := SealVar(A, Negative)] == inner;
    assert Run(SHADOWED, none, Positive, NO_CONTRACTS, v) == Run(Arrow(INNER, Var(A)), env, Positive, NO_CONTRACTS, v);
    assert Run(INNER, env, Negative, NO_CONTRACTS, f) == Run(Arrow(Var(A), Var(A)), inner, Negative, NO_CONTRACTS, f);
    assert Run(Var(A), inner, Positive, NO_CONTRACTS, ONE) == RunVar(A, inner, Positive, ONE);
    assert Run(Var(A), inner, Negative, NO_CONTRACTS, ONE) == RunVar(A, inner, Negative, ONE);
    hide Run;
    RunOne(Var(A), inner, Positive, NO_CONTRACTS, ONE);
    RunOne(Var(A), inner, Negative, NO_CONTRACTS, ONE);
    RunArrow(Var(A), Var(A), inner, Negative, NO_CONTRACTS, f);
    RunOne(INNER, env, Negative, NO_CONTRACTS, f);
    RunArrow(INNER, Var(A), env, Positive, NO_CONTRACTS, v);
  }

  lemma ShadowedSimplified(next: nat)
    ensures Simplified(SHADOWED, next) == (Arrow(Forall(A, TypeKind, Arrow(Dyn, Dyn)), Dyn), State(map[], next))
  {
    var s := State(map[], next);
    var vars := SimplifyVars({A}, map[]);
    assert Elide(NO_VARS, A, TypeKind) == vars;
    assert SimplifyType(Arrow(Var(A), Var(A)), vars, Negative, s) == (Arrow(Dyn, Dyn), s);
    assert SimplifyType(INNER, vars, Negative, s) == (Forall(A, TypeKind, Arrow(Dyn, Dyn)), s);
  }

  const S := Name("s")

  /** `forall a. (forall r. {; r} -> {_ : a}) -> Number` */
  const TO_DICT: Type := Forall(R, RecordRowsKind({}), Arrow(Record(RVar(R)), Dict(Var(A), TypeFlavour)))
  const USES_DICT: Type := Forall(A, TypeKind, Arrow(TO_DICT, Number))
  const NOTHING := Fields(map[], NoTail)

  /** The empty record once it is sealed for `r`, as the context gets to see it. */
  const SEALED_NOTHING := Fields(map[], SealedTail(R, Negative, map[], NoTail))

  /**
   The context passes the identity, which gives a record with a sealed tail back as a dictionary: only
   the original contract notices, and blames the context.
   */
  lemma SkippedCheckWitness(next: nat)
    ensures WellKinded(USES_DICT, map[], Positive) && ShadowFree(USES_DICT, NO_VARS, Positive)
    ensures !DictsKept(USES_DICT, NO_VARS, Positive)
    ensures
      var v := Fun([Fun([NOTHING], [SEALED_NOTHING])], []);
      var (t', s) := Simplified(USES_DICT, next);
      && Run(USES_DICT, map[], Positive, NO_CONTRACTS, v).events == {Fail(Negative, Negative)}
      && Run(t', s.env, Positive, NO_CONTRACTS, Erase(v)).events == {}
  {
    var a: Env := map[A := SealVar(A, Positive)];
    var none: Env := map[];
    var v := Fun([Fun([NOTHING], [SEALED_NOTHING])], []);
    assert none[A := SealVar(A, Positive)] == a;
    assert Run(USES_DICT, none, Positive, NO_CONTRACTS, v) == Run(Arrow(TO_DICT, Number), a, Positive, NO_CONTRACTS, v);
    IdentityErased();
    ToDictRuns(a, Var(A));
    ToDictRuns(none, Dyn);
    UsesDictKinds();
    UsesDictSimplified(next);
    hide Run, Simplified;
    NoResults(TO_DICT, Number, a, Positive, v.args[0]);
    NoResults(ToDict(Dyn), Dyn, none, Positive, v.args[0]);
  }

  lemma IdentityErased()
    ensures Erase(Fun([Fun([NOTHING], [SEALED_NOTHING])], [])) == Fun([Fun([NOTHING], [SEALED_NOTHING])], [])
  {
    assert EraseTail(NoTail) == (map[], NoTail);
    assert EraseTail(SEALED_NOTHING.tail) == (map[], SEALED_NOTHING.tail);
    assert Erase(NOTHING) == NOTHING && Erase(SEALED_NOTHING) == SEALED_NOTHING;
    var f := Fun([NOTHING], [SEALED_NOTHING]);
    var v := Fun([f], []);
    assert Erase(f).args == [NOTHING] && Erase(f).results == [SEALED_NOTHING];
    assert Erase(v).args == [f] && Erase(v).results == [];
  }

  function ToDict(field: Type): Type {
    Forall(R, RecordRowsKind({}), Arrow(Record(RVar(R)), Dict(field, TypeFlavour)))
  }

  /** The identity under `forall r. {; r} -> {_ : field}`. */
  lemma ToDictRuns(env: Env, field: Type)
    ensures Run(ToDict(field), env, Negative, NO_CONTRACTS, Fun([NOTHING], [SEALED_NOTHING])).events ==
            if field.Dyn? then {} else {Fail(Negative, Negative)}
  {
    var r := env[R := SealTail(R, Negative, {})];
    var f := Fun([NOTHING], [SEALED_NOTHING]);
    var rec, dict := Record(RVar(R)), Dict(field, TypeFlavour);
    assert Run(ToDict(field), env, Negative, NO_CONTRACTS, f) == Run(Arrow(rec, dict), r, Negative, NO_CONTRACTS, f);
    assert Run(rec, r, Positive, NO_CONTRACTS, NOTHING).events == {} by {
      RunRecordType(RVar(R), r, Positive, NO_CONTRACTS, NOTHING);
    }
    RunDictType(field, TypeFlavour, r, Negative, NO_CONTRACTS, SEALED_NOTHING);
    hide Run;
    RunOne(rec, r, Positive, NO_CONTRACTS, NOTHING);
    RunOne(dict, r, Negative, NO_CONTRACTS, SEALED_NOTHING);
    RunArrow(rec, dict, r, Negative, NO_CONTRACTS, f);
  }

  lemma UsesDictKinds()
    ensures WellKinded(USES_DICT, map[], Positive) && ShadowFree(USES_DICT, NO_VARS, Positive)
    ensures !DictsKept(USES_DICT, NO_VARS, Positive)
  {
    assert Elide(NO_VARS, A, TypeKind) == SimplifyVars({A}, map[]);
    assert !DictsKept(Dict(Var(A), TypeFlavour), SimplifyVars({A}, map[]), Negative);
    assert !DictsKept(TO_DICT, SimplifyVars({A}, map[]), Negative);
    assert R != A;
  }

  lemma UsesDictSimplified(next: nat)
    ensures Simplified(USES_DICT, next) == (Arrow(ToDict(Dyn), Dyn), State(map[], next))
  {
    var s := State(map[], next);
    var vars := SimplifyVars({A}, map[]);
    assert Elide(NO_VARS, A, TypeKind) == vars;
    assert SimplifyType(Record(RVar(R)), vars, Positive, s) == (Record(RVar(R)), s);
    assert SimplifyType(Dict(Var(A), TypeFlavour), vars, Negative, s) == (Dict(Dyn, TypeFlavour), s);
    assert SimplifyType(TO_DICT, vars, Negative, s) == (ToDict(Dyn), s);
  }

  /** `(forall r. {; r} -> {; Dyn}) -> {_ : Number}` */
  const OPENS: Type := Forall(R, RecordRowsKind({}), Arrow(Record(RVar(R)), Record(RDyn)))
  const GIVES_DICT: Type := Arrow(OPENS, Dict(Number, TypeFlavour))

  /**
   `fun f => f {}`, with the identity for `f`: the record that comes back is sealed for the context, and
   is returned as a dictionary of numbers. The original contract maps over it and blames the context; the
   simplified one has no check left on the result. The type meets every condition of `BlamePreserved`.
   */
  lemma VanishedCheckWitness(next: nat)
    ensures WellKinded(GIVES_DICT, map[], Positive) && ShadowFree(GIVES_DICT, NO_VARS, Positive)
    ensures Preserving(GIVES_DICT)
    ensures
      var v := Fun([Fun([NOTHING], [SEALED_NOTHING])], [SEALED_NOTHING]);
      var (t', s) := Simplified(GIVES_DICT, next);
      && Run(GIVES_DICT, map[], Positive, NO_CONTRACTS, v).events == {ON_SEAL}
      && Run(t', s.env, Positive, NO_CONTRACTS, Erase(v)).events == {}
  {
    GivesDictKinds();
    GivesDictSimplified(next);
    ResultErased();
    OpensRuns();
    var none: Env := map[];
    var f := Fun([NOTHING], [SEALED_NOTHING]);
    RunDictType(Number, TypeFlavour, none, Positive, NO_CONTRACTS, SEALED_NOTHING);
    RunDyn(none, Positive, NO_CONTRACTS, SEALED_NOTHING);
    hide Run, Simplified, Erase, WellKinded, ShadowFree, Preserving;
    OneCall(OPENS, Dict(Number, TypeFlavour), none, Positive, f, SEALED_NOTHING);
    OneCall(OPENS, Dyn, none, Positive, f, SEALED_NOTHING);
  }

  lemma ResultErased()
    ensures
      var v := Fun([Fun([NOTHING], [SEALED_NOTHING])], [SEALED_NOTHING]);
      Erase(v) == v
  {
    IdentityErased();
    var v := Fun([Fun([NOTHING], [SEALED_NOTHING])], [SEALED_NOTHING]);
    assert Erase(v).args == Erase(Fun(v.args, [])).args;
    assert EraseTail(SEALED_NOTHING.tail) == (map[], SEALED_NOTHING.tail);
    assert Erase(v).results == [Erase(SEALED_NOTHING)] == [SEALED_NOTHING];
  }

  /** The open record type lets the sealed tail through. */
  lemma OpensRuns()
    ensures Run(OPENS, map[], Negative, NO_CONTRACTS, Fun([NOTHING], [SEALED_NOTHING])).events == {}
  {
    var none: Env := map[];
    var r := none[R := SealTail(R, Negative, {})];
    var f := Fun([NOTHING], [SEALED_NOTHING]);
    assert Run(OPENS, none, Negative, NO_CONTRACTS, f) ==
           Run(Arrow(Record(RVar(R)), Record(RDyn)), r, Negative, NO_CONTRACTS, f);
    RunRecordType(RVar(R), r, Positive, NO_CONTRACTS, NOTHING);
    RunRecordType(RDyn, r, Negative, NO_CONTRACTS, SEALED_NOTHING);
    hide Run;
    OneCall(Record(RVar(R)), Record(RDyn), r, Negative, NOTHING, SEALED_NOTHING);
  }

  lemma GivesDictKinds()
    ensures WellKinded(GIVES_DICT, map[], Positive) && ShadowFree(GIVES_DICT, NO_VARS, Positive)
    ensures Preserving(GIVES_DICT)
  {
    var none: Env := map[];
    var r := none[R := SealTail(R, Negative, {})];
    assert WellKinded(Record(RVar(R)), r, Positive) && WellKinded(Record(RDyn), r, Negative);
    assert WellKinded(OPENS, none, Negative);
    assert DictsKept(OPENS, NO_VARS, Negative) && SealsCovered(OPENS, none, Negative);
    assert ShadowFree(OPENS, NO_VARS, Negative);
  }

  lemma GivesDictSimplified(next: nat)
    ensures Simplified(GIVES_DICT, next) == (Arrow(OPENS, Dyn), State(map[], next))
  {
    var s := State(map[], next);
    assert SimplifyType(Record(RVar(R)), NO_VARS, Positive, s) == (Record(RVar(R)), s);
    assert SimplifyType(Record(RDyn), NO_VARS, Negative, s) == (Record(RDyn), s);
    assert SimplifyType(OPENS, NO_VARS, Negative, s) == (OPENS, s);
    assert SimplifyType(Dict(Number, TypeFlavour), NO_VARS, Positive, s) == (Dyn, s);
  }

  // Sealing over a seal

  /** `forall r. (forall s. {; s} -> {; s}) -> {; r} -> {; r}` */
  const THROUGH: Type :=
    Forall(R, RecordRowsKind({}), Arrow(Forall(S, RecordRowsKind({}), Arrow(Record(RVar(S)), Record(RVar(S)))),
                                        Arrow(Record(RVar(R)), Record(RVar(R)))))

  const HIDDEN := SealedTail(R, Positive, map[OTHER := ONE], NoTail)

  /**
   `fun f x => f x`, with the identity for `f`: the tail of `x`, sealed for the term, is sealed over
   when it is passed to `f`. Nobody is blamed and nothing escapes.
   */
  lemma SealedOver()
    ensures
      var x, over := Fields(map[], HIDDEN), Fields(map[], SealedTail(S, Negative, map[], HIDDEN));
      Run(THROUGH, map[], Positive, NO_CONTRACTS, Fun([Fun([x], [over])], [Fun([OTHER_ONLY], [x])])).events == {}
  {
    var x, over := Fields(map[], HIDDEN), Fields(map[], SealedTail(S, Negative, map[], HIDDEN));
    var none: Env := map[];
    var r := none[R := SealTail(R, Positive, {})];
    var rs := r[S := SealTail(S, Negative, {})];
    var recR, recS := Record(RVar(R)), Record(RVar(S));
    var f, g := Fun([x], [over]), Fun([OTHER_ONLY], [x]);
    var v := Fun([f], [g]);
    assert R != S;
    assert Run(THROUGH, none, Positive, NO_CONTRACTS, v) ==
           Run(Arrow(Forall(S, RecordRowsKind({}), Arrow(recS, recS)), Arrow(recR, recR)), r, Positive, NO_CONTRACTS,
               v);
    assert Run(Forall(S, RecordRowsKind({}), Arrow(recS, recS)), r, Negative, NO_CONTRACTS, f) ==
           Run(Arrow(recS, recS), rs, Negative, NO_CONTRACTS, f);
    TailOnly(S, rs, Positive, x);
    TailOnly(S, rs, Negative, over);
    TailOnly(R, r, Negative, OTHER_ONLY);
    TailOnly(R, r, Positive, x);
    hide Run;
    OneCall(recS, recS, rs, Negative, x, over);
    OneCall(recR, recR, r, Positive, OTHER_ONLY, x);
    RunOne(Forall(S, RecordRowsKind({}), Arrow(recS, recS)), r, Negative, NO_CONTRACTS, f);
    RunOne(Arrow(recR, recR), r, Positive, NO_CONTRACTS, g);
    RunArrow(Forall(S, RecordRowsKind({}), Arrow(recS, recS)), Arrow(recR, recR), r, Positive, NO_CONTRACTS, v);
  }

  lemma OneCall(dom: Type, codom: Type, env: Env, pol: Polarity, arg: Value, result: Value)
    ensures Run(Arrow(dom, codom), env, pol, NO_CONTRACTS, Fun([arg], [result])).events ==
            Run(dom, env, pol.Flip(), NO_CONTRACTS, arg).events + Run(codom, env, pol, NO_CONTRACTS, result).events
  {
    hide Run;
    RunArrow(dom, codom, env, pol, NO_CONTRACTS, Fun([arg], [result]));
    RunOne(dom, env, pol.Flip(), NO_CONTRACTS, arg);
    RunOne(codom, env, pol, NO_CONTRACTS, result);
  }

  /** The record type that has only a tail meets nothing if the tail lets the record through. */
  lemma TailOnly(x: Ident, env: Env, pol: Polarity, v: Value)
    requires v.Fields? && x in env && env[x].SealTail? && SealingPasses(env[x], {}, pol, v)
    ensures Run(Record(RVar(x)), env, pol, NO_CONTRACTS, v).events == {}
  {
    RunRecordType(RVar(x), env, pol, NO_CONTRACTS, v);
  }

  // A refusal that the original contract does not know

  const FOO := Name("foo")

  const FOO_ROWS := RExtend(FOO, Number, RVar(S))
  const ADDS: Type := Arrow(Record(RVar(S)), Record(FOO_ROWS))
  const ADDS_FOO: Type := Forall(S, RecordRowsKind({FOO}), ADDS)
  const PASSES: Type := Arrow(ADDS_FOO, Arrow(Record(RVar(R)), Number))

  /** `forall r. (forall s. {; s} -> {foo : Number; s}) -> {; r} -> Number` */
  const PASS_ON: Type := Forall(R, RecordRowsKind({}), PASSES)

  const HAS_FOO := Fields(map[FOO := ONE], NoTail)
  const HIDES_FOO := Fields(map[], SealedTail(R, Positive, map[FOO := ONE], NoTail))

  /** `fun f x => (f x).foo` is called on `{foo = 1}`, and calls `f`. */
  const PASSED_ON := Fun([Fun([HIDES_FOO], [])], [Fun([HAS_FOO], [])])

  /**
   The record passed to `f` hides `foo`, which `s` excludes. The original contract seals it over and meets
   nothing. Under the simplified one `foo` is visible, the record is refused and the term is blamed.
   */
  lemma NewRefusalWitness(next: nat)
    ensures WellKinded(PASS_ON, map[], Positive) && ShadowFree(PASS_ON, NO_VARS, Positive)
    ensures DictsKept(PASS_ON, NO_VARS, Positive) && !SealsCovered(PASS_ON, map[], Positive)
    ensures
      var (t', s) := Simplified(PASS_ON, next);
      && Run(PASS_ON, map[], Positive, NO_CONTRACTS, PASSED_ON).events == {}
      && Run(t', s.env, Positive, NO_CONTRACTS, Erase(PASSED_ON)).events == {Fail(Positive, Positive)}
  {
    hide Run, Simplified, SimplifyType, WellKinded, ShadowFree, DictsKept, SealsCovered, Erase;
    PassOnKinds();
    PassOnOriginal();
    PassOnSimplified(next);
    PassOnAgain();
  }

  lemma PassOnKinds()
    ensures WellKinded(PASS_ON, map[], Positive) && ShadowFree(PASS_ON, NO_VARS, Positive)
    ensures DictsKept(PASS_ON, NO_VARS, Positive) && !SealsCovered(PASS_ON, map[], Positive)
  {
    PassOnWellKinded();
    PassOnShadowFree();
    PassOnUncovered();
  }

  lemma PassOnWellKinded()
    ensures WellKinded(PASS_ON, map[], Positive)
  {
    var none: Env := map[];
    var r := none[R := SealTail(R, Positive, {})];
    var rs := r[S := SealTail(S, Negative, {FOO})];
    assert WellKindedRecord(RVar(S), rs, Negative) && WellKindedRecord(FOO_ROWS, rs, Negative);
    assert DistinctRows(RVar(S)) && DistinctRows(FOO_ROWS);
    assert WellKinded(Record(RVar(S)), rs, Positive) && WellKinded(Record(FOO_ROWS), rs, Negative);
    assert WellKinded(ADDS, rs, Negative);
    assert WellKinded(ADDS_FOO, r, Negative);
    assert WellKinded(Arrow(Record(RVar(R)), Number), r, Positive);
    assert WellKinded(PASSES, r, Positive);
  }

  lemma PassOnShadowFree()
    ensures ShadowFree(PASS_ON, NO_VARS, Positive) && DictsKept(PASS_ON, NO_VARS, Positive)
  {
    var vars := SimplifyVars({}, map[R := {}]);
    assert Elide(NO_VARS, R, RecordRowsKind({})) == vars && R != S;
    assert ShadowFreeRecord(FOO_ROWS, vars, Negative) && DictsKeptRecord(FOO_ROWS, vars, Negative);
    assert ShadowFree(ADDS, vars, Negative) && DictsKept(ADDS, vars, Negative);
    assert ShadowFree(ADDS_FOO, vars, Negative) && DictsKept(ADDS_FOO, vars, Negative);
    assert ShadowFree(Arrow(Record(RVar(R)), Number), vars, Positive)
           && DictsKept(Arrow(Record(RVar(R)), Number), vars, Positive);
    assert ShadowFree(PASSES, vars, Positive) && DictsKept(PASSES, vars, Positive);
  }

  lemma PassOnUncovered()
    ensures !SealsCovered(PASS_ON, map[], Positive)
  {
    var none: Env := map[];
    var r := none[R := SealTail(R, Positive, {})];
    var rs := r[S := SealTail(S, Negative, {FOO})];
    assert FOO in rs[S].excluded && FOO !in Declared(RVar(S));
    assert !CoversTail(RVar(S), rs, Positive);
    assert !SealsCovered(Record(RVar(S)), rs, Positive);
    assert !SealsCovered(ADDS, rs, Negative);
    assert !SealsCovered(ADDS_FOO, r, Negative);
    assert !SealsCovered(PASSES, r, Positive);
  }

  lemma PassOnOriginal()
    ensures Run(PASS_ON, map[], Positive, NO_CONTRACTS, PASSED_ON).events == {}
  {
    var none: Env := map[];
    var r := none[R := SealTail(R, Positive, {})];
    var rs := r[S := SealTail(S, Negative, {FOO})];
    var f, g := Fun([HIDES_FOO], []), Fun([HAS_FOO], []);
    var results := Record(FOO_ROWS);
    assert R != S;
    assert Run(PASS_ON, none, Positive, NO_CONTRACTS, PASSED_ON) ==
           Run(Arrow(ADDS_FOO, Arrow(Record(RVar(R)), Number)), r, Positive, NO_CONTRACTS, PASSED_ON);
    assert Run(ADDS_FOO, r, Negative, NO_CONTRACTS, f) ==
           Run(Arrow(Record(RVar(S)), results), rs, Negative, NO_CONTRACTS, f);
    TailOnly(S, rs, Positive, HIDES_FOO);
    TailOnly(R, r, Negative, HAS_FOO);
    hide Run;
    NoResults(Record(RVar(S)), results, rs, Negative, HIDES_FOO);
    NoResults(Record(RVar(R)), Number, r, Positive, HAS_FOO);
    OneCall(ADDS_FOO, Arrow(Record(RVar(R)), Number), r, Positive, f, g);
  }

  lemma NoResults(dom: Type, codom: Type, env: Env, pol: Polarity, arg: Value)
    ensures Run(Arrow(dom, codom), env, pol, NO_CONTRACTS, Fun([arg], [])).events ==
            Run(dom, env, pol.Flip(), NO_CONTRACTS, arg).events
  {
    hide Run;
    RunArrow(dom, codom, env, pol, NO_CONTRACTS, Fun([arg], []));
    RunOne(dom, env, pol.Flip(), NO_CONTRACTS, arg);
  }

  const R_REMOVED := SimplifyVars({}, map[R := {}])

  lemma AddsSimplified(s: State)
    ensures SimplifyType(ADDS_FOO, R_REMOVED, Negative, s) == (ADDS_FOO, s)
  {
    assert R != S;
    assert SimplifyType(Record(RVar(S)), R_REMOVED, Positive, s) == (Record(RVar(S)), s);
    FooSimplified(s);
    hide SimplifyRecord;
    assert SimplifyType(ADDS, R_REMOVED, Negative, s) == (ADDS, s);
  }

  lemma FooSimplified(s: State)
    ensures SimplifyType(Record(FOO_ROWS), R_REMOVED, Negative, s) == (Record(FOO_ROWS), s)
  {
    assert R != S;
    assert SimplifyRecord(RVar(S), R_REMOVED, Negative, s, {FOO}, false) == (RVar(S), s);
    assert Declared(FOO_ROWS) == {FOO} && !CanElide(FOO_ROWS, R_REMOVED);
    assert SimplifyRecord(FOO_ROWS, R_REMOVED, Negative, s, {FOO}, false) == (FOO_ROWS, s);
  }

  lemma RestSimplified(s: State)
    ensures SimplifyType(Arrow(Record(RVar(R)), Number), R_REMOVED, Positive, s) == (Arrow(Record(RDyn), Dyn), s)
  {
    assert SimplifyTailVar(R, R_REMOVED, Negative, s, {}) == (RDyn, s);
    assert SimplifyType(Record(RVar(R)), R_REMOVED, Negative, s) == (Record(RDyn), s);
  }

  lemma PassOnSimplified(next: nat)
    ensures Simplified(PASS_ON, next) == (Arrow(ADDS_FOO, Arrow(Record(RDyn), Dyn)), State(map[], next))
  {
    var s := State(map[], next);
    assert Elide(NO_VARS, R, RecordRowsKind({})) == R_REMOVED;
    assert SimplifyType(PASS_ON, NO_VARS, Positive, s) == SimplifyType(PASSES, R_REMOVED, Positive, s);
    hide SimplifyType;
    AddsSimplified(s);
    RestSimplified(s);
    ArrowSimplifies(ADDS_FOO, Arrow(Record(RVar(R)), Number), R_REMOVED, Positive, s);
  }

  lemma PassedOnErased()
    ensures Erase(PASSED_ON) == Fun([Fun([HAS_FOO], [])], [Fun([HAS_FOO], [])])
  {
    assert Erase(ONE) == ONE;
    assert Erase(HAS_FOO).fields == map[FOO := ONE] && Erase(HAS_FOO).tail == NoTail;
    assert EraseTail(NoTail) == (map[], NoTail);
    assert EraseTail(HIDES_FOO.tail).0 == map[FOO := ONE] && EraseTail(HIDES_FOO.tail).1 == NoTail;
    assert Erase(HIDES_FOO).fields == map[FOO := ONE] && Erase(HIDES_FOO).tail == NoTail;
    var f, g := Fun([HIDES_FOO], []), Fun([HAS_FOO], []);
    assert Erase(f).args == [HAS_FOO] && Erase(f).results == [];
    assert Erase(g).args == [HAS_FOO] && Erase(g).results == [];
    assert Erase(PASSED_ON).args == [Erase(f)] && Erase(PASSED_ON).results == [Erase(g)];
  }

  lemma PassOnAgain()
    ensures Run(Arrow(ADDS_FOO, Arrow(Record(RDyn), Dyn)), map[], Positive, NO_CONTRACTS, Erase(PASSED_ON)).events ==
            {Fail(Positive, Positive)}
  {
    PassedOnErased();
    var none: Env := map[];
    var s := none[S := SealTail(S, Negative, {FOO})];
    var f := Fun([HAS_FOO], []);
    var results := Record(FOO_ROWS);
    assert Run(ADDS_FOO, none, Negative, NO_CONTRACTS, f) ==
           Run(Arrow(Record(RVar(S)), results), s, Negative, NO_CONTRACTS, f);
    assert FOO in (HAS_FOO.fields.Keys - {}) * s[S].excluded;
    RunRecordType(RVar(S), s, Positive, NO_CONTRACTS, HAS_FOO);
    RunRecordType(RDyn, none, Negative, NO_CONTRACTS, HAS_FOO);
    hide Run, Erase;
    NoResults(Record(RVar(S)), results, s, Negative, HAS_FOO);
    NoResults(Record(RDyn), Dyn, none, Positive, HAS_FOO);
    OneCall(ADDS_FOO, Arrow(Record(RDyn), Dyn), none, Positive, f, f);
  }

  const HIDES_META := Fields(map[], SealedTail(R, Positive, map[META := ONE], NoTail))
  const HAS_META := Fields(map[META := ONE], NoTail)

  /**
   The context hands over a record in which `meta` is hidden by a seal made for the term: only the
   simplified contract refuses it.
   */
  lemma HandedOverWitness(next: nat)
    ensures
      var v := Fun([HIDES_META], []);
      var (t', s) := Simplified(INJECT_META, next);
      && Run(INJECT_META, map[], Positive, NO_CONTRACTS, v).events == {}
      && Run(t', s.env, Positive, NO_CONTRACTS, Erase(v)).events == {Fail(Negative, Negative)}
  {
    hide Run, Simplified, Erase;
    InjectMetaSimplified(next);
    HandedOverOriginal();
    HandedOverErased();
    HandedOverSimplified(Generated(next));
  }

  lemma HandedOverOriginal()
    ensures Run(INJECT_META, map[], Positive, NO_CONTRACTS, Fun([HIDES_META], [])).events == {}
  {
    var none: Env := map[];
    var r := none[R := SealTail(R, Positive, {META})];
    var codom := Record(RExtend(META, String, RVar(R)));
    var v := Fun([HIDES_META], []);
    assert Run(INJECT_META, none, Positive, NO_CONTRACTS, v) ==
           Run(Arrow(Record(RVar(R)), codom), r, Positive, NO_CONTRACTS, v);
    TailOnly(R, r, Negative, HIDES_META);
    hide Run;
    NoResults(Record(RVar(R)), codom, r, Positive, HIDES_META);
  }

  lemma HandedOverErased()
    ensures Erase(Fun([HIDES_META], [])) == Fun([HAS_META], [])
  {
    assert Erase(ONE) == ONE && EraseTail(NoTail) == (map[], NoTail);
    assert EraseTail(HIDES_META.tail).0 == map[META := ONE] && EraseTail(HIDES_META.tail).1 == NoTail;
    assert Erase(HIDES_META).fields == map[META := ONE] && Erase(HIDES_META).tail == NoTail;
    var v := Fun([HIDES_META], []);
    assert Erase(v).args == [HAS_META] && Erase(v).results == [];
  }

  lemma HandedOverSimplified(x: Ident)
    ensures Run(Arrow(Record(RVar(x)), Dyn), map[x := ExcludedOnly({META})], Positive, NO_CONTRACTS,
                Fun([HAS_META], [])).events == {Fail(Negative, Negative)}
  {
    var env: Env := map[x := ExcludedOnly({META})];
    assert META in (HAS_META.fields.Keys - {}) * {META};
    RunRecordType(RVar(x), env, Negative, NO_CONTRACTS, HAS_META);
    hide Run;
    NoResults(Record(RVar(x)), Dyn, env, Positive, HAS_META);
  }
}
