/** What simplifying the contract of a statically typed term keeps, and exactly what it loses. */
module BlamePreservation {
  import opened Types
  import opened Blame
  import opened Simplify
  import opened FreshTails
  import opened Hazards
  import opened Agreement

  // Relating the two runs

  /** How the variables of the original type are bound while its simplified form runs. */
  ghost predicate Related(env: Env, env': Env, vars: SimplifyVars) {
    forall x <- env ::
      && x.Name?
      && match env[x]
         case SealVar(_, pol) =>
           if x in vars.types then pol.Positive? else pol.Negative? && x in env' && env'[x] == env[x]
         case SealTail(_, pol, excluded) =>
           if x in vars.rows then pol.Positive? && vars.rows[x] == excluded
           else pol.Negative? && x in env' && env'[x] == env[x]
         case EnumTail => x in env' && env'[x] == env[x]
         case ExcludedOnly(_) => false
  }

  /** The two runs compared: original and simplified environments, and the variables removed so far. */
  datatype Runs = Runs(env: Env, env': Env, vars: SimplifyVars, ci: Embedded)

  ghost predicate Comparable(t: Type, r: Runs, pol: Polarity, s: State) {
    && SealBlind(r.ci) && Related(r.env, r.env', r.vars)
    && WellKinded(t, r.env, pol) && ShadowFree(t, r.vars, pol)
    && Provides(r.env', s, SimplifyType(t, r.vars, pol, s).1)
  }

  /** On `v`, the simplified type does what the original does, apart from what `v` meets. */
  ghost predicate Preserved(t: Type, r: Runs, pol: Polarity, s: State, v: Value) {
    TermSafe(Run(t, r.env, pol, r.ci, v).events) ==>
      Agrees(Run(t, r.env, pol, r.ci, v), Run(SimplifyType(t, r.vars, pol, s).0, r.env', pol, r.ci, Erase(v)),
             Met(t, r.env, r.vars, pol, r.ci, v))
  }

  lemma {:induction false} PreservesType(t: Type, r: Runs, pol: Polarity, s: State, v: Value)
    requires Comparable(t, r, pol, s)
    ensures Preserved(t, r, pol, s, v)
    decreases t
  {
    hide Run, SimplifyType, Met;
    match t
    case Arrow(dom, codom) =>
      var s1 := SimplifyType(dom, r.vars, pol.Flip(), s).1;
      ArrowParts(dom, codom, r, pol, s);
      forall a: Value ensures Preserved(dom, r, pol.Flip(), s, a) && Preserved(codom, r, pol, s1, a) {
        PreservesType(dom, r, pol.Flip(), s, a);
        PreservesType(codom, r, pol, s1, a);
      }
      ArrowStep(dom, codom, r, pol, s, v);
    case Forall(x, kind, body) =>
      var r1 := Under(x, kind, r, pol);
      ForallParts(x, kind, body, r, pol, s);
      PreservesType(body, r1, pol, s, v);
      ForallStep(x, kind, body, r, pol, s, v);
    case Array(elem) =>
      ArrayParts(elem, r, pol, s);
      forall a: Value ensures Preserved(elem, r, pol, s, a) { PreservesType(elem, r, pol, s, a); }
      ArrayStep(elem, r, pol, s, v);
    case Dict(field, flavour) =>
      DictParts(field, flavour, r, pol, s);
      forall a: Value ensures Preserved(field, r, pol, s, a) { PreservesType(field, r, pol, s, a); }
      DictStep(field, flavour, r, pol, s, v);
    case Record(rows) =>
      if v.Fields? && Declared(rows) <= v.fields.Keys && TermSafe(Run(t, r.env, pol, r.ci, v).events) {
        RecordParts(rows, r, pol, s, v);
        if TermSafe(RunFields(rows, r.env, pol, r.ci, v.fields).events) {
          PreservesFields(rows, r, pol, s, Declared(rows), CanElide(rows, r.vars), v.fields, Erase(v).fields);
        }
      }
      RecordStep(rows, r, pol, s, v);
    case Enum(rows) =>
      EnumParts(rows, r, pol, s);
      RunEnumType(rows, r.env, pol, r.ci, v);
      if (v.Tag? || v.Variant?) && TermSafe(Run(t, r.env, pol, r.ci, v).events) {
        PreservesEnum(rows, r, pol, s, v);
      }
      EnumStep(rows, r, pol, s, v);
    case _ => LeafStep(t, r, pol, s, v);
  }

  /** The runs of the body of a quantifier. */
  ghost function Under(x: Ident, kind: VarKind, r: Runs, pol: Polarity): Runs {
    var env := r.env[x := Bind(x, kind, pol)];
    if Elided(kind, pol) then Runs(env, r.env', Elide(r.vars, x, kind), r.ci)
    else Runs(env, r.env'[x := Bind(x, kind, pol)], r.vars, r.ci)
  }

  lemma ArrowParts(dom: Type, codom: Type, r: Runs, pol: Polarity, s: State)
    requires Comparable(Arrow(dom, codom), r, pol, s)
    ensures Comparable(dom, r, pol.Flip(), s)
    ensures Comparable(codom, r, pol, SimplifyType(dom, r.vars, pol.Flip(), s).1)
  {
    SimplifyGrows(dom, r.vars, pol.Flip(), s);
    SimplifyGrows(codom, r.vars, pol, SimplifyType(dom, r.vars, pol.Flip(), s).1);
  }

  lemma ForallParts(x: Ident, kind: VarKind, body: Type, r: Runs, pol: Polarity, s: State)
    requires Comparable(Forall(x, kind, body), r, pol, s)
    ensures Comparable(body, Under(x, kind, r, pol), pol, s)
  {
  }

  lemma ForallStep(x: Ident, kind: VarKind, body: Type, r: Runs, pol: Polarity, s: State, v: Value)
    requires Preserved(body, Under(x, kind, r, pol), pol, s, v)
    ensures Preserved(Forall(x, kind, body), r, pol, s, v)
  {
  }

  lemma ArrayParts(elem: Type, r: Runs, pol: Polarity, s: State)
    requires Comparable(Array(elem), r, pol, s)
    ensures Comparable(elem, r, pol, s)
  {
  }

  lemma DictParts(field: Type, flavour: DictFlavour, r: Runs, pol: Polarity, s: State)
    requires Comparable(Dict(field, flavour), r, pol, s)
    ensures Comparable(field, r, pol, s)
  {
  }

  /** A type without parts: what it does, meets and becomes is read off its definition. */
  lemma LeafUnfolds(t: Type, r: Runs, pol: Polarity, s: State, v: Value)
    requires !t.Arrow? && !t.Forall? && !t.Array? && !t.Dict? && !t.Record? && !t.Enum?
    ensures Met(t, r.env, r.vars, pol, r.ci, v) ==
            if IsGround(t) && !t.Symbol? && pol.Positive? && v.Sealed? && v.pol.Negative? then {SkippedCheck(Positive)}
            else {}
    ensures SimplifyType(t, r.vars, pol, s).0 ==
            if (t.Var? && t.id in r.vars.types) || (pol.Positive? && IsGround(t)) then Dyn else t
  {
  }

  lemma LeafFacts(t: Type, r: Runs, pol: Polarity, s: State)
    requires Comparable(t, r, pol, s)
    ensures SealBlind(r.ci) && Related(r.env, r.env', r.vars) && (t.Var? ==> t.id in r.env && r.env[t.id].SealVar?)
  {
    hide SealBlind, Related, Provides, SimplifyType;
  }

  lemma EmbeddedStep(c: nat, r: Runs, pol: Polarity, v: Value)
    requires SealBlind(r.ci) && TermSafe(r.ci(c, pol, v).events)
    ensures Agrees(r.ci(c, pol, v), r.ci(c, pol, Erase(v)), {})
  {
    hide Erase;
  }

  lemma LeafStep(t: Type, r: Runs, pol: Polarity, s: State, v: Value)
    requires Comparable(t, r, pol, s)
    requires !t.Arrow? && !t.Forall? && !t.Array? && !t.Dict? && !t.Record? && !t.Enum?
    ensures Preserved(t, r, pol, s, v)
  {
    hide Comparable, SealBlind, Related, Met, SimplifyType, Erase, RunGround, RunVar;
    LeafUnfolds(t, r, pol, s, v);
    LeafFacts(t, r, pol, s);
    if !TermSafe(Run(t, r.env, pol, r.ci, v).events) { return; }
    match t
    case Number => GroundStep(NumberGround, pol, v);
    case Bool => GroundStep(BoolGround, pol, v);
    case String => GroundStep(StringGround, pol, v);
    case ForeignId => GroundStep(ForeignGround, pol, v);
    case Contract(c) => EmbeddedStep(c, r, pol, v);
    case Var(id) => VarStep(id, r, pol, v);
    case _ =>
  }

  lemma VarStep(id: Ident, r: Runs, pol: Polarity, v: Value)
    requires Related(r.env, r.env', r.vars) && id in r.env && r.env[id].SealVar?
    requires TermSafe(RunVar(id, r.env, pol, v).events)
    ensures Agrees(RunVar(id, r.env, pol, v),
                   if id in r.vars.types then Pass(Erase(v)) else RunVar(id, r.env', pol, Erase(v)), {})
  {
    var o := RunVar(id, r.env, pol, v);
    assert Escape !in o.events && Fail(Positive, Positive) !in o.events;
  }

  lemma ArrowUnfolds(dom: Type, codom: Type, r: Runs, pol: Polarity, s: State, v: Value)
    ensures
      var (dom', s1) := SimplifyType(dom, r.vars, pol.Flip(), s);
      SimplifyType(Arrow(dom, codom), r.vars, pol, s).0 == Arrow(dom', SimplifyType(codom, r.vars, pol, s1).0)
    ensures Met(Arrow(dom, codom), r.env, r.vars, pol, r.ci, v) ==
            if !v.Fun? then {} else
            MetAll(dom, r.env, r.vars, pol.Flip(), r.ci, v.args) + MetAll(codom, r.env, r.vars, pol, r.ci, v.results)
  {
  }

  lemma ArrowStep(dom: Type, codom: Type, r: Runs, pol: Polarity, s: State, v: Value)
    requires forall a: Value :: Preserved(dom, r, pol.Flip(), s, a)
    requires forall a: Value :: Preserved(codom, r, pol, SimplifyType(dom, r.vars, pol.Flip(), s).1, a)
    ensures Preserved(Arrow(dom, codom), r, pol, s, v)
  {
    hide Run, SimplifyType, Met, RunAll, MetAll, Gained, Lost, Agrees, AgreeAll;
    var (dom', s1) := SimplifyType(dom, r.vars, pol.Flip(), s);
    var codom' := SimplifyType(codom, r.vars, pol, s1).0;
    ArrowUnfolds(dom, codom, r, pol, s, v);
    RunArrow(dom, codom, r.env, pol, r.ci, v);
    RunArrow(dom', codom', r.env', pol, r.ci, Erase(v));
    if TermSafe(Run(Arrow(dom, codom), r.env, pol, r.ci, v).events) {
      if v.Fun? {
        PreservesAll(dom, r, pol.Flip(), s, v.args);
        PreservesAll(codom, r, pol, s1, v.results);
        assert Erase(v) == Fun(EraseAll(v.args), EraseAll(v.results));
        CallAgrees(RunAll(dom, r.env, pol.Flip(), r.ci, v.args),
                   RunAll(dom', r.env', pol.Flip(), r.ci, EraseAll(v.args)),
                   MetAll(dom, r.env, r.vars, pol.Flip(), r.ci, v.args),
                   RunAll(codom, r.env, pol, r.ci, v.results),
                   RunAll(codom', r.env', pol, r.ci, EraseAll(v.results)),
                   MetAll(codom, r.env, r.vars, pol, r.ci, v.results));
      } else {
        WrongShapeAgrees(pol, v);
      }
    }
  }

  /** The arguments and the results of a function, put together. */
  lemma CallAgrees(args: Outcomes, args': Outcomes, h: set<Hazard>, results: Outcomes, results': Outcomes,
                   hs: set<Hazard>)
    requires AgreeAll(args, args', h) && AgreeAll(results, results', hs)
    ensures Agrees(Outcome(Fun(args.outs, results.outs), args.events + results.events),
                   Outcome(Fun(args'.outs, results'.outs), args'.events + results'.events), h + hs)
  {
    hide Gained, Lost;
    TwoHazards(h, hs);
    assert args.events + results.events + (Gained(h) + Gained(hs)) ==
           args'.events + results'.events + (Lost(h) + Lost(hs));
    assert Erase(Fun(args.outs, results.outs)) == Fun(EraseAll(args.outs), EraseAll(results.outs));
  }

  lemma ArrayUnfolds(elem: Type, r: Runs, pol: Polarity, s: State, v: Value)
    ensures
      var elem' := SimplifyType(elem, r.vars, pol, s).0;
      SimplifyType(Array(elem), r.vars, pol, s).0 == if pol.Positive? && elem'.Dyn? then Dyn else Array(elem')
    ensures Met(Array(elem), r.env, r.vars, pol, r.ci, v) ==
            if v.Elems? then MetAll(elem, r.env, r.vars, pol, r.ci, v.elems) else MetShape(Array(elem), r.vars, pol, v)
    ensures BecomesDyn(Array(elem), r.vars) == BecomesDyn(elem, r.vars)
  {
  }

  lemma ArrayStep(elem: Type, r: Runs, pol: Polarity, s: State, v: Value)
    requires forall a: Value :: Preserved(elem, r, pol, s, a)
    ensures Preserved(Array(elem), r, pol, s, v)
  {
    hide Run, SimplifyType, Met, BecomesDyn, MetShape;
    var elem' := SimplifyType(elem, r.vars, pol, s).0;
    ArrayUnfolds(elem, r, pol, s, v);
    BecomesDynExactly(elem, r.vars, s);
    RunDyn(r.env', pol, r.ci, Erase(v));
    RunArray(elem, r.env, pol, r.ci, v);
    RunArray(elem', r.env', pol, r.ci, Erase(v));
    if TermSafe(Run(Array(elem), r.env, pol, r.ci, v).events) {
      if v.Elems? {
        PreservesAll(elem, r, pol, s, v.elems);
        assert Erase(v) == Elems(EraseAll(v.elems));
        DynAll(r.env', pol, r.ci, EraseAll(v.elems));
      } else {
        WrongShapeAgrees(pol, v);
        ShapeAgrees(Array(elem), r.vars, pol, v);
      }
    }
  }

  lemma {:induction false} PreservesAll(t: Type, r: Runs, pol: Polarity, s: State, vs: seq<Value>)
    requires forall a: Value :: Preserved(t, r, pol, s, a)
    requires TermSafe(RunAll(t, r.env, pol, r.ci, vs).events)
    ensures AgreeAll(RunAll(t, r.env, pol, r.ci, vs),
                     RunAll(SimplifyType(t, r.vars, pol, s).0, r.env', pol, r.ci, EraseAll(vs)),
                     MetAll(t, r.env, r.vars, pol, r.ci, vs))
    decreases |vs|
  {
    hide Run, SimplifyType, Met, Erase, Agrees;
    if vs == [] {
      assert EraseAll(vs) == [];
    } else {
      hide AgreeAll;
      assert Preserved(t, r, pol, s, vs[0]);
      PreservesAll(t, r, pol, s, vs[1..]);
      assert EraseAll(vs)[1..] == EraseAll(vs[1..]);
      var t' := SimplifyType(t, r.vars, pol, s).0;
      ConsAgrees(Run(t, r.env, pol, r.ci, vs[0]), Run(t', r.env', pol, r.ci, Erase(vs[0])),
                 Met(t, r.env, r.vars, pol, r.ci, vs[0]),
                 RunAll(t, r.env, pol, r.ci, vs[1..]), RunAll(t', r.env', pol, r.ci, EraseAll(vs[1..])),
                 MetAll(t, r.env, r.vars, pol, r.ci, vs[1..]));
    }
  }

  /** In negative position only variables are replaced with `Dyn`. */
  lemma NegativeDyn(field: Type, vars: SimplifyVars, s: State)
    ensures SimplifyType(field, vars, Negative, s).0.Dyn? <==> field.Dyn? || (field.Var? && field.id in vars.types)
  {
  }

  lemma EraseShape(v: Value)
    requires !(v.Sealed? && v.pol.Positive?)
    ensures Erase(v).Fields? == v.Fields?
  {
  }

  lemma DictSimplified(field: Type, flavour: DictFlavour, vars: SimplifyVars, pol: Polarity, s: State)
    ensures
      var field' := SimplifyType(field, vars, pol, s).0;
      && SimplifyType(Dict(field, flavour), vars, pol, s).0 ==
         (if pol.Positive? && field'.Dyn? then Dyn else Dict(field', flavour))
      && (field.Dyn? ==> field'.Dyn?) && BecomesDyn(Dict(field, flavour), vars) == BecomesDyn(field, vars)
  {
  }

  lemma DictStep(field: Type, flavour: DictFlavour, r: Runs, pol: Polarity, s: State, v: Value)
    requires forall a: Value :: Preserved(field, r, pol, s, a)
    ensures Preserved(Dict(field, flavour), r, pol, s, v)
  {
    hide Run, SimplifyType, Collect, RunEach, Erase, Met, MetEach, Union, DictRefuses, BecomesDyn, MetShape;
    var field' := SimplifyType(field, r.vars, pol, s).0;
    DictSimplified(field, flavour, r.vars, pol, s);
    RunDyn(r.env', pol, r.ci, Erase(v));
    MetDict(field, flavour, r, pol, v);
    NegativeDyn(field, r.vars, s);
    BecomesDynExactly(field, r.vars, s);
    RunDictType(field, flavour, r.env, pol, r.ci, v);
    RunDictType(field', flavour, r.env', pol, r.ci, Erase(v));
    if TermSafe(Run(Dict(field, flavour), r.env, pol, r.ci, v).events) {
      if !v.Fields? {
        WrongShapeAgrees(pol, v);
        ShapeAgrees(Dict(field, flavour), r.vars, pol, v);
        EraseShape(v);
      } else if field.Dyn? {
        EraseShape(v);
      } else {
        if DictRefuses(flavour, v) {
          DictRefusalAgrees(flavour, pol, v);
        } else {
          DictPasses(flavour, v);
          PreservesEach(field, r, pol, s, v);
          DynEach(r.env', pol, r.ci, EraseFields(v.fields), EraseTail(v.tail).1);
        }
      }
    }
  }

  lemma MetDict(field: Type, flavour: DictFlavour, r: Runs, pol: Polarity, v: Value)
    ensures Met(Dict(field, flavour), r.env, r.vars, pol, r.ci, v) ==
            if !v.Fields? then MetShape(Dict(field, flavour), r.vars, pol, v)
            else if field.Dyn? then {}
            else if DictRefuses(flavour, v)
            then (if SkipsDict(field, flavour, r.vars, pol) then {SkippedCheck(pol)} else {})
            else Union(MetEach(field, r.env, r.vars, pol, r.ci, v.fields))
  {
  }

  /** A dictionary check that the context fails, and what is left of it without seals. */
  lemma DictRefusalAgrees(flavour: DictFlavour, pol: Polarity, v: Value)
    requires v.Fields? && DictRefuses(flavour, v) && TermSafe(DictRefusal(flavour, pol, v).events)
    ensures flavour.TypeFlavour? && Erase(v).Fields? && DictRefuses(flavour, Erase(v))
    ensures Agrees(DictRefusal(flavour, pol, v), DictRefusal(flavour, pol, Erase(v)), {})
    ensures Agrees(DictRefusal(flavour, pol, v), Pass(Erase(v)), {SkippedCheck(pol)})
  {
    assert Lost({SkippedCheck(pol)}) == {Fail(pol, Negative)};
    var e := if flavour.TypeFlavour? then Fail(pol, v.tail.pol) else Escape;
    assert e in DictRefusal(flavour, pol, v).events;
    NoTermTail(v);
    EraseSealedTail(v.tail);
  }

  lemma DictPasses(flavour: DictFlavour, v: Value)
    requires v.Fields? && !DictRefuses(flavour, v)
    ensures Hidden(v.tail) == {} && Erase(v) == Fields(EraseFields(v.fields), EraseTail(v.tail).1)
    ensures !DictRefuses(flavour, Erase(v))
  {
    NothingHidden(v);
    LeftIsNotTerm(v.tail);
  }

  lemma EachAgrees(t: Type, r: Runs, pol: Polarity, s: State, fs: map<Ident, Value>, x: Ident)
    requires x in fs && Preserved(t, r, pol, s, fs[x]) && TermSafe(RunEach(t, r.env, pol, r.ci, fs)[x].events)
    ensures Agrees(RunEach(t, r.env, pol, r.ci, fs)[x],
                   RunEach(SimplifyType(t, r.vars, pol, s).0, r.env', pol, r.ci, EraseFields(fs))[x],
                   MetEach(t, r.env, r.vars, pol, r.ci, fs)[x])
  {
    hide Run, SimplifyType, Met, Agrees, Erase;
  }

  lemma PreservesEach(t: Type, r: Runs, pol: Polarity, s: State, v: Value)
    requires forall a: Value :: Preserved(t, r, pol, s, a)
    requires v.Fields? && Hidden(v.tail) == {}
    requires TermSafe(Collect(RunEach(t, r.env, pol, r.ci, v.fields), v.tail).events)
    ensures Agrees(Collect(RunEach(t, r.env, pol, r.ci, v.fields), v.tail),
                   Collect(RunEach(SimplifyType(t, r.vars, pol, s).0, r.env', pol, r.ci, EraseFields(v.fields)),
                           EraseTail(v.tail).1), Union(MetEach(t, r.env, r.vars, pol, r.ci, v.fields)))
  {
    hide Run, SimplifyType, Met, Hidden, EraseTail, Collect, Agrees, Erase, Preserved, Union;
    var fs := v.fields;
    var os := RunEach(t, r.env, pol, r.ci, fs);
    var os' := RunEach(SimplifyType(t, r.vars, pol, s).0, r.env', pol, r.ci, EraseFields(fs));
    CollectSafe(os, v.tail);
    var hs := MetEach(t, r.env, r.vars, pol, r.ci, fs);
    forall x <- fs ensures Agrees(os[x], os'[x], hs[x]) {
      EachAgrees(t, r, pol, s, fs, x);
    }
    CollectAgrees(os, os', hs, v.tail);
  }

  // Record and enum types

  ghost predicate ComparableRecord(rows: RecordRows, r: Runs, pol: Polarity, s: State, declared: set<Ident>,
                                   canElide: bool) {
    && SealBlind(r.ci) && Related(r.env, r.env', r.vars)
    && WellKindedRecord(rows, r.env, pol) && ShadowFreeRecord(rows, r.vars, pol) && DistinctRows(rows)
    && Provides(r.env', s, SimplifyRecord(rows, r.vars, pol, s, declared, canElide).1)
  }

  /** Running the fields changes the listed ones only. */
  lemma {:induction false} FieldsFrame(rows: RecordRows, env: Env, pol: Polarity, ci: Embedded, fs: map<Ident, Value>)
    ensures RunFields(rows, env, pol, ci, fs).fields.Keys == fs.Keys
    ensures forall x <- fs :: x !in Declared(rows) ==> RunFields(rows, env, pol, ci, fs).fields[x] == fs[x]
    decreases rows
  {
    hide Run;
    if rows.RExtend? {
      FieldsFrame(rows.tail, env, pol, ci, fs);
    }
  }

  /** Only listed fields remain listed; all of them do unless they may be elided. */
  lemma {:induction false} DeclaredSimplified(rows: RecordRows, vars: SimplifyVars, pol: Polarity, s: State,
                                              declared: set<Ident>, canElide: bool)
    ensures
      var rows' := SimplifyRecord(rows, vars, pol, s, declared, canElide).0;
      Declared(rows') <= Declared(rows) && ((pol.Positive? && canElide) || Declared(rows') == Declared(rows))
    decreases rows
  {
    hide SimplifyType;
    if rows.RExtend? {
      DeclaredSimplified(rows.tail, vars, pol, SimplifyType(rows.typ, vars, pol, s).1, declared, canElide);
    }
  }

  lemma {:induction false} PreservesFields(rows: RecordRows, r: Runs, pol: Polarity, s: State, declared: set<Ident>,
                                           canElide: bool, fs: map<Ident, Value>, gs: map<Ident, Value>)
    requires ComparableRecord(rows, r, pol, s, declared, canElide)
    requires Declared(rows) <= fs.Keys && Declared(rows) <= gs.Keys
    requires forall x <- Declared(rows) :: gs[x] == Erase(fs[x])
    requires TermSafe(RunFields(rows, r.env, pol, r.ci, fs).events)
    ensures Fit(RunFields(rows, r.env, pol, r.ci, fs),
                RunFields(SimplifyRecord(rows, r.vars, pol, s, declared, canElide).0, r.env', pol, r.ci, gs),
                MetFields(rows, r.env, r.vars, pol, r.ci, fs), Declared(rows), fs, gs)
    decreases rows
  {
    hide Run, SimplifyType, Erase, WellKinded, ShadowFree, Fit, Met;
    if rows.RExtend? {
      var (typ', s1) := SimplifyType(rows.typ, r.vars, pol, s);
      RowParts(rows, r, pol, s, declared, canElide);
      PreservesType(rows.typ, r, pol, s, fs[rows.id]);
      PreservesFields(rows.tail, r, pol, s1, declared, canElide, fs, gs);
      DeclaredSimplified(rows.tail, r.vars, pol, s1, declared, canElide);
      RunDyn(r.env', pol, r.ci, gs[rows.id]);
      FieldStep(rows.id, Run(rows.typ, r.env, pol, r.ci, fs[rows.id]), Run(typ', r.env', pol, r.ci, gs[rows.id]),
                Met(rows.typ, r.env, r.vars, pol, r.ci, fs[rows.id]),
                RunFields(rows.tail, r.env, pol, r.ci, fs),
                RunFields(SimplifyRecord(rows.tail, r.vars, pol, s1, declared, canElide).0, r.env', pol, r.ci, gs),
                MetFields(rows.tail, r.env, r.vars, pol, r.ci, fs), Declared(rows.tail), fs, gs);
      assert Declared(rows) == Declared(rows.tail) + {rows.id};
    } else {
      FitNoRows(rows, r, pol, s, declared, canElide, fs, gs);
    }
  }

  lemma RowParts(rows: RecordRows, r: Runs, pol: Polarity, s: State, declared: set<Ident>, canElide: bool)
    requires rows.RExtend? && ComparableRecord(rows, r, pol, s, declared, canElide)
    ensures Comparable(rows.typ, r, pol, s)
    ensures ComparableRecord(rows.tail, r, pol, SimplifyType(rows.typ, r.vars, pol, s).1, declared, canElide)
  {
    SimplifyGrows(rows.typ, r.vars, pol, s);
    RecordGrows(rows.tail, r.vars, pol, SimplifyType(rows.typ, r.vars, pol, s).1, declared, canElide);
  }

  lemma FitNoRows(rows: RecordRows, r: Runs, pol: Polarity, s: State, declared: set<Ident>, canElide: bool,
                  fs: map<Ident, Value>, gs: map<Ident, Value>)
    requires !rows.RExtend?
    ensures Fit(RunFields(rows, r.env, pol, r.ci, fs),
                RunFields(SimplifyRecord(rows, r.vars, pol, s, declared, canElide).0, r.env', pol, r.ci, gs), {},
                Declared(rows), fs, gs)
  {
  }

  /** What the tail of simplified rows is. */
  ghost predicate TailBecomes(tail: RecordRows, tail': RecordRows, vars: SimplifyVars, pol: Polarity, s: State,
                              s': State, declared: set<Ident>) {
    match tail
    case REmpty => tail' == if pol.Positive? then RDyn else REmpty
    case RVar(id) =>
      if id !in vars.rows then tail' == tail
      else if pol.Positive? || vars.rows[id] - declared == {} then tail' == RDyn
      else
        && tail'.RVar? && NewIn(tail'.id, s, s')
        && tail'.id in s'.env && s'.env[tail'.id] == ExcludedOnly(vars.rows[id] - declared)
    case _ => tail' == tail
  }

  lemma {:induction false} TailSimplified(rows: RecordRows, vars: SimplifyVars, pol: Polarity, s: State,
                                          declared: set<Ident>, canElide: bool)
    ensures
      var (rows', s') := SimplifyRecord(rows, vars, pol, s, declared, canElide);
      TailBecomes(TailOf(rows), TailOf(rows'), vars, pol, s, s', declared)
    decreases rows
  {
    hide SimplifyType;
    if rows.RExtend? {
      var s1 := SimplifyType(rows.typ, vars, pol, s).1;
      SimplifyGrows(rows.typ, vars, pol, s);
      TailSimplified(rows.tail, vars, pol, s1, declared, canElide);
    }
  }

  lemma {:induction false} TailKinded(rows: RecordRows, env: Env, pol: Polarity)
    requires WellKindedRecord(rows, env, pol)
    ensures TailOf(rows).RVar? ==> TailOf(rows).id in env && env[TailOf(rows).id].SealTail?
    decreases rows
  {
    if rows.RExtend? {
      TailKinded(rows.tail, env, pol);
    }
  }

  /** A tail that lets the record through. */
  lemma PreservesTail(tail: RecordRows, tail': RecordRows, listed: set<Ident>, listed': set<Ident>, r: Runs,
                      pol: Polarity, s: State, s': State, v: Value, f: FieldsOutcome, g: FieldsOutcome, h: set<Hazard>)
    requires !tail.RExtend? && (tail.RVar? ==> tail.id in r.env && r.env[tail.id].SealTail?)
    requires TailBecomes(tail, tail', r.vars, pol, s, s', listed) && (listed' == listed || tail'.RDyn?)
    requires Related(r.env, r.env', r.vars) && Provides(r.env', s, s')
    requires v.Fields? && Fit(f, g, h, listed, v.fields, Erase(v).fields)
    requires TailPasses(tail, listed, r.env, pol, v) && !NewlyRefused(tail, r.env, pol, v)
    ensures Agrees(RunTail(tail, listed, r.env, pol, v, f), RunTail(tail', listed', r.env', pol, Erase(v), g),
                   h + MetTail(tail, listed, r.vars, pol, v))
  {
    hide Erase, Fit, SealingPasses, MoreThan, Clashes;
    assert h + {} == h;
    match tail
    case REmpty => ClosedTailAgrees(listed, pol, v, f, g, h);
    case RDyn =>
      NoClash(v);
      OpenTailAgrees(listed, v, f, g, h);
    case RVar(id) =>
      NotAmong(Hidden(v.tail), r.env[id].excluded);
      if id in r.vars.rows {
        if pol.Positive? {
          RemovedUnsealAgrees(r.env[id], listed, v, f, g, h);
        } else {
          RemovedSealAgrees(r.env[id], listed, v, f, g, h);
        }
      } else if pol.Positive? {
        SealAgrees(r.env[id], listed, v, f, g, h);
      } else {
        UnsealAgrees(r.env[id], listed, v, f, g, h);
      }
  }

  lemma NotAmong(a: set<Ident>, b: set<Ident>)
    ensures a * b == {} ==> a !! b
  {
    assert forall x <- a :: x in b ==> x in a * b;
  }

  /** A tail that lets the record through, and refuses it once its hidden fields are visible. */
  lemma RefusedNow(tail: RecordRows, tail': RecordRows, listed: set<Ident>, r: Runs, pol: Polarity,
                   s: State, s': State, v: Value, f: FieldsOutcome, g: FieldsOutcome)
    requires TailBecomes(tail, tail', r.vars, pol, s, s', listed)
    requires Related(r.env, r.env', r.vars) && Provides(r.env', s, s')
    requires v.Fields? && listed <= v.fields.Keys && f.fields.Keys == v.fields.Keys && TermSafe(f.events)
    requires TailPasses(tail, listed, r.env, pol, v) && NewlyRefused(tail, r.env, pol, v)
    ensures Agrees(RunTail(tail, listed, r.env, pol, v, f), RunTail(tail', listed, r.env', pol, Erase(v), g),
                   MetRefusal(pol, v, f))
  {
    hide Erase, SealingPasses, Clashes, MetRefusal, Hidden;
    var c := r.env[tail.id];
    if tail.id in r.vars.rows {
      RemovedRefusal(c, listed, v, f, g);
    } else {
      KeptRefusal(c, listed, v, f, g);
    }
  }

  /** A tail that refuses the record, on the side of the context. */
  lemma PreservesRefusal(tail: RecordRows, tail': RecordRows, listed: set<Ident>, r: Runs, pol: Polarity,
                         s: State, s': State, v: Value, f: FieldsOutcome, g: FieldsOutcome)
    requires !tail.RExtend? && (tail.RVar? ==> tail.id in r.env && r.env[tail.id].SealTail?)
    requires TailBecomes(tail, tail', r.vars, pol, s, s', listed)
    requires Related(r.env, r.env', r.vars) && Provides(r.env', s, s')
    requires v.Fields? && listed <= v.fields.Keys && !TailPasses(tail, listed, r.env, pol, v)
    requires TermSafe(RunTail(tail, listed, r.env, pol, v, f).events)
    ensures pol.Negative?
    ensures Agrees(RunTail(tail, listed, r.env, pol, v, f), RunTail(tail', listed, r.env', pol, Erase(v), g), {})
  {
    var o := RunTail(tail, listed, r.env, pol, v, f);
    assert Escape !in o.events && Fail(Positive, Positive) !in o.events;
    if tail.REmpty? {
      assert !TermTail(v.tail);
      NoTermTail(v);
    } else {
      RefusedByVar(r.env[tail.id], listed, pol, v, f);
      if tail.id in r.vars.rows {
        VisibleRefusal(r.env[tail.id], listed, v, f, g);
      } else {
        UnsealRefusal(r.env[tail.id], listed, v, f, g);
      }
    }
  }

  lemma RefusedByVar(c: VarContract, listed: set<Ident>, pol: Polarity, v: Value, f: FieldsOutcome)
    requires c.SealTail? && v.Fields? && !SealingPasses(c, listed, pol, v)
    requires TermSafe(SealingTail(c, listed, pol, v, f).events)
    ensures pol.Negative?
  {
    var o := SealingTail(c, listed, pol, v, f);
    assert Escape !in o.events && Fail(Positive, Positive) !in o.events;
  }

  lemma VisibleRefusal(c: VarContract, listed: set<Ident>, v: Value, f: FieldsOutcome, g: FieldsOutcome)
    requires c.SealTail? && c.pol.Positive? && v.Fields? && listed <= v.fields.Keys
    requires !SealingPasses(c, listed, Negative, v)
    requires TermSafe(SealingTail(c, listed, Negative, v, f).events)
    ensures c.excluded - listed != {}
    ensures Agrees(SealingTail(c, listed, Negative, v, f),
                   CheckedTail(c.excluded - listed, listed, Negative, Erase(v), g), {})
  {
    hide Erase, Hidden;
    assert Escape !in SealingTail(c, listed, Negative, v, f).events;
    NoClash(v);
    EraseRecord(v.fields, v.tail);
    VisibleErased(v);
    var x :| x in (v.fields.Keys - listed) * c.excluded;
    assert x in (Erase(v).fields.Keys - listed) * (c.excluded - listed);
  }

  lemma UnsealRefusal(c: VarContract, listed: set<Ident>, v: Value, f: FieldsOutcome, g: FieldsOutcome)
    requires c.SealTail? && c.pol.Negative? && v.Fields? && !SealingPasses(c, listed, Negative, v)
    requires TermSafe(UnsealTail(c, listed, Negative, v, f).events)
    ensures Agrees(UnsealTail(c, listed, Negative, v, f), UnsealTail(c, listed, Negative, Erase(v), g), {})
  {
    assert Escape !in UnsealTail(c, listed, Negative, v, f).events;
    assert !TermTail(v.tail);
    NoTermTail(v);
    EraseSealedTail(v.tail);
  }

  lemma RecordParts(rows: RecordRows, r: Runs, pol: Polarity, s: State, v: Value)
    requires Comparable(Record(rows), r, pol, s)
    requires v.Fields? && Declared(rows) <= v.fields.Keys && TermSafe(Run(Record(rows), r.env, pol, r.ci, v).events)
    ensures ComparableRecord(rows, r, pol, s, Declared(rows), CanElide(rows, r.vars))
    ensures v.fields.Keys <= Erase(v).fields.Keys && forall x <- v.fields :: Erase(v).fields[x] == Erase(v.fields[x])
  {
    assert WellKindedRecord(rows, r.env, pol) && Related(r.env, r.env', r.vars);
    RunRecordType(rows, r.env, pol, r.ci, v);
    TailKinded(rows, r.env, pol);
    FieldsStayVisible(TailOf(rows), Declared(rows), r, pol, v, RunFields(rows, r.env, pol, r.ci, v.fields));
    VisibleErased(v);
  }

  /** Where the tail is safe, fields hidden for the term do not cover visible ones. */
  lemma FieldsStayVisible(tail: RecordRows, listed: set<Ident>, r: Runs, pol: Polarity, v: Value, f: FieldsOutcome)
    requires !tail.RExtend? && (tail.RVar? ==> tail.id in r.env && r.env[tail.id].SealTail?)
    requires v.Fields? && TermSafe(RunTail(tail, listed, r.env, pol, v, f).events)
    ensures Disjoint(v)
  {
    var o := RunTail(tail, listed, r.env, pol, v, f);
    assert Escape !in o.events;
    match tail
    case REmpty =>
    case RDyn => NoClash(v);
    case RVar(id) =>
      if pol != r.env[id].pol {
        NoClash(v);
      } else if TermTail(v.tail) {
        TermTailDisjoint(v);
      }
  }

  /** The runs of the fields of a record agree if they are safe. */
  ghost predicate FieldsFit(rows: RecordRows, rows': RecordRows, r: Runs, pol: Polarity, v: Value) {
    v.Fields? && Declared(rows) <= v.fields.Keys && TermSafe(Run(Record(rows), r.env, pol, r.ci, v).events) ==>
      FitIfSafe(RunFields(rows, r.env, pol, r.ci, v.fields), RunFields(rows', r.env', pol, r.ci, Erase(v).fields),
                MetFields(rows, r.env, r.vars, pol, r.ci, v.fields), Declared(rows), v.fields, Erase(v).fields)
  }

  lemma RecordStep(rows: RecordRows, r: Runs, pol: Polarity, s: State, v: Value)
    requires Comparable(Record(rows), r, pol, s)
    requires FieldsFit(rows, SimplifyRecord(rows, r.vars, pol, s, Declared(rows), CanElide(rows, r.vars)).0, r, pol, v)
    ensures Preserved(Record(rows), r, pol, s, v)
  {
    var declared, canElide := Declared(rows), CanElide(rows, r.vars);
    var (rows', s') := SimplifyRecord(rows, r.vars, pol, s, declared, canElide);
    assert SimplifyType(Record(rows), r.vars, pol, s) ==
           (if pol.Positive? && (rows'.RDyn? || rows'.REmpty?) then Dyn else Record(rows'), s');
    RunRecordType(rows', r.env', pol, r.ci, Erase(v));
    RunDyn(r.env', pol, r.ci, Erase(v));
    assert Related(r.env, r.env', r.vars) && Provides(r.env', s, s') && WellKindedRecord(rows, r.env, pol);
    if pol.Positive? {
      TailBecomesDyn(rows, r.vars, s, declared, canElide);
    }
    assert BecomesDyn(Record(rows), r.vars) == BecomesDynTail(rows, r.vars);
    hide Run, SimplifyType, SimplifyRecord, WellKindedRecord, WellKinded, ShadowFree, Related, Provides, RunFields, Fit,
         RunRecord, Met, FieldsFit, TailBecomes, BecomesDyn, BecomesDynTail, Erase;
    DeclaredSimplified(rows, r.vars, pol, s, declared, canElide);
    TailSimplified(rows, r.vars, pol, s, declared, canElide);
    TailKinded(rows, r.env, pol);
    if TermSafe(Run(Record(rows), r.env, pol, r.ci, v).events) {
      if v.Fields? {
        RecordAgrees(rows, rows', r, pol, s, s', v);
        if pol.Positive? && (rows'.RDyn? || rows'.REmpty?) {
          ErasedRecord(v);
          ElidedRecord(rows', r, v);
        }
      } else {
        NoRecord(rows, rows', r, pol, v);
      }
    }
  }

  /** A value that is not a record, at a check that stays or goes. */
  lemma NoRecord(rows: RecordRows, rows': RecordRows, r: Runs, pol: Polarity, v: Value)
    requires !v.Fields? && TermSafe(Run(Record(rows), r.env, pol, r.ci, v).events)
    ensures
      var gone := pol.Positive? && BecomesDyn(Record(rows), r.vars);
      Agrees(Run(Record(rows), r.env, pol, r.ci, v),
             if gone then Pass(Erase(v)) else RunRecord(rows', r.env', pol, r.ci, Erase(v)),
             Met(Record(rows), r.env, r.vars, pol, r.ci, v))
  {
    hide Run, RunFields, RunTail, Met, Erase, BecomesDyn, MetShape, Agrees;
    RunRecordType(rows, r.env, pol, r.ci, v);
    MetInRecord(rows, r, pol, v);
    WrongShapeAgrees(pol, v);
    EraseShape(v);
    ShapeAgrees(Record(rows), r.vars, pol, v);
  }

  lemma ErasedRecord(v: Value)
    requires v.Fields?
    ensures Erase(v).Fields? && !TermTail(Erase(v).tail)
  {
    LeftIsNotTerm(v.tail);
  }

  /** The type `{; Dyn}` passes any record without seals made for the term. */
  lemma ElidedRecord(rows: RecordRows, r: Runs, v: Value)
    requires rows.RDyn? && Erase(v).Fields? && !TermTail(Erase(v).tail)
    ensures RunRecord(rows, r.env', Positive, r.ci, Erase(v)) == Pass(Erase(v))
  {
    assert Hidden(Erase(v).tail) * Erase(v).fields.Keys == {};
  }

  lemma RecordAgrees(rows: RecordRows, rows': RecordRows, r: Runs, pol: Polarity, s: State, s': State, v: Value)
    requires Related(r.env, r.env', r.vars) && Provides(r.env', s, s')
    requires TailOf(rows).RVar? ==> TailOf(rows).id in r.env && r.env[TailOf(rows).id].SealTail?
    requires TailBecomes(TailOf(rows), TailOf(rows'), r.vars, pol, s, s', Declared(rows))
    requires Declared(rows') <= Declared(rows)
    requires (pol.Positive? && CanElide(rows, r.vars)) || Declared(rows') == Declared(rows)
    requires v.Fields? && TermSafe(Run(Record(rows), r.env, pol, r.ci, v).events) && FieldsFit(rows, rows', r, pol, v)
    ensures Agrees(Run(Record(rows), r.env, pol, r.ci, v), RunRecord(rows', r.env', pol, r.ci, Erase(v)),
                   Met(Record(rows), r.env, r.vars, pol, r.ci, v))
  {
    hide Run, RunFields, Fit, Related, Provides, Met, MetFields, MetTail, RunTail, TailPasses, NewlyRefused, MetRefusal,
         Erase;
    MetInRecord(rows, r, pol, v);
    RunRecordType(rows, r.env, pol, r.ci, v);
    EraseRecord(v.fields, v.tail);
    if !(Declared(rows) <= v.fields.Keys) {
      MissingField(rows, rows', r, pol, v);
    } else {
      AllFields(rows, rows', r, pol, s, s', v);
    }
  }

  lemma MissingField(rows: RecordRows, rows': RecordRows, r: Runs, pol: Polarity, v: Value)
    requires v.Fields? && !(Declared(rows) <= v.fields.Keys) && TermSafe(RefuseRecord(pol, v).events)
    requires pol.Positive? || Declared(rows') == Declared(rows)
    ensures Erase(v).Fields? && Agrees(RefuseRecord(pol, v), RunRecord(rows', r.env', pol, r.ci, Erase(v)), {})
  {
    assert Fail(Positive, Positive) !in RefuseRecord(pol, v).events && Escape !in RefuseRecord(pol, v).events;
    NoTermTail(v);
  }

  /** A record with all the declared fields. */
  lemma AllFields(rows: RecordRows, rows': RecordRows, r: Runs, pol: Polarity, s: State, s': State, v: Value)
    requires Related(r.env, r.env', r.vars) && Provides(r.env', s, s')
    requires TailOf(rows).RVar? ==> TailOf(rows).id in r.env && r.env[TailOf(rows).id].SealTail?
    requires TailBecomes(TailOf(rows), TailOf(rows'), r.vars, pol, s, s', Declared(rows))
    requires Declared(rows') <= Declared(rows)
    requires (pol.Positive? && CanElide(rows, r.vars)) || Declared(rows') == Declared(rows)
    requires TermSafe(Run(Record(rows), r.env, pol, r.ci, v).events) && FieldsFit(rows, rows', r, pol, v)
    requires v.Fields? && Declared(rows) <= v.fields.Keys
    ensures Agrees(Run(Record(rows), r.env, pol, r.ci, v), RunRecord(rows', r.env', pol, r.ci, Erase(v)),
                   Met(Record(rows), r.env, r.vars, pol, r.ci, v))
  {
    hide Run, RunFields, Fit, Related, Provides, Met, MetFields, MetTail, RunTail, TailPasses, NewlyRefused, MetRefusal,
         Erase, Agrees, CanElide;
    MetInRecord(rows, r, pol, v);
    RunRecordType(rows, r.env, pol, r.ci, v);
    EraseRecord(v.fields, v.tail);
    var f, g := RunFields(rows, r.env, pol, r.ci, v.fields), RunFields(rows', r.env', pol, r.ci, Erase(v).fields);
    FieldsStayVisible(TailOf(rows), Declared(rows), r, pol, v, f);
    VisibleErased(v);
    ListedOrOpen(rows, rows', r, pol, s, s');
    if !TailPasses(TailOf(rows), Declared(rows), r.env, pol, v) {
      PreservesRefusal(TailOf(rows), TailOf(rows'), Declared(rows), r, pol, s, s', v, f, g);
    } else {
      PassingEvents(TailOf(rows), Declared(rows), r, pol, v, f);
      if NewlyRefused(TailOf(rows), r.env, pol, v) {
        FieldsFrame(rows, r.env, pol, r.ci, v.fields);
        RefusedKeepsFields(rows, rows', r, pol, s, s', v);
        RefusedNow(TailOf(rows), TailOf(rows'), Declared(rows), r, pol, s, s', v, f, g);
      } else {
        PreservesTail(TailOf(rows), TailOf(rows'), Declared(rows), Declared(rows'), r, pol, s, s', v, f, g,
                      MetFields(rows, r.env, r.vars, pol, r.ci, v.fields));
      }
    }
  }

  /** A record that is newly refused keeps its declared fields. */
  lemma RefusedKeepsFields(rows: RecordRows, rows': RecordRows, r: Runs, pol: Polarity, s: State, s': State, v: Value)
    requires Related(r.env, r.env', r.vars) && v.Fields? && NewlyRefused(TailOf(rows), r.env, pol, v)
    requires (pol.Positive? && CanElide(rows, r.vars)) || Declared(rows') == Declared(rows)
    ensures Declared(rows') == Declared(rows)
  {
  }

  /** Fields are elided only where the tail becomes dynamic. */
  lemma ListedOrOpen(rows: RecordRows, rows': RecordRows, r: Runs, pol: Polarity, s: State, s': State)
    requires TailBecomes(TailOf(rows), TailOf(rows'), r.vars, pol, s, s', Declared(rows))
    requires (pol.Positive? && CanElide(rows, r.vars)) || Declared(rows') == Declared(rows)
    ensures Declared(rows') == Declared(rows) || TailOf(rows').RDyn?
  {
  }

  lemma PassingEvents(tail: RecordRows, listed: set<Ident>, r: Runs, pol: Polarity, v: Value, f: FieldsOutcome)
    requires !tail.RExtend? && (tail.RVar? ==> tail.id in r.env && r.env[tail.id].SealTail?)
    requires v.Fields? && TailPasses(tail, listed, r.env, pol, v)
    ensures RunTail(tail, listed, r.env, pol, v, f).events == f.events
  {
  }

  lemma MetInRecord(rows: RecordRows, r: Runs, pol: Polarity, v: Value)
    ensures
      var tail, listed := TailOf(rows), Declared(rows);
      Met(Record(rows), r.env, r.vars, pol, r.ci, v) ==
        if !v.Fields? then MetShape(Record(rows), r.vars, pol, v)
        else if !(listed <= v.fields.Keys && TailPasses(tail, listed, r.env, pol, v)) then {}
        else if NewlyRefused(tail, r.env, pol, v) then
          MetRefusal(pol, v, RunFields(rows, r.env, pol, r.ci, v.fields))
        else
          MetFields(rows, r.env, r.vars, pol, r.ci, v.fields) + MetTail(tail, listed, r.vars, pol, v)
  {
  }

  ghost predicate ComparableEnum(rows: EnumRows, r: Runs, pol: Polarity, s: State) {
    && SealBlind(r.ci) && Related(r.env, r.env', r.vars)
    && WellKindedEnum(rows, r.env, pol) && ShadowFreeEnum(rows, r.vars, pol)
    && Provides(r.env', s, SimplifyEnum(rows, r.vars, pol, s).2)
  }

  lemma EnumParts(rows: EnumRows, r: Runs, pol: Polarity, s: State)
    requires Comparable(Enum(rows), r, pol, s)
    ensures ComparableEnum(rows, r, pol, s)
  {
  }

  lemma EnumRowParts(rows: EnumRows, r: Runs, pol: Polarity, s: State)
    requires rows.EExtend? && ComparableEnum(rows, r, pol, s)
    ensures ComparableEnum(rows.tail, r, pol, s)
    ensures rows.arg.Some? ==> Comparable(rows.arg.value, r, pol, SimplifyEnum(rows.tail, r.vars, pol, s).2)
  {
    EnumGrows(rows.tail, r.vars, pol, s);
    if rows.arg.Some? {
      SimplifyGrows(rows.arg.value, r.vars, pol, SimplifyEnum(rows.tail, r.vars, pol, s).2);
    }
  }

  lemma {:induction false} PreservesEnum(rows: EnumRows, r: Runs, pol: Polarity, s: State, v: Value)
    requires ComparableEnum(rows, r, pol, s) && (v.Tag? || v.Variant?)
    requires TermSafe(RunEnum(rows, r.env, pol, r.ci, v).events)
    ensures Agrees(RunEnum(rows, r.env, pol, r.ci, v),
                   RunEnum(SimplifyEnum(rows, r.vars, pol, s).0, r.env', pol, r.ci, Erase(v)),
                   MetEnum(rows, r.env, r.vars, pol, r.ci, v))
    ensures pol.Positive? && SimplifyEnum(rows, r.vars, pol, s).1 ==>
      RunEnum(SimplifyEnum(rows, r.vars, pol, s).0, r.env', pol, r.ci, Erase(v)) == Pass(Erase(v))
    decreases rows
  {
    hide Run, SimplifyType, WellKindedEnum, ShadowFreeEnum, Related, Provides, Met;
    if rows.EExtend? {
      EnumRowParts(rows, r, pol, s);
      if v.tag != rows.id || v.Variant? != rows.arg.Some? {
        PreservesEnum(rows.tail, r, pol, s, v);
      } else if rows.arg.Some? {
        PreservesType(rows.arg.value, r, pol, SimplifyEnum(rows.tail, r.vars, pol, s).2, v.arg);
        RunDyn(r.env', pol, r.ci, Erase(v.arg));
      }
    } else if rows.EEmpty? {
      assert Fail(pol, pol) in RunEnum(rows, r.env, pol, r.ci, v).events;
    }
  }

  lemma EnumStep(rows: EnumRows, r: Runs, pol: Polarity, s: State, v: Value)
    requires
      var (rows', elide, s') := SimplifyEnum(rows, r.vars, pol, s);
      (v.Tag? || v.Variant?) && TermSafe(Run(Enum(rows), r.env, pol, r.ci, v).events) ==>
        && Agrees(RunEnum(rows, r.env, pol, r.ci, v), RunEnum(rows', r.env', pol, r.ci, Erase(v)),
                  MetEnum(rows, r.env, r.vars, pol, r.ci, v))
        && (pol.Positive? && elide ==> RunEnum(rows', r.env', pol, r.ci, Erase(v)) == Pass(Erase(v)))
    ensures Preserved(Enum(rows), r, pol, s, v)
  {
    hide Run, SimplifyType, SimplifyEnum, RunEnum, Met, MetEnum, BecomesDyn, MetShape;
    var (rows', elide, s') := SimplifyEnum(rows, r.vars, pol, s);
    EnumUnfolds(rows, r, pol, s, v);
    RunEnumType(rows, r.env, pol, r.ci, v);
    RunEnumType(rows', r.env', pol, r.ci, Erase(v));
    RunDyn(r.env', pol, r.ci, Erase(v));
    if !(v.Tag? || v.Variant?) && TermSafe(Run(Enum(rows), r.env, pol, r.ci, v).events) {
      WrongShapeAgrees(pol, v);
      ShapeAgrees(Enum(rows), r.vars, pol, v);
    }
  }

  lemma EnumUnfolds(rows: EnumRows, r: Runs, pol: Polarity, s: State, v: Value)
    ensures
      var (rows', elide, s') := SimplifyEnum(rows, r.vars, pol, s);
      && SimplifyType(Enum(rows), r.vars, pol, s).0 == (if pol.Positive? && elide then Dyn else Enum(rows'))
      && (pol.Positive? ==> elide == BecomesDyn(Enum(rows), r.vars))
    ensures Met(Enum(rows), r.env, r.vars, pol, r.ci, v) ==
            if v.Tag? || v.Variant? then MetEnum(rows, r.env, r.vars, pol, r.ci, v)
            else MetShape(Enum(rows), r.vars, pol, v)
  {
    if pol.Positive? {
      CasesBecomeDyn(rows, r.vars, s);
    }
  }
}
