/**
 Where a simplified contract does not do what the original one does, read off the type, the value and
 what the original contract does to its fields.

 A check in positive position that simplification removes altogether is not made on a value or a
 record that is sealed for a quantifier of the context, where it would blame the context. A dictionary
 type `{_ : a}` in negative position, with `a` removed, becomes `{_ : Dyn}`, whose contract does not
 mind a sealed tail. A record in negative position whose tail was removed, with excluded fields left
 over, gets a tail contract that gives back the declared fields alone. And where the original contract
 seals a record over an earlier seal made for the term, the fields hidden by it are visible to the
 simplified one: it refuses the record if they are excluded.
 */
module Hazards {
  import opened Types
  import opened Blame
  import opened Simplify

  /**
   `SkippedCheck`: a failure at this polarity that blames the context is not reported. `OtherValue`:
   another value comes out. `NewRefusal`: a record that the original contract lets through is refused,
   at this polarity.
   */
  datatype Hazard = SkippedCheck(site: Polarity) | OtherValue | NewRefusal(pol: Polarity)

  // Checks that vanish in positive position

  /** What simplification turns into `Dyn` in positive position. */
  predicate BecomesDyn(t: Type, vars: SimplifyVars)
    decreases t
  {
    match t
    case Var(id) => id in vars.types
    case Forall(x, kind, body) => Elided(kind, Positive) && BecomesDyn(body, Elide(vars, x, kind))
    case Array(elem) => BecomesDyn(elem, vars)
    case Dict(field, _) => BecomesDyn(field, vars)
    case Record(rows) => BecomesDynTail(rows, vars)
    case Enum(rows) => BecomesDynCases(rows, vars)
    case _ => t.Dyn? || IsGround(t)
  }

  predicate BecomesDynTail(rows: RecordRows, vars: SimplifyVars)
    decreases rows
  {
    match rows
    case RVar(id) => id in vars.rows
    case RExtend(_, typ, tail) => BecomesDyn(typ, vars) && BecomesDynTail(tail, vars)
    case _ => true
  }

  predicate BecomesDynCases(rows: EnumRows, vars: SimplifyVars)
    decreases rows
  {
    match rows
    case EEmpty => true
    case EVar(_) => false
    case EExtend(_, arg, tail) => (arg.Some? ==> BecomesDyn(arg.value, vars)) && BecomesDynCases(tail, vars)
  }

  /** A check of the shape of `v` that is gone, where `v` is sealed for a quantifier of the context. */
  function MetShape(t: Type, vars: SimplifyVars, pol: Polarity, v: Value): set<Hazard> {
    if pol.Positive? && v.Sealed? && v.pol.Negative? && BecomesDyn(t, vars) then {SkippedCheck(Positive)} else {}
  }

  // What a value meets

  /** What `v` meets under `t`; `vars` are the variables removed on the way. */
  function Met(t: Type, env: Env, vars: SimplifyVars, pol: Polarity, ci: Embedded, v: Value): set<Hazard>
    decreases t, 0
  {
    match t
    case Forall(x, kind, body) =>
      Met(body, env[x := Bind(x, kind, pol)], if Elided(kind, pol) then Elide(vars, x, kind) else vars, pol, ci, v)
    case Arrow(dom, codom) =>
      if v.Fun? then MetAll(dom, env, vars, pol.Flip(), ci, v.args) + MetAll(codom, env, vars, pol, ci, v.results)
      else {}
    case Array(elem) => if v.Elems? then MetAll(elem, env, vars, pol, ci, v.elems) else MetShape(t, vars, pol, v)
    case Dict(field, flavour) =>
      if !v.Fields? then MetShape(t, vars, pol, v)
      else if field.Dyn? then {}
      else if DictRefuses(flavour, v) then (if SkipsDict(field, flavour, vars, pol) then {SkippedCheck(pol)} else {})
      else Union(MetEach(field, env, vars, pol, ci, v.fields))
    case Record(rows) =>
      if !v.Fields? then MetShape(t, vars, pol, v)
      else if Declared(rows) <= v.fields.Keys && TailPasses(TailOf(rows), Declared(rows), env, pol, v)
      then MetRecord(rows, env, vars, pol, ci, v, RunFields(rows, env, pol, ci, v.fields))
      else {}
    case Enum(rows) => if v.Tag? || v.Variant? then MetEnum(rows, env, vars, pol, ci, v) else MetShape(t, vars, pol, v)
    case _ => if IsGround(t) && !t.Symbol? then MetShape(t, vars, pol, v) else {}
  }

  function MetAll(t: Type, env: Env, vars: SimplifyVars, pol: Polarity, ci: Embedded, vs: seq<Value>): set<Hazard>
    decreases t, 1, |vs|
  {
    if vs == [] then {} else Met(t, env, vars, pol, ci, vs[0]) + MetAll(t, env, vars, pol, ci, vs[1..])
  }

  function MetEach(t: Type, env: Env, vars: SimplifyVars, pol: Polarity, ci: Embedded,
                   fs: map<Ident, Value>): map<Ident, set<Hazard>>
    decreases t, 1
  {
    map x | x in fs :: Met(t, env, vars, pol, ci, fs[x])
  }

  function Union(hs: map<Ident, set<Hazard>>): set<Hazard> {
    set x, h | x in hs && h in hs[x] :: h
  }

  function MetFields(rows: RecordRows, env: Env, vars: SimplifyVars, pol: Polarity, ci: Embedded,
                     fs: map<Ident, Value>): set<Hazard>
    decreases rows, 0
  {
    if !rows.RExtend? then {} else
    (if rows.id in fs then Met(rows.typ, env, vars, pol, ci, fs[rows.id]) else {})
      + MetFields(rows.tail, env, vars, pol, ci, fs)
  }

  /** A record that its original contract lets through; `f` is what becomes of its fields. */
  function MetRecord(rows: RecordRows, env: Env, vars: SimplifyVars, pol: Polarity, ci: Embedded, v: Value,
                     f: FieldsOutcome): set<Hazard>
    requires v.Fields?
    decreases rows, 1
  {
    if NewlyRefused(TailOf(rows), env, pol, v) then MetRefusal(pol, v, f)
    else MetFields(rows, env, vars, pol, ci, v.fields) + MetTail(TailOf(rows), Declared(rows), vars, pol, v)
  }

  function MetEnum(rows: EnumRows, env: Env, vars: SimplifyVars, pol: Polarity, ci: Embedded, v: Value): set<Hazard>
    requires v.Tag? || v.Variant?
    decreases rows, 0
  {
    if !rows.EExtend? then {}
    else if v.tag != rows.id || v.Variant? != rows.arg.Some? then MetEnum(rows.tail, env, vars, pol, ci, v)
    else if rows.arg.None? then {}
    else Met(rows.arg.value, env, vars, pol, ci, v.arg)
  }

  /** A dictionary check that simplification replaces with one that ignores sealed tails. */
  predicate SkipsDict(field: Type, flavour: DictFlavour, vars: SimplifyVars, pol: Polarity) {
    flavour.TypeFlavour? && if pol.Positive? then BecomesDyn(field, vars) else field.Var? && field.id in vars.types
  }

  /** The tail of a record contract lets the record through. */
  predicate TailPasses(tail: RecordRows, declared: set<Ident>, env: Env, pol: Polarity, v: Value)
    requires v.Fields?
  {
    match tail
    case REmpty => v.fields.Keys - declared == {} && !v.tail.SealedTail?
    case RVar(id) => id in env && env[id].SealTail? && SealingPasses(env[id], declared, pol, v)
    case _ => !Clashes(v)
  }

  predicate SealingPasses(c: VarContract, declared: set<Ident>, pol: Polarity, v: Value)
    requires v.Fields? && c.SealTail?
  {
    if pol == c.pol then
      && v.fields.Keys - declared == {}
      && v.tail.SealedTail? && v.tail.key == c.key && v.tail.pol == c.pol
      && (v.tail.fields.Keys + Hidden(v.tail.rest)) * v.fields.Keys == {}
    else
      !Clashes(v) && (v.fields.Keys - declared) * c.excluded == {}
  }

  /** The record is sealed over a seal that hides fields excluded from the new tail. */
  predicate NewlyRefused(tail: RecordRows, env: Env, pol: Polarity, v: Value)
    requires v.Fields?
  {
    tail.RVar? && tail.id in env && env[tail.id].SealTail? && pol != env[tail.id].pol
      && Hidden(v.tail) * env[tail.id].excluded != {}
  }

  /** A refused record is left as it is, and nothing in it is checked: other failures inside go unreported. */
  function MetRefusal(pol: Polarity, v: Value, f: FieldsOutcome): set<Hazard>
    requires v.Fields?
  {
    {NewRefusal(pol)}
    + (set e <- f.events | e.Fail? && e.blamed.Negative? && e != Fail(pol, pol) :: SkippedCheck(e.site))
    + (if pol.Positive? || EraseFields(f.fields) != EraseFields(v.fields) then {OtherValue} else {})
  }

  /** A removed tail that leaves excluded fields to look for meets fields that are not declared, or a sealed tail. */
  function MetTail(tail: RecordRows, declared: set<Ident>, vars: SimplifyVars, pol: Polarity, v: Value): set<Hazard>
    requires v.Fields?
  {
    if pol.Negative? && tail.RVar? && tail.id in vars.rows && vars.rows[tail.id] - declared != {}
      && MoreThan(declared, v)
    then {OtherValue} else {}
  }

  /** Without the seals made for the term, the record has more than the declared fields. */
  predicate MoreThan(declared: set<Ident>, v: Value)
    requires v.Fields?
  {
    Erase(v).fields.Keys - declared != {} || Erase(v).tail.SealedTail?
  }

  /** The events the simplified contract misses, and those it adds. */
  function Lost(h: set<Hazard>): set<Event> {
    set x <- h | x.SkippedCheck? :: Fail(x.site, Negative)
  }

  function Gained(h: set<Hazard>): set<Event> {
    (if NewRefusal(Positive) in h then {Fail(Positive, Positive)} else {}) +
    (if NewRefusal(Negative) in h then {Fail(Negative, Negative)} else {})
  }

  // `BecomesDyn` is what simplification does

  lemma {:induction false} BecomesDynExactly(t: Type, vars: SimplifyVars, s: State)
    ensures SimplifyType(t, vars, Positive, s).0.Dyn? <==> BecomesDyn(t, vars)
    decreases t
  {
    match t
    case Forall(x, kind, body) => if Elided(kind, Positive) { BecomesDynExactly(body, Elide(vars, x, kind), s); }
    case Array(elem) => BecomesDynExactly(elem, vars, s);
    case Dict(field, _) => BecomesDynExactly(field, vars, s);
    case Record(rows) => TailBecomesDyn(rows, vars, s, Declared(rows), CanElide(rows, vars));
    case Enum(rows) => CasesBecomeDyn(rows, vars, s);
    case _ =>
  }

  lemma {:induction false} TailBecomesDyn(rows: RecordRows, vars: SimplifyVars, s: State, declared: set<Ident>,
                                          canElide: bool)
    requires canElide == CanElide(rows, vars)
    ensures
      var rows' := SimplifyRecord(rows, vars, Positive, s, declared, canElide).0;
      !rows'.REmpty? && (rows'.RDyn? <==> BecomesDynTail(rows, vars))
    decreases rows
  {
    if rows.RExtend? {
      BecomesDynExactly(rows.typ, vars, s);
      TailBecomesDyn(rows.tail, vars, SimplifyType(rows.typ, vars, Positive, s).1, declared, canElide);
      TailNeedsElision(rows.tail, vars);
    }
  }

  lemma {:induction false} TailNeedsElision(rows: RecordRows, vars: SimplifyVars)
    ensures BecomesDynTail(rows, vars) ==> CanElide(rows, vars)
    decreases rows
  {
    if rows.RExtend? {
      TailNeedsElision(rows.tail, vars);
    }
  }

  lemma {:induction false} CasesBecomeDyn(rows: EnumRows, vars: SimplifyVars, s: State)
    ensures SimplifyEnum(rows, vars, Positive, s).1 <==> BecomesDynCases(rows, vars)
    decreases rows
  {
    if rows.EExtend? {
      CasesBecomeDyn(rows.tail, vars, s);
      if rows.arg.Some? {
        BecomesDynExactly(rows.arg.value, vars, SimplifyEnum(rows.tail, vars, Positive, s).2);
      }
    }
  }
}
