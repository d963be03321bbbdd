/** The simplification of a type for contract generation (core/src/typ.rs). */
module Simplify {
  import opened Types
  import opened Blame

  /** The variables introduced by a removed quantifier. */
  datatype SimplifyVars = SimplifyVars(types: set<Ident>, rows: map<Ident, set<Ident>>)

  const NO_VARS := SimplifyVars({}, map[])

  /** The contract environment, and the index the next generated identifier will get. */
  datatype State = State(env: Env, next: nat)

  /** Ground types lose their check in positive position. */
  predicate IsGround(t: Type) {
    t.Number? || t.Bool? || t.String? || t.Symbol? || t.ForeignId?
  }

  /** Quantifiers over types and record rows are removed in positive position. */
  predicate Elided(kind: VarKind, pol: Polarity) {
    pol.Positive? && !kind.EnumRowsKind?
  }

  function Elide(vars: SimplifyVars, v: Ident, kind: VarKind): SimplifyVars
    requires !kind.EnumRowsKind?
  {
    match kind
    case TypeKind => vars.(types := vars.types + {v})
    case RecordRowsKind(excluded) => vars.(rows := vars.rows[v := excluded])
  }

  /** Fields may be dropped from a record unless its tail is a variable that stays. */
  predicate CanElide(rows: RecordRows, vars: SimplifyVars) {
    var tail := TailOf(rows);
    tail.RVar? ==> tail.id in vars.rows
  }

  function SimplifyType(t: Type, vars: SimplifyVars, pol: Polarity, s: State): (Type, State)
    decreases t
  {
    match t
    case Arrow(dom, codom) =>
      var (dom', s1) := SimplifyType(dom, vars, pol.Flip(), s);
      var (codom', s2) := SimplifyType(codom, vars, pol, s1);
      (Arrow(dom', codom'), s2)
    case Forall(v, kind, body) =>
      if Elided(kind, pol) then
        SimplifyType(body, Elide(vars, v, kind), pol, s)
      else
        var (body', s1) := SimplifyType(body, vars, pol, s);
        (Forall(v, kind, body'), s1)
    case Var(id) => (if id in vars.types then Dyn else t, s)
    case Record(rows) =>
      var (rows', s1) := SimplifyRecord(rows, vars, pol, s, Declared(rows), CanElide(rows, vars));
      (if pol.Positive? && (rows'.RDyn? || rows'.REmpty?) then Dyn else Record(rows'), s1)
    case Enum(rows) =>
      var (rows', elide, s1) := SimplifyEnum(rows, vars, pol, s);
      (if pol.Positive? && elide then Dyn else Enum(rows'), s1)
    case Dict(field, flavour) =>
      var (field', s1) := SimplifyType(field, vars, pol, s);
      (if pol.Positive? && field'.Dyn? then Dyn else Dict(field', flavour), s1)
    case Array(elem) =>
      var (elem', s1) := SimplifyType(elem, vars, pol, s);
      (if pol.Positive? && elem'.Dyn? then Dyn else Array(elem'), s1)
    case _ => (if pol.Positive? && IsGround(t) then Dyn else t, s)
  }

  /** `declared` and `canElide` describe the whole record, of which `rows` is what is left to do. */
  function SimplifyRecord(rows: RecordRows, vars: SimplifyVars, pol: Polarity, s: State,
                          declared: set<Ident>, canElide: bool): (RecordRows, State)
    decreases rows
  {
    match rows
    case REmpty => (if pol.Positive? then RDyn else REmpty, s)
    case RDyn => (RDyn, s)
    case RVar(id) => SimplifyTailVar(id, vars, pol, s, declared)
    case RExtend(id, typ, tail) =>
      var (typ', s1) := SimplifyType(typ, vars, pol, s);
      var (tail', s2) := SimplifyRecord(tail, vars, pol, s1, declared, canElide);
      (if typ'.Dyn? && pol.Positive? && canElide then tail' else RExtend(id, typ', tail'), s2)
  }

  function SimplifyTailVar(id: Ident, vars: SimplifyVars, pol: Polarity, s: State,
                           declared: set<Ident>): (RecordRows, State) {
    if id !in vars.rows then (RVar(id), s)
    else if pol.Positive? then (RDyn, s)
    else
      var excluded := vars.rows[id] - declared;
      if excluded == {} then (RDyn, s) else
      var tailVar := Generated(s.next);
      (RVar(tailVar), State(s.env[tailVar := ExcludedOnly(excluded)], s.next + 1))
  }

  /** Also tells whether every row could be left out of a contract in positive position. */
  function SimplifyEnum(rows: EnumRows, vars: SimplifyVars, pol: Polarity, s: State): (EnumRows, bool, State)
    decreases rows
  {
    match rows
    case EEmpty => (EEmpty, true, s)
    case EVar(id) => (EVar(id), false, s)
    case EExtend(id, arg, tail) =>
      var (tail', elide, s1) := SimplifyEnum(tail, vars, pol, s);
      match arg
      case None => (EExtend(id, None, tail'), elide, s1)
      case Some(typ) =>
        var (typ', s2) := SimplifyType(typ, vars, pol, s1);
        (EExtend(id, Some(typ'), tail'), elide && typ'.Dyn?, s2)
  }

  /** What simplification of the type of a term annotation starts from and ends with. */
  function Simplified(t: Type, next: nat): (Type, State) {
    SimplifyType(t, NO_VARS, Positive, State(map[], next))
  }

  lemma ArrowSimplifies(dom: Type, codom: Type, vars: SimplifyVars, pol: Polarity, s: State)
    ensures
      var (dom', s1) := SimplifyType(dom, vars, pol.Flip(), s);
      var (codom', s2) := SimplifyType(codom, vars, pol, s1);
      SimplifyType(Arrow(dom, codom), vars, pol, s) == (Arrow(dom', codom'), s2)
  {
  }

  // Well-formed input

  /** Variables are bound and used at their kind, record rows are distinct, binders are written names. */
  predicate WellKinded(t: Type, env: Env, pol: Polarity)
    decreases t
  {
    match t
    case Arrow(dom, codom) => WellKinded(dom, env, pol.Flip()) && WellKinded(codom, env, pol)
    case Forall(v, kind, body) => v.Name? && WellKinded(body, env[v := Bind(v, kind, pol)], pol)
    case Var(id) => id in env && env[id].SealVar?
    case Array(elem) => WellKinded(elem, env, pol)
    case Dict(field, _) => WellKinded(field, env, pol)
    case Record(rows) => DistinctRows(rows) && WellKindedRecord(rows, env, pol)
    case Enum(rows) => WellKindedEnum(rows, env, pol)
    case _ => true
  }

  predicate WellKindedRecord(rows: RecordRows, env: Env, pol: Polarity)
    decreases rows
  {
    match rows
    case RExtend(_, typ, tail) => WellKinded(typ, env, pol) && WellKindedRecord(tail, env, pol)
    case RVar(id) => id in env && env[id].SealTail?
    case _ => true
  }

  predicate WellKindedEnum(rows: EnumRows, env: Env, pol: Polarity)
    decreases rows
  {
    match rows
    case EExtend(_, arg, tail) => (arg.Some? ==> WellKinded(arg.value, env, pol)) && WellKindedEnum(tail, env, pol)
    case EVar(id) => id in env && env[id].EnumTail?
    case EEmpty => true
  }

  /** No quantifier that stays rebinds, at the same kind, a name a removed quantifier introduced. */
  predicate ShadowFree(t: Type, vars: SimplifyVars, pol: Polarity)
    decreases t
  {
    match t
    case Arrow(dom, codom) => ShadowFree(dom, vars, pol.Flip()) && ShadowFree(codom, vars, pol)
    case Forall(v, kind, body) =>
      if Elided(kind, pol) then ShadowFree(body, Elide(vars, v, kind), pol)
      else
        && (kind.TypeKind? ==> v !in vars.types)
        && (kind.RecordRowsKind? ==> v !in vars.rows)
        && ShadowFree(body, vars, pol)
    case Array(elem) => ShadowFree(elem, vars, pol)
    case Dict(field, _) => ShadowFree(field, vars, pol)
    case Record(rows) => ShadowFreeRecord(rows, vars, pol)
    case Enum(rows) => ShadowFreeEnum(rows, vars, pol)
    case _ => true
  }

  predicate ShadowFreeRecord(rows: RecordRows, vars: SimplifyVars, pol: Polarity)
    decreases rows
  {
    rows.RExtend? ==> ShadowFree(rows.typ, vars, pol) && ShadowFreeRecord(rows.tail, vars, pol)
  }

  predicate ShadowFreeEnum(rows: EnumRows, vars: SimplifyVars, pol: Polarity)
    decreases rows
  {
    rows.EExtend? ==>
      (rows.arg.Some? ==> ShadowFree(rows.arg.value, vars, pol)) && ShadowFreeEnum(rows.tail, vars, pol)
  }
}
