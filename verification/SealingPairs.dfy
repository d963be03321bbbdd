/** A quantifier that stays keeps all its sealing and unsealing occurrences. */
module SealingPairs {
  import opened Types
  import opened Blame
  import opened Simplify

  /** An occurrence of a variable: its polarity and, in a record tail, the fields it comes after. */
  datatype Occurrence =
    | InType(pol: Polarity)
    | InRecord(pol: Polarity, fields: set<Ident>)
    | InEnum(pol: Polarity)

  function Occurrences(x: Ident, t: Type, pol: Polarity): seq<Occurrence>
    decreases t
  {
    match t
    case Var(id) => if id == x then [InType(pol)] else []
    case Arrow(dom, codom) => Occurrences(x, dom, pol.Flip()) + Occurrences(x, codom, pol)
    case Forall(v, _, body) => if v == x then [] else Occurrences(x, body, pol)
    case Array(elem) => Occurrences(x, elem, pol)
    case Dict(field, _) => Occurrences(x, field, pol)
    case Record(rows) => RecordOccurrences(x, rows, pol, Declared(rows))
    case Enum(rows) => EnumOccurrences(x, rows, pol)
    case _ => []
  }

  function RecordOccurrences(x: Ident, rows: RecordRows, pol: Polarity, declared: set<Ident>): seq<Occurrence>
    decreases rows
  {
    match rows
    case RVar(id) => if id == x then [InRecord(pol, declared)] else []
    case RExtend(_, typ, tail) => Occurrences(x, typ, pol) + RecordOccurrences(x, tail, pol, declared)
    case _ => []
  }

  function EnumOccurrences(x: Ident, rows: EnumRows, pol: Polarity): seq<Occurrence>
    decreases rows
  {
    match rows
    case EEmpty => []
    case EVar(id) => if id == x then [InEnum(pol)] else []
    case EExtend(_, arg, tail) =>
      (if arg.Some? then Occurrences(x, arg.value, pol) else []) + EnumOccurrences(x, tail, pol)
  }

  // Removed variables

  /** `x` was introduced by a quantifier that is removed. */
  predicate Removed(x: Ident, env: Env, vars: SimplifyVars) {
    x in env && match env[x]
      case SealVar(_, _) => x in vars.types
      case SealTail(_, _, _) => x in vars.rows
      case _ => false
  }

  /** Once simplified, a well-kinded type does not mention a removed variable. */
  lemma {:induction false} NoneLeft(x: Ident, t: Type, env: Env, vars: SimplifyVars, pol: Polarity, s: State)
    requires x.Name? && Removed(x, env, vars) && WellKinded(t, env, pol)
    ensures Occurrences(x, SimplifyType(t, vars, pol, s).0, pol) == []
    decreases t
  {
    match t
    case Arrow(dom, codom) =>
      NoneLeft(x, dom, env, vars, pol.Flip(), s);
      NoneLeft(x, codom, env, vars, pol, SimplifyType(dom, vars, pol.Flip(), s).1);
    case Forall(v, kind, body) =>
      var env1 := env[v := Bind(v, kind, pol)];
      if Elided(kind, pol) {
        NoneLeft(x, body, env1, Elide(vars, v, kind), pol, s);
      } else if v != x {
        NoneLeft(x, body, env1, vars, pol, s);
      }
    case Array(elem) => NoneLeft(x, elem, env, vars, pol, s);
    case Dict(field, _) => NoneLeft(x, field, env, vars, pol, s);
    case Record(rows) => NoneLeftInRecord(x, rows, env, vars, pol, s, Declared(rows), CanElide(rows, vars));
    case Enum(rows) => NoneLeftInEnum(x, rows, env, vars, pol, s);
    case _ =>
  }

  lemma {:induction false} NoneLeftInRecord(x: Ident, rows: RecordRows, env: Env, vars: SimplifyVars, pol: Polarity,
                                            s: State, declared: set<Ident>, canElide: bool)
    requires x.Name? && Removed(x, env, vars) && WellKindedRecord(rows, env, pol)
    ensures forall ids :: RecordOccurrences(x, SimplifyRecord(rows, vars, pol, s, declared, canElide).0, pol, ids) == []
    decreases rows
  {
    if rows.RExtend? {
      NoneLeft(x, rows.typ, env, vars, pol, s);
      NoneLeftInRecord(x, rows.tail, env, vars, pol, SimplifyType(rows.typ, vars, pol, s).1, declared, canElide);
    }
  }

  lemma {:induction false} NoneLeftInEnum(x: Ident, rows: EnumRows, env: Env, vars: SimplifyVars, pol: Polarity,
                                          s: State)
    requires x.Name? && Removed(x, env, vars) && WellKindedEnum(rows, env, pol)
    ensures EnumOccurrences(x, SimplifyEnum(rows, vars, pol, s).0, pol) == []
    decreases rows
  {
    if rows.EExtend? {
      NoneLeftInEnum(x, rows.tail, env, vars, pol, s);
      if rows.arg.Some? {
        NoneLeft(x, rows.arg.value, env, vars, pol, SimplifyEnum(rows.tail, vars, pol, s).2);
      }
    }
  }

  // Variables that stay

  /**
   Simplification keeps the free occurrences of every variable that is not removed: same number, same
   order, same polarities, and a record that ends with the variable keeps all its fields.
   */
  lemma {:induction false} SealingPairsKept(x: Ident, t: Type, env: Env, vars: SimplifyVars, pol: Polarity, s: State)
    requires x.Name? && x !in vars.types && x !in vars.rows && WellKinded(t, env, pol)
    ensures Occurrences(x, SimplifyType(t, vars, pol, s).0, pol) == Occurrences(x, t, pol)
    decreases t
  {
    match t
    case Arrow(dom, codom) =>
      SealingPairsKept(x, dom, env, vars, pol.Flip(), s);
      SealingPairsKept(x, codom, env, vars, pol, SimplifyType(dom, vars, pol.Flip(), s).1);
    case Forall(v, kind, body) =>
      var env1 := env[v := Bind(v, kind, pol)];
      var vars1 := if Elided(kind, pol) then Elide(vars, v, kind) else vars;
      if v != x {
        SealingPairsKept(x, body, env1, vars1, pol, s);
      } else if Elided(kind, pol) {
        NoneLeft(x, body, env1, vars1, pol, s);
      }
    case Array(elem) => SealingPairsKept(x, elem, env, vars, pol, s);
    case Dict(field, _) => SealingPairsKept(x, field, env, vars, pol, s);
    case Record(rows) => RecordPairsKept(x, rows, env, vars, pol, s, Declared(rows), CanElide(rows, vars));
    case Enum(rows) => EnumPairsKept(x, rows, env, vars, pol, s);
    case _ =>
  }

  lemma {:induction false} RecordPairsKept(x: Ident, rows: RecordRows, env: Env, vars: SimplifyVars, pol: Polarity,
                                           s: State, declared: set<Ident>, canElide: bool)
    requires x.Name? && x !in vars.types && x !in vars.rows && WellKindedRecord(rows, env, pol)
    requires canElide == CanElide(rows, vars)
    ensures
      var rows' := SimplifyRecord(rows, vars, pol, s, declared, canElide).0;
      && RecordOccurrences(x, rows', pol, declared) == RecordOccurrences(x, rows, pol, declared)
      && (TailOf(rows) == RVar(x) ==> Declared(rows') == Declared(rows))
      && (TailOf(rows) != RVar(x) ==> forall ids ::
            RecordOccurrences(x, rows', pol, ids) == RecordOccurrences(x, rows', pol, declared))
    decreases rows
  {
    if rows.RExtend? {
      var s1 := SimplifyType(rows.typ, vars, pol, s).1;
      SealingPairsKept(x, rows.typ, env, vars, pol, s);
      RecordPairsKept(x, rows.tail, env, vars, pol, s1, declared, canElide);
    }
  }

  lemma {:induction false} EnumPairsKept(x: Ident, rows: EnumRows, env: Env, vars: SimplifyVars, pol: Polarity,
                                         s: State)
    requires x.Name? && x !in vars.types && x !in vars.rows && WellKindedEnum(rows, env, pol)
    ensures EnumOccurrences(x, SimplifyEnum(rows, vars, pol, s).0, pol) == EnumOccurrences(x, rows, pol)
    ensures SimplifyEnum(rows, vars, pol, s).1 ==> EnumOccurrences(x, rows, pol) == []
    decreases rows
  {
    if rows.EExtend? {
      EnumPairsKept(x, rows.tail, env, vars, pol, s);
      if rows.arg.Some? {
        SealingPairsKept(x, rows.arg.value, env, vars, pol, SimplifyEnum(rows.tail, vars, pol, s).2);
      }
    }
  }
}
