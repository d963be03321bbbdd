/**
 When elaboration gives a contract. The only way to fail besides an unbound variable is a `Symbol` type,
 which elaboration panics on (core/src/typ.rs:332); simplification removes those in positive position.
 */
module ElaborationOutcome {
  import opened Types
  import opened Blame
  import opened Simplify
  import opened FreshTails
  import opened Elaborate

  predicate SymbolFree(t: Type)
    decreases t
  {
    match t
    case Symbol => false
    case Arrow(dom, codom) => SymbolFree(dom) && SymbolFree(codom)
    case Forall(_, _, body) => SymbolFree(body)
    case Array(elem) => SymbolFree(elem)
    case Dict(field, _) => SymbolFree(field)
    case Record(rows) => SymbolFreeRows(rows)
    case Enum(rows) => SymbolFreeCases(rows)
    case _ => true
  }

  predicate SymbolFreeRows(rows: RecordRows)
    decreases rows
  {
    rows.RExtend? ==> SymbolFree(rows.typ) && SymbolFreeRows(rows.tail)
  }

  predicate SymbolFreeCases(rows: EnumRows)
    decreases rows
  {
    rows.EExtend? ==> (rows.arg.Some? ==> SymbolFree(rows.arg.value)) && SymbolFreeCases(rows.tail)
  }

  /** Every free variable of `t`, of whatever kind, is among `ids`. */
  predicate ClosedOver(t: Type, ids: set<Ident>)
    decreases t
  {
    match t
    case Var(id) => id in ids
    case Arrow(dom, codom) => ClosedOver(dom, ids) && ClosedOver(codom, ids)
    case Forall(x, _, body) => ClosedOver(body, ids + {x})
    case Array(elem) => ClosedOver(elem, ids)
    case Dict(field, _) => ClosedOver(field, ids)
    case Record(rows) => RowsClosedOver(rows, ids)
    case Enum(rows) => CasesClosedOver(rows, ids)
    case _ => true
  }

  predicate RowsClosedOver(rows: RecordRows, ids: set<Ident>)
    decreases rows
  {
    match rows
    case RVar(id) => id in ids
    case RExtend(_, typ, tail) => ClosedOver(typ, ids) && RowsClosedOver(tail, ids)
    case _ => true
  }

  predicate CasesClosedOver(rows: EnumRows, ids: set<Ident>)
    decreases rows
  {
    match rows
    case EEmpty => true
    case EVar(id) => id in ids
    case EExtend(_, arg, tail) => (arg.Some? ==> ClosedOver(arg.value, ids)) && CasesClosedOver(tail, ids)
  }

  /** Each outcome has its cause, and without one of the two elaboration is done. */
  ghost predicate Explained<T>(e: Elab<T>, closed: bool, symbolFree: bool) {
    && (e.Done? <==> closed && symbolFree)
    && (e.UnboundTypeVariable? ==> !closed)
    && (e.Panicked? ==> !symbolFree)
  }

  lemma {:induction false} ElaborationExplained(t: Type, vars: CtrEnv, pol: Polarity, next: nat)
    ensures Explained(Subcontract(t, vars, pol, next), ClosedOver(t, vars.Keys), SymbolFree(t))
    decreases t
  {
    match t
    case Array(elem) => ElaborationExplained(elem, vars, pol, next);
    case Arrow(dom, codom) =>
      var d := Subcontract(dom, vars, pol.Flip(), next);
      ElaborationExplained(dom, vars, pol.Flip(), next);
      ElaborationExplained(codom, vars, pol, if !dom.Dyn? && d.Done? then d.next else next);
    case Forall(x, kind, body) =>
      ElaborationExplained(body, vars[x := BindCtr(kind, next)], pol, next + 1);
      assert vars[x := BindCtr(kind, next)].Keys == vars.Keys + {x};
    case Dict(field, _) => ElaborationExplained(field, vars, pol, next);
    case Record(rows) => RowsExplained(rows, vars, pol, next);
    case Enum(rows) => CasesExplained(rows, vars, pol, next);
    case _ =>
  }

  lemma {:induction false} RowsExplained(rows: RecordRows, vars: CtrEnv, pol: Polarity, next: nat)
    ensures Explained(SubcontractRecord(rows, vars, pol, next), RowsClosedOver(rows, vars.Keys), SymbolFreeRows(rows))
    decreases rows
  {
    if rows.RExtend? {
      var c := Subcontract(rows.typ, vars, pol, next);
      ElaborationExplained(rows.typ, vars, pol, next);
      RowsExplained(rows.tail, vars, pol, if c.Done? then c.next else next);
    }
  }

  lemma {:induction false} CasesExplained(rows: EnumRows, vars: CtrEnv, pol: Polarity, next: nat)
    ensures Explained(SubcontractEnum(rows, vars, pol, next), CasesClosedOver(rows, vars.Keys), SymbolFreeCases(rows))
    decreases rows
  {
    if rows.EExtend? {
      if rows.arg.Some? {
        var c := Subcontract(rows.arg.value, vars, pol, next);
        ElaborationExplained(rows.arg.value, vars, pol, next);
        CasesExplained(rows.tail, vars, pol, if c.Done? then c.next else next);
      } else {
        CasesExplained(rows.tail, vars, pol, next);
      }
    }
  }

  // Well-kinded types

  lemma {:induction false} WellKindedIsClosed(t: Type, env: Env, pol: Polarity)
    requires WellKinded(t, env, pol)
    ensures ClosedOver(t, env.Keys)
    decreases t
  {
    match t
    case Arrow(dom, codom) =>
      WellKindedIsClosed(dom, env, pol.Flip());
      WellKindedIsClosed(codom, env, pol);
    case Forall(x, kind, body) =>
      WellKindedIsClosed(body, env[x := Bind(x, kind, pol)], pol);
      assert env[x := Bind(x, kind, pol)].Keys == env.Keys + {x};
    case Array(elem) => WellKindedIsClosed(elem, env, pol);
    case Dict(field, _) => WellKindedIsClosed(field, env, pol);
    case Record(rows) => WellKindedRowsAreClosed(rows, env, pol);
    case Enum(rows) => WellKindedCasesAreClosed(rows, env, pol);
    case _ =>
  }

  lemma {:induction false} WellKindedRowsAreClosed(rows: RecordRows, env: Env, pol: Polarity)
    requires WellKindedRecord(rows, env, pol)
    ensures RowsClosedOver(rows, env.Keys)
    decreases rows
  {
    if rows.RExtend? {
      WellKindedIsClosed(rows.typ, env, pol);
      WellKindedRowsAreClosed(rows.tail, env, pol);
    }
  }

  lemma {:induction false} WellKindedCasesAreClosed(rows: EnumRows, env: Env, pol: Polarity)
    requires WellKindedEnum(rows, env, pol)
    ensures CasesClosedOver(rows, env.Keys)
    decreases rows
  {
    if rows.EExtend? {
      WellKindedCasesAreClosed(rows.tail, env, pol);
      if rows.arg.Some? {
        WellKindedIsClosed(rows.arg.value, env, pol);
      }
    }
  }

  // Simplified types

  /** `Symbol` stands in positive position only. */
  predicate SymbolsPositive(t: Type, pol: Polarity)
    decreases t
  {
    match t
    case Symbol => pol.Positive?
    case Arrow(dom, codom) => SymbolsPositive(dom, pol.Flip()) && SymbolsPositive(codom, pol)
    case Forall(_, _, body) => SymbolsPositive(body, pol)
    case Array(elem) => SymbolsPositive(elem, pol)
    case Dict(field, _) => SymbolsPositive(field, pol)
    case Record(rows) => SymbolsPositiveRows(rows, pol)
    case Enum(rows) => SymbolsPositiveCases(rows, pol)
    case _ => true
  }

  predicate SymbolsPositiveRows(rows: RecordRows, pol: Polarity)
    decreases rows
  {
    rows.RExtend? ==> SymbolsPositive(rows.typ, pol) && SymbolsPositiveRows(rows.tail, pol)
  }

  predicate SymbolsPositiveCases(rows: EnumRows, pol: Polarity)
    decreases rows
  {
    rows.EExtend? ==>
      (rows.arg.Some? ==> SymbolsPositive(rows.arg.value, pol)) && SymbolsPositiveCases(rows.tail, pol)
  }

  lemma {:induction false} SymbolsLeft(t: Type, vars: SimplifyVars, pol: Polarity, s: State)
    ensures SymbolFree(SimplifyType(t, vars, pol, s).0) <==> SymbolsPositive(t, pol)
    decreases t
  {
    match t
    case Arrow(dom, codom) =>
      SymbolsLeft(dom, vars, pol.Flip(), s);
      SymbolsLeft(codom, vars, pol, SimplifyType(dom, vars, pol.Flip(), s).1);
    case Forall(v, kind, body) =>
      SymbolsLeft(body, if Elided(kind, pol) then Elide(vars, v, kind) else vars, pol, s);
    case Array(elem) => SymbolsLeft(elem, vars, pol, s);
    case Dict(field, _) => SymbolsLeft(field, vars, pol, s);
    case Record(rows) => SymbolsLeftInRows(rows, vars, pol, s, Declared(rows), CanElide(rows, vars));
    case Enum(rows) => SymbolsLeftInCases(rows, vars, pol, s);
    case _ =>
  }

  lemma {:induction false} SymbolsLeftInRows(rows: RecordRows, vars: SimplifyVars, pol: Polarity, s: State,
                                             declared: set<Ident>, canElide: bool)
    ensures SymbolFreeRows(SimplifyRecord(rows, vars, pol, s, declared, canElide).0) <==> SymbolsPositiveRows(rows, pol)
    decreases rows
  {
    if rows.RExtend? {
      SymbolsLeft(rows.typ, vars, pol, s);
      SymbolsLeftInRows(rows.tail, vars, pol, SimplifyType(rows.typ, vars, pol, s).1, declared, canElide);
    }
  }

  lemma {:induction false} SymbolsLeftInCases(rows: EnumRows, vars: SimplifyVars, pol: Polarity, s: State)
    ensures
      var (rows', elide, s') := SimplifyEnum(rows, vars, pol, s);
      (SymbolFreeCases(rows') <==> SymbolsPositiveCases(rows, pol)) && (elide ==> SymbolFreeCases(rows'))
    decreases rows
  {
    if rows.EExtend? {
      SymbolsLeftInCases(rows.tail, vars, pol, s);
      if rows.arg.Some? {
        SymbolsLeft(rows.arg.value, vars, pol, SimplifyEnum(rows.tail, vars, pol, s).2);
      }
    }
  }

  // Whole annotations

  /** The contract of a closed type exists exactly when the type has no `Symbol`. */
  lemma ContractExists(t: Type)
    requires WellKinded(t, map[], Positive)
    ensures ContractOf(t).Done? <==> SymbolFree(t)
    ensures !ContractOf(t).UnboundTypeVariable?
  {
    var none: Env := map[];
    var noVars: CtrEnv := map[];
    WellKindedIsClosed(t, none, Positive);
    assert none.Keys == noVars.Keys;
    ElaborationExplained(t, noVars, Positive, 0);
  }

  /** The contract of a static annotation exists exactly when no `Symbol` stands in negative position. */
  lemma ContractStaticExists(t: Type, freshIndex: nat)
    requires WellKinded(t, map[], Positive)
    ensures ContractStatic(t, freshIndex).Done? <==> SymbolsPositive(t, Positive)
    ensures !ContractStatic(t, freshIndex).UnboundTypeVariable?
  {
    var s := State(map[], freshIndex);
    var (t', s') := Simplified(t, freshIndex);
    ContractStaticIsClosed(t, freshIndex);
    ElaborationExplained(t', TailContracts(s'.env), Positive, 0);
    SymbolsLeft(t, NO_VARS, Positive, s);
  }

  lemma {:induction false} NoneIsPositive(t: Type, pol: Polarity)
    requires SymbolFree(t)
    ensures SymbolsPositive(t, pol)
    decreases t
  {
    match t
    case Arrow(dom, codom) =>
      NoneIsPositive(dom, pol.Flip());
      NoneIsPositive(codom, pol);
    case Forall(_, _, body) => NoneIsPositive(body, pol);
    case Array(elem) => NoneIsPositive(elem, pol);
    case Dict(field, _) => NoneIsPositive(field, pol);
    case Record(rows) => NoneIsPositiveInRows(rows, pol);
    case Enum(rows) => NoneIsPositiveInCases(rows, pol);
    case _ =>
  }

  lemma {:induction false} NoneIsPositiveInRows(rows: RecordRows, pol: Polarity)
    requires SymbolFreeRows(rows)
    ensures SymbolsPositiveRows(rows, pol)
    decreases rows
  {
    if rows.RExtend? {
      NoneIsPositive(rows.typ, pol);
      NoneIsPositiveInRows(rows.tail, pol);
    }
  }

  lemma {:induction false} NoneIsPositiveInCases(rows: EnumRows, pol: Polarity)
    requires SymbolFreeCases(rows)
    ensures SymbolsPositiveCases(rows, pol)
    decreases rows
  {
    if rows.EExtend? {
      NoneIsPositiveInCases(rows.tail, pol);
      if rows.arg.Some? {
        NoneIsPositive(rows.arg.value, pol);
      }
    }
  }
}
