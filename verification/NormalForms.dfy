/**
 What is left of a type after simplification, said of the result alone: no check stands in positive
 position that typing makes redundant. Together with blame preservation this fixes what is dropped.
 */
module NormalForms {
  import opened Types
  import opened Simplify

  /** Nothing in `t`, standing at polarity `pol`, could be dropped. */
  predicate Normal(t: Type, pol: Polarity)
    decreases t
  {
    match t
    case Number => pol.Negative?
    case Bool => pol.Negative?
    case String => pol.Negative?
    case Symbol => pol.Negative?
    case ForeignId => pol.Negative?
    case Arrow(dom, codom) => Normal(dom, pol.Flip()) && Normal(codom, pol)
    case Forall(_, kind, body) => (pol.Positive? ==> kind.EnumRowsKind?) && Normal(body, pol)
    case Array(elem) => (pol.Positive? ==> !elem.Dyn?) && Normal(elem, pol)
    case Dict(field, _) => (pol.Positive? ==> !field.Dyn?) && Normal(field, pol)
    case Record(rows) => (pol.Positive? ==> ChecksSomething(rows)) && NormalRows(rows, pol)
    case Enum(rows) => (pol.Positive? ==> !AllDyn(rows)) && NormalCases(rows, pol)
    case _ => true
  }

  /**
   In positive position a record lists a field or ends in a variable, and is open. Unless it ends in a
   variable, each listed field has something to check.
   */
  predicate ChecksSomething(rows: RecordRows) {
    !rows.RDyn? && !TailOf(rows).REmpty? && (TailOf(rows).RVar? || NoneDyn(rows))
  }

  predicate NoneDyn(rows: RecordRows) {
    rows.RExtend? ==> !rows.typ.Dyn? && NoneDyn(rows.tail)
  }

  predicate NormalRows(rows: RecordRows, pol: Polarity)
    decreases rows
  {
    rows.RExtend? ==> Normal(rows.typ, pol) && NormalRows(rows.tail, pol)
  }

  /** Every argument is dynamic, and no variable ends the rows. */
  predicate AllDyn(rows: EnumRows) {
    match rows
    case EEmpty => true
    case EVar(_) => false
    case EExtend(_, arg, tail) => (arg.Some? ==> arg.value.Dyn?) && AllDyn(tail)
  }

  predicate NormalCases(rows: EnumRows, pol: Polarity)
    decreases rows
  {
    rows.EExtend? ==> (rows.arg.Some? ==> Normal(rows.arg.value, pol)) && NormalCases(rows.tail, pol)
  }

  // Simplification gives normal forms

  lemma {:induction false} SimplifiedIsNormal(t: Type, vars: SimplifyVars, pol: Polarity, s: State)
    ensures Normal(SimplifyType(t, vars, pol, s).0, pol)
    decreases t
  {
    match t
    case Arrow(dom, codom) =>
      SimplifiedIsNormal(dom, vars, pol.Flip(), s);
      SimplifiedIsNormal(codom, vars, pol, SimplifyType(dom, vars, pol.Flip(), s).1);
    case Forall(v, kind, body) =>
      SimplifiedIsNormal(body, if Elided(kind, pol) then Elide(vars, v, kind) else vars, pol, s);
    case Array(elem) => SimplifiedIsNormal(elem, vars, pol, s);
    case Dict(field, _) => SimplifiedIsNormal(field, vars, pol, s);
    case Record(rows) => SimplifiedRowsAreNormal(rows, vars, pol, s, Declared(rows), CanElide(rows, vars));
    case Enum(rows) => SimplifiedCasesAreNormal(rows, vars, pol, s);
    case _ =>
  }

  lemma {:induction false} SimplifiedRowsAreNormal(rows: RecordRows, vars: SimplifyVars, pol: Polarity, s: State,
                                                   declared: set<Ident>, canElide: bool)
    requires canElide == CanElide(rows, vars)
    ensures
      var rows' := SimplifyRecord(rows, vars, pol, s, declared, canElide).0;
      && NormalRows(rows', pol)
      && (pol.Positive? ==> !TailOf(rows').REmpty? && (TailOf(rows').RVar? || NoneDyn(rows')))
    decreases rows
  {
    if rows.RExtend? {
      var s1 := SimplifyType(rows.typ, vars, pol, s).1;
      SimplifiedIsNormal(rows.typ, vars, pol, s);
      SimplifiedRowsAreNormal(rows.tail, vars, pol, s1, declared, canElide);
      TailStays(rows.tail, vars, pol, s1, declared, canElide);
    }
  }

  /** In positive position a tail variable stays exactly when nothing may be elided. */
  lemma {:induction false} TailStays(rows: RecordRows, vars: SimplifyVars, pol: Polarity, s: State,
                                     declared: set<Ident>, canElide: bool)
    ensures pol.Positive? ==>
              (TailOf(SimplifyRecord(rows, vars, pol, s, declared, canElide).0).RVar? <==> !CanElide(rows, vars))
    decreases rows
  {
    if rows.RExtend? {
      TailStays(rows.tail, vars, pol, SimplifyType(rows.typ, vars, pol, s).1, declared, canElide);
    }
  }

  lemma {:induction false} SimplifiedCasesAreNormal(rows: EnumRows, vars: SimplifyVars, pol: Polarity, s: State)
    ensures
      var (rows', elide, s') := SimplifyEnum(rows, vars, pol, s);
      NormalCases(rows', pol) && (elide <==> AllDyn(rows'))
    decreases rows
  {
    if rows.EExtend? {
      SimplifiedCasesAreNormal(rows.tail, vars, pol, s);
      if rows.arg.Some? {
        SimplifiedIsNormal(rows.arg.value, vars, pol, SimplifyEnum(rows.tail, vars, pol, s).2);
      }
    }
  }

  // Normal forms are what simplification leaves alone

  lemma {:induction false} NormalIsKept(t: Type, pol: Polarity, s: State)
    requires Normal(t, pol)
    ensures SimplifyType(t, NO_VARS, pol, s) == (t, s)
    decreases t
  {
    match t
    case Arrow(dom, codom) =>
      NormalIsKept(dom, pol.Flip(), s);
      NormalIsKept(codom, pol, s);
    case Forall(_, _, body) => NormalIsKept(body, pol, s);
    case Array(elem) => NormalIsKept(elem, pol, s);
    case Dict(field, _) => NormalIsKept(field, pol, s);
    case Record(rows) => NormalRowsAreKept(rows, pol, s, Declared(rows), CanElide(rows, NO_VARS));
    case Enum(rows) => NormalCasesAreKept(rows, pol, s);
    case _ =>
  }

  lemma {:induction false} NormalRowsAreKept(rows: RecordRows, pol: Polarity, s: State, declared: set<Ident>,
                                             canElide: bool)
    requires NormalRows(rows, pol) && canElide == CanElide(rows, NO_VARS)
    requires pol.Positive? ==> !TailOf(rows).REmpty? && (TailOf(rows).RVar? || NoneDyn(rows))
    ensures SimplifyRecord(rows, NO_VARS, pol, s, declared, canElide) == (rows, s)
    decreases rows
  {
    if rows.RExtend? {
      NormalIsKept(rows.typ, pol, s);
      NormalRowsAreKept(rows.tail, pol, s, declared, canElide);
    }
  }

  lemma {:induction false} NormalCasesAreKept(rows: EnumRows, pol: Polarity, s: State)
    requires NormalCases(rows, pol)
    ensures SimplifyEnum(rows, NO_VARS, pol, s) == (rows, AllDyn(rows), s)
    decreases rows
  {
    if rows.EExtend? {
      NormalCasesAreKept(rows.tail, pol, s);
      if rows.arg.Some? {
        NormalIsKept(rows.arg.value, pol, s);
      }
    }
  }

  /** A type is as simple as it gets exactly when it is in normal form. */
  lemma NormalExactlyWhenKept(t: Type, pol: Polarity, s: State)
    ensures Normal(t, pol) <==> SimplifyType(t, NO_VARS, pol, s).0 == t
  {
    SimplifiedIsNormal(t, NO_VARS, pol, s);
    if Normal(t, pol) {
      NormalIsKept(t, pol, s);
    }
  }

  /** Simplifying a second time does nothing: no variable is left to remove, and no tail is generated. */
  lemma SimplifyTwice(t: Type, vars: SimplifyVars, pol: Polarity, s: State, again: State)
    ensures
      var t' := SimplifyType(t, vars, pol, s).0;
      SimplifyType(t', NO_VARS, pol, again) == (t', again)
  {
    SimplifiedIsNormal(t, vars, pol, s);
    NormalIsKept(SimplifyType(t, vars, pol, s).0, pol, again);
  }
}
