/** The record tails generated while a type is simplified. */
module FreshTails {
  import opened Types
  import opened Blame
  import opened Simplify

  ghost predicate NewIn(x: Ident, s: State, s': State) {
    x.Generated? && s.next <= x.index < s'.next
  }

  /** Simplification only adds entries, for identifiers generated on the way, and never overwrites one. */
  ghost predicate Grows(s: State, s': State) {
    && s.next <= s'.next
    && (forall x <- s.env :: !NewIn(x, s, s') ==> x in s'.env && s'.env[x] == s.env[x])
    && (forall x <- s'.env :: x in s.env || NewIn(x, s, s'))
    && (forall x: Ident :: NewIn(x, s, s') ==> x in s'.env && s'.env[x].ExcludedOnly?)
  }

  lemma {:induction false} SimplifyGrows(t: Type, vars: SimplifyVars, pol: Polarity, s: State)
    ensures Grows(s, SimplifyType(t, vars, pol, s).1)
    decreases t
  {
    match t
    case Arrow(dom, codom) =>
      SimplifyGrows(dom, vars, pol.Flip(), s);
      SimplifyGrows(codom, vars, pol, SimplifyType(dom, vars, pol.Flip(), s).1);
    case Forall(v, kind, body) =>
      SimplifyGrows(body, if Elided(kind, pol) then Elide(vars, v, kind) else vars, pol, s);
    case Record(rows) => RecordGrows(rows, vars, pol, s, Declared(rows), CanElide(rows, vars));
    case Enum(rows) => EnumGrows(rows, vars, pol, s);
    case Dict(field, _) => SimplifyGrows(field, vars, pol, s);
    case Array(elem) => SimplifyGrows(elem, vars, pol, s);
    case _ =>
  }

  lemma {:induction false} RecordGrows(rows: RecordRows, vars: SimplifyVars, pol: Polarity, s: State,
                                       declared: set<Ident>, canElide: bool)
    ensures Grows(s, SimplifyRecord(rows, vars, pol, s, declared, canElide).1)
    decreases rows
  {
    if rows.RExtend? {
      SimplifyGrows(rows.typ, vars, pol, s);
      RecordGrows(rows.tail, vars, pol, SimplifyType(rows.typ, vars, pol, s).1, declared, canElide);
    }
  }

  lemma {:induction false} EnumGrows(rows: EnumRows, vars: SimplifyVars, pol: Polarity, s: State)
    ensures Grows(s, SimplifyEnum(rows, vars, pol, s).2)
    decreases rows
  {
    if rows.EExtend? {
      EnumGrows(rows.tail, vars, pol, s);
      if rows.arg.Some? {
        SimplifyGrows(rows.arg.value, vars, pol, SimplifyEnum(rows.tail, vars, pol, s).2);
      }
    }
  }

  /** `env` binds what was generated between `s` and `s'` as the contract environment does. */
  ghost predicate Provides(env: Env, s: State, s': State) {
    forall x: Ident :: NewIn(x, s, s') ==> x in env && x in s'.env && env[x] == s'.env[x]
  }
}
