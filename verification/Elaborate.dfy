/** The elaboration of a type into a contract built from the builtin ones (core/src/typ.rs). */
module Elaborate {
  import opened Types
  import opened Blame
  import opened Simplify
  import opened FreshTails

  /** Applications of the builtin contracts. */
  datatype Ctr =
    | CDyn | CNumber | CBool | CString | CForeignId
    | CArrayDyn
    | CArray(elem: Ctr)
    | CFuncDyn
    | CFuncDom(dom: Ctr)
    | CFuncCodom(codom: Ctr)
    | CFunc(dom: Ctr, codom: Ctr)
    | CDictDyn
    | CDictType(field: Ctr)
    | CDictContract(field: Ctr)
    | CEmbedded(contract: nat)
    | CForall(key: nat, pol: Polarity, body: Ctr)
    | CForallVar(key: nat)
    | CEnumTail
    | CRecordTail(key: nat, excluded: set<Ident>)
    | CExcludedOnly(excluded: set<Ident>)
    | CEmptyTail | CDynTail
    | CRecord(rows: CtrRows)
    | CEnum(cases: CtrCases)

  datatype CtrRows = RowsEnd(tail: Ctr) | RowsField(id: Ident, ctr: Ctr, rest: CtrRows)

  datatype CtrCases = CasesFail | CasesTail(tail: Ctr) | Case(id: Ident, arg: Option<Ctr>, rest: CtrCases)

  type CtrEnv = map<Ident, Ctr>

  /** `Panicked` stands for the panic on a type that never reaches contract generation. */
  datatype Elab<T> = Done(value: T, next: nat) | UnboundTypeVariable(id: Ident) | Panicked {
    predicate IsFailure() { !Done? }
    function PropagateFailure<U>(): Elab<U>
      requires !Done?
    {
      if Panicked? then Panicked else UnboundTypeVariable(id)
    }
    function Extract(): (T, nat)
      requires Done?
    {
      (value, next)
    }
  }

  function VarCtr(id: Ident, vars: CtrEnv, next: nat): Elab<Ctr> {
    if id in vars then Done(vars[id], next) else UnboundTypeVariable(id)
  }

  function BindCtr(kind: VarKind, key: nat): Ctr {
    match kind
    case TypeKind => CForallVar(key)
    case EnumRowsKind(_) => CEnumTail
    case RecordRowsKind(excluded) => CRecordTail(key, excluded)
  }

  function Subcontract(t: Type, vars: CtrEnv, pol: Polarity, next: nat): Elab<Ctr>
    decreases t
  {
    match t
    case Dyn => Done(CDyn, next)
    case Number => Done(CNumber, next)
    case Bool => Done(CBool, next)
    case String => Done(CString, next)
    case ForeignId => Done(CForeignId, next)
    case Wildcard(_) => Done(CDyn, next)
    case Symbol => Panicked
    case Contract(c) => Done(CEmbedded(c), next)
    case Var(id) => VarCtr(id, vars, next)
    case Array(elem) =>
      if elem.Dyn? then Done(CArrayDyn, next) else
      var (c, n) :- Subcontract(elem, vars, pol, next);
      Done(CArray(c), n)
    case Arrow(dom, codom) =>
      if dom.Dyn? && codom.Dyn? then Done(CFuncDyn, next)
      else if dom.Dyn? then
        var (c, n) :- Subcontract(codom, vars, pol, next);
        Done(CFuncCodom(c), n)
      else if codom.Dyn? then
        var (c, n) :- Subcontract(dom, vars, pol.Flip(), next);
        Done(CFuncDom(c), n)
      else
        var (d, n) :- Subcontract(dom, vars, pol.Flip(), next);
        var (c, m) :- Subcontract(codom, vars, pol, n);
        Done(CFunc(d, c), m)
    case Forall(v, kind, body) =>
      var (c, n) :- Subcontract(body, vars[v := BindCtr(kind, next)], pol, next + 1);
      Done(CForall(next, pol, c), n)
    case Dict(field, flavour) =>
      if field.Dyn? then Done(CDictDyn, next) else
      var (c, n) :- Subcontract(field, vars, pol, next);
      Done(if flavour.ContractFlavour? then CDictContract(c) else CDictType(c), n)
    case Record(rows) =>
      var (r, n) :- SubcontractRecord(rows, vars, pol, next);
      Done(CRecord(r), n)
    case Enum(rows) =>
      var (r, n) :- SubcontractEnum(rows, vars, pol, next);
      Done(CEnum(r), n)
  }

  function SubcontractRecord(rows: RecordRows, vars: CtrEnv, pol: Polarity, next: nat): Elab<CtrRows>
    decreases rows
  {
    match rows
    case REmpty => Done(RowsEnd(CEmptyTail), next)
    case RDyn => Done(RowsEnd(CDynTail), next)
    case RVar(id) =>
      var (c, n) :- VarCtr(id, vars, next);
      Done(RowsEnd(c), n)
    case RExtend(id, typ, tail) =>
      var (c, n) :- Subcontract(typ, vars, pol, next);
      var (r, m) :- SubcontractRecord(tail, vars, pol, n);
      Done(RowsField(id, c, r), m)
  }

  function SubcontractEnum(rows: EnumRows, vars: CtrEnv, pol: Polarity, next: nat): Elab<CtrCases>
    decreases rows
  {
    match rows
    case EEmpty => Done(CasesFail, next)
    case EVar(id) =>
      var (c, n) :- VarCtr(id, vars, next);
      Done(CasesTail(c), n)
    case EExtend(id, None, tail) =>
      var (r, n) :- SubcontractEnum(tail, vars, pol, next);
      Done(Case(id, None, r), n)
    case EExtend(id, Some(typ), tail) =>
      var (c, n) :- Subcontract(typ, vars, pol, next);
      var (r, m) :- SubcontractEnum(tail, vars, pol, n);
      Done(Case(id, Some(c), r), m)
  }

  /** The contracts of the tail variables generated by simplification. */
  function TailContracts(env: Env): CtrEnv {
    map x | x in env && env[x].ExcludedOnly? :: CExcludedOnly(env[x].excluded)
  }

  /** The contract of a type, and that of a static annotation. */
  function ContractOf(t: Type): Elab<Ctr> {
    Subcontract(t, map[], Positive, 0)
  }

  function ContractStatic(t: Type, freshIndex: nat): Elab<Ctr> {
    var (t', s) := Simplified(t, freshIndex);
    Subcontract(t', TailContracts(s.env), Positive, 0)
  }

  // Sealing keys

  /** The keys of the quantifiers of a contract, outermost first and from left to right. */
  function Keys(c: Ctr): seq<nat>
    decreases c
  {
    match c
    case CForall(key, _, body) => [key] + Keys(body)
    case CArray(elem) => Keys(elem)
    case CFuncDom(dom) => Keys(dom)
    case CFuncCodom(codom) => Keys(codom)
    case CFunc(dom, codom) => Keys(dom) + Keys(codom)
    case CDictType(field) => Keys(field)
    case CDictContract(field) => Keys(field)
    case CRecord(rows) => RowKeys(rows)
    case CEnum(cases) => CaseKeys(cases)
    case _ => []
  }

  function RowKeys(rows: CtrRows): seq<nat>
    decreases rows
  {
    if rows.RowsField? then Keys(rows.ctr) + RowKeys(rows.rest) else Keys(rows.tail)
  }

  function CaseKeys(cases: CtrCases): seq<nat>
    decreases cases
  {
    match cases
    case CasesFail => []
    case CasesTail(tail) => Keys(tail)
    case Case(_, arg, rest) => (if arg.Some? then Keys(arg.value) else []) + CaseKeys(rest)
  }

  function Interval(lo: nat, hi: nat): seq<nat>
    requires lo <= hi
  {
    seq(hi - lo, i requires 0 <= i < hi - lo => lo + i)
  }

  lemma IntervalsJoin(lo: nat, mid: nat, hi: nat)
    requires lo <= mid <= hi
    ensures Interval(lo, mid) + Interval(mid, hi) == Interval(lo, hi)
    ensures Interval(lo, lo) == []
    ensures lo < hi ==> [lo] + Interval(lo + 1, hi) == Interval(lo, hi)
  {
  }

  ghost predicate NoKeys(vars: CtrEnv) {
    forall x <- vars :: Keys(vars[x]) == []
  }

  /** Quantifiers get pairwise distinct keys, which fill an interval. */
  lemma {:induction false} KeysFillInterval(t: Type, vars: CtrEnv, pol: Polarity, next: nat)
    requires NoKeys(vars) && Subcontract(t, vars, pol, next).Done?
    ensures
      var Done(c, n) := Subcontract(t, vars, pol, next);
      next <= n && Keys(c) == Interval(next, n)
    decreases t, 1
  {
    hide Interval;
    IntervalsJoin(next, next, next);
    match t
    case Array(elem) => if !elem.Dyn? { KeysFillInterval(elem, vars, pol, next); }
    case Arrow(dom, codom) => ArrowKeys(dom, codom, vars, pol, next);
    case Forall(v, kind, body) =>
      KeysFillInterval(body, vars[v := BindCtr(kind, next)], pol, next + 1);
      IntervalsJoin(next, next, Subcontract(t, vars, pol, next).next);
    case Dict(field, _) => if !field.Dyn? { KeysFillInterval(field, vars, pol, next); }
    case Record(rows) => RowKeysFillInterval(rows, vars, pol, next);
    case Enum(rows) => CaseKeysFillInterval(rows, vars, pol, next);
    case _ =>
  }

  lemma {:induction false} ArrowKeys(dom: Type, codom: Type, vars: CtrEnv, pol: Polarity, next: nat)
    requires NoKeys(vars) && Subcontract(Arrow(dom, codom), vars, pol, next).Done?
    ensures
      var Done(c, n) := Subcontract(Arrow(dom, codom), vars, pol, next);
      next <= n && Keys(c) == Interval(next, n)
    decreases Arrow(dom, codom), 0
  {
    hide Interval;
    IntervalsJoin(next, next, next);
    if dom.Dyn? {
      if !codom.Dyn? { KeysFillInterval(codom, vars, pol, next); }
    } else {
      KeysFillInterval(dom, vars, pol.Flip(), next);
      if !codom.Dyn? {
        var n := Subcontract(dom, vars, pol.Flip(), next).next;
        KeysFillInterval(codom, vars, pol, n);
        IntervalsJoin(next, n, Subcontract(codom, vars, pol, n).next);
      }
    }
  }

  lemma {:induction false} RowKeysFillInterval(rows: RecordRows, vars: CtrEnv, pol: Polarity, next: nat)
    requires NoKeys(vars) && SubcontractRecord(rows, vars, pol, next).Done?
    ensures
      var Done(r, n) := SubcontractRecord(rows, vars, pol, next);
      next <= n && RowKeys(r) == Interval(next, n)
    decreases rows, 0
  {
    hide Interval;
    IntervalsJoin(next, next, next);
    if rows.RExtend? {
      var n := Subcontract(rows.typ, vars, pol, next).next;
      KeysFillInterval(rows.typ, vars, pol, next);
      RowKeysFillInterval(rows.tail, vars, pol, n);
      IntervalsJoin(next, n, SubcontractRecord(rows.tail, vars, pol, n).next);
    }
  }

  lemma {:induction false} CaseKeysFillInterval(rows: EnumRows, vars: CtrEnv, pol: Polarity, next: nat)
    requires NoKeys(vars) && SubcontractEnum(rows, vars, pol, next).Done?
    ensures
      var Done(r, n) := SubcontractEnum(rows, vars, pol, next);
      next <= n && CaseKeys(r) == Interval(next, n)
    decreases rows, 0
  {
    hide Interval;
    IntervalsJoin(next, next, next);
    if rows.EExtend? {
      if rows.arg.Some? {
        var n := Subcontract(rows.arg.value, vars, pol, next).next;
        KeysFillInterval(rows.arg.value, vars, pol, next);
        CaseKeysFillInterval(rows.tail, vars, pol, n);
        IntervalsJoin(next, n, SubcontractEnum(rows.tail, vars, pol, n).next);
      } else {
        CaseKeysFillInterval(rows.tail, vars, pol, next);
      }
    }
  }

  // Bound variables

  /** Every variable is removed by simplification or has a contract. */
  ghost predicate Covered(env: Env, simplified: SimplifyVars, vars: CtrEnv) {
    forall x <- env ::
      match env[x]
      case SealVar(_, _) => x in simplified.types || x in vars
      case SealTail(_, _, _) => x in simplified.rows || x in vars
      case _ => x in vars
  }

  ghost predicate HasNew(vars: CtrEnv, s: State, s': State) {
    forall x: Ident :: NewIn(x, s, s') ==> x in vars
  }

  lemma ArrowIsBound(dom: Type, codom: Type, vars: CtrEnv, pol: Polarity, next: nat)
    requires !Subcontract(dom, vars, pol.Flip(), next).UnboundTypeVariable?
    requires !Subcontract(codom, vars, pol, next).UnboundTypeVariable?
    requires
      var d := Subcontract(dom, vars, pol.Flip(), next);
      d.Done? ==> !Subcontract(codom, vars, pol, d.next).UnboundTypeVariable?
    ensures !Subcontract(Arrow(dom, codom), vars, pol, next).UnboundTypeVariable?
  {
  }

  lemma {:induction false} SimplifiedArrowIsBound(dom: Type, codom: Type, env: Env, simplified: SimplifyVars,
                                                  vars: CtrEnv, pol: Polarity, s: State, next: nat)
    requires WellKinded(Arrow(dom, codom), env, pol) && Covered(env, simplified, vars)
    requires HasNew(vars, s, SimplifyType(Arrow(dom, codom), simplified, pol, s).1)
    ensures !Subcontract(SimplifyType(Arrow(dom, codom), simplified, pol, s).0, vars, pol, next).UnboundTypeVariable?
    decreases Arrow(dom, codom), 0
  {
    hide SimplifyType, Subcontract, Covered;
    var (dom', s1) := SimplifyType(dom, simplified, pol.Flip(), s);
    ArrowSimplifies(dom, codom, simplified, pol, s);
    SimplifyGrows(dom, simplified, pol.Flip(), s);
    SimplifyGrows(codom, simplified, pol, s1);
    SimplifiedIsBound(dom, env, simplified, vars, pol.Flip(), s, next);
    SimplifiedIsBound(codom, env, simplified, vars, pol, s1, next);
    var d := Subcontract(dom', vars, pol.Flip(), next);
    if d.Done? {
      SimplifiedIsBound(codom, env, simplified, vars, pol, s1, d.next);
    }
    ArrowIsBound(dom', SimplifyType(codom, simplified, pol, s1).0, vars, pol, next);
  }

  lemma {:induction false} SimplifiedIsBound(t: Type, env: Env, simplified: SimplifyVars, vars: CtrEnv, pol: Polarity,
                                             s: State, next: nat)
    requires WellKinded(t, env, pol) && Covered(env, simplified, vars)
    requires HasNew(vars, s, SimplifyType(t, simplified, pol, s).1)
    ensures !Subcontract(SimplifyType(t, simplified, pol, s).0, vars, pol, next).UnboundTypeVariable?
    decreases t, 1
  {
    match t
    case Arrow(dom, codom) => SimplifiedArrowIsBound(dom, codom, env, simplified, vars, pol, s, next);
    case Forall(v, kind, body) =>
      var env1 := env[v := Bind(v, kind, pol)];
      if Elided(kind, pol) {
        SimplifiedIsBound(body, env1, Elide(simplified, v, kind), vars, pol, s, next);
      } else {
        SimplifiedIsBound(body, env1, simplified, vars[v := BindCtr(kind, next)], pol, s, next + 1);
      }
    case Array(elem) => SimplifiedIsBound(elem, env, simplified, vars, pol, s, next);
    case Dict(field, _) => SimplifiedIsBound(field, env, simplified, vars, pol, s, next);
    case Record(rows) =>
      SimplifiedRecordIsBound(rows, env, simplified, vars, pol, s, next, Declared(rows), CanElide(rows, simplified));
    case Enum(rows) => SimplifiedEnumIsBound(rows, env, simplified, vars, pol, s, next);
    case _ =>
  }

  lemma {:induction false} SimplifiedRecordIsBound(rows: RecordRows, env: Env, simplified: SimplifyVars, vars: CtrEnv,
                                                   pol: Polarity, s: State,
                                                   next: nat, declared: set<Ident>, canElide: bool)
    requires WellKindedRecord(rows, env, pol) && Covered(env, simplified, vars)
    requires HasNew(vars, s, SimplifyRecord(rows, simplified, pol, s, declared, canElide).1)
    ensures !SubcontractRecord(SimplifyRecord(rows, simplified, pol, s, declared, canElide).0, vars, pol,
                               next).UnboundTypeVariable?
    decreases rows
  {
    if rows.RExtend? {
      var (typ', s1) := SimplifyType(rows.typ, simplified, pol, s);
      SimplifyGrows(rows.typ, simplified, pol, s);
      RecordGrows(rows.tail, simplified, pol, s1, declared, canElide);
      SimplifiedIsBound(rows.typ, env, simplified, vars, pol, s, next);
      SimplifiedRecordIsBound(rows.tail, env, simplified, vars, pol, s1, next, declared, canElide);
      var c := Subcontract(typ', vars, pol, next);
      if c.Done? {
        SimplifiedRecordIsBound(rows.tail, env, simplified, vars, pol, s1, c.next, declared, canElide);
      }
    }
  }

  lemma {:induction false} SimplifiedEnumIsBound(rows: EnumRows, env: Env, simplified: SimplifyVars, vars: CtrEnv,
                                                 pol: Polarity, s: State, next: nat)
    requires WellKindedEnum(rows, env, pol) && Covered(env, simplified, vars)
    requires HasNew(vars, s, SimplifyEnum(rows, simplified, pol, s).2)
    ensures !SubcontractEnum(SimplifyEnum(rows, simplified, pol, s).0, vars, pol, next).UnboundTypeVariable?
    decreases rows
  {
    if rows.EExtend? {
      var (tail', _, s1) := SimplifyEnum(rows.tail, simplified, pol, s);
      EnumGrows(rows.tail, simplified, pol, s);
      if rows.arg.Some? {
        SimplifyGrows(rows.arg.value, simplified, pol, s1);
      }
      SimplifiedEnumIsBound(rows.tail, env, simplified, vars, pol, s, next);
      if rows.arg.Some? {
        var typ' := SimplifyType(rows.arg.value, simplified, pol, s1).0;
        SimplifiedIsBound(rows.arg.value, env, simplified, vars, pol, s1, next);
        var c := Subcontract(typ', vars, pol, next);
        if c.Done? {
          SimplifiedEnumIsBound(rows.tail, env, simplified, vars, pol, s, c.next);
        }
      }
    }
  }

  /** The contract of a static annotation never mentions an unbound variable. */
  lemma ContractStaticIsClosed(t: Type, freshIndex: nat)
    requires WellKinded(t, map[], Positive)
    ensures !ContractStatic(t, freshIndex).UnboundTypeVariable?
  {
    var s := State(map[], freshIndex);
    SimplifyGrows(t, NO_VARS, Positive, s);
    SimplifiedIsBound(t, map[], NO_VARS, TailContracts(Simplified(t, freshIndex).1.env), Positive, s, 0);
  }
}
