/**
 The sealing-key discipline, on the syntax of contracts.

 A type and its contract are both read as a list of marks, in the order of their quantifiers and
 variables. A quantifier is marked with a polarity: in a type, by counting the arrow domains on the
 way to it; in a contract, the one that is stored. A variable is marked with the number of quantifiers
 between it and its own: in a type, the innermost with its name; in a contract, the one with its key.
 */
module SealingKeys {
  import opened Types
  import opened Simplify
  import opened Elaborate
  import opened ElaborationOutcome

  datatype Mark = Quantifier(pol: Polarity) | Occurrence(level: nat)

  datatype Binder = Binder(name: Ident, kind: VarKind)

  /** The innermost quantifier with a name, counted from the inside. */
  function LevelOf(x: Ident, scope: seq<Binder>): (r: Option<nat>)
    ensures r.Some? ==> r.value < |scope| && scope[r.value].name == x
  {
    if scope == [] then None
    else if scope[0].name == x then Some(0)
    else
      match LevelOf(x, scope[1..])
      case None => None
      case Some(n) => Some(n + 1)
  }

  /** Variables of enum rows carry no key. */
  function VarMarks(x: Ident, scope: seq<Binder>): seq<Mark> {
    match LevelOf(x, scope)
    case None => []
    case Some(n) => if scope[n].kind.EnumRowsKind? then [] else [Occurrence(n)]
  }

  /** The polarity after a number of steps into the domain of an arrow. */
  function Parity(start: Polarity, steps: nat): Polarity {
    if steps % 2 == 0 then start else start.Flip()
  }

  function TypeMarks(t: Type, scope: seq<Binder>, start: Polarity, steps: nat): seq<Mark>
    decreases t
  {
    match t
    case Forall(x, kind, body) =>
      [Quantifier(Parity(start, steps))] + TypeMarks(body, [Binder(x, kind)] + scope, start, steps)
    case Arrow(dom, codom) => TypeMarks(dom, scope, start, steps + 1) + TypeMarks(codom, scope, start, steps)
    case Var(id) => VarMarks(id, scope)
    case Array(elem) => TypeMarks(elem, scope, start, steps)
    case Dict(field, _) => TypeMarks(field, scope, start, steps)
    case Record(rows) => RowMarks(rows, scope, start, steps)
    case Enum(rows) => EnumMarks(rows, scope, start, steps)
    case _ => []
  }

  function RowMarks(rows: RecordRows, scope: seq<Binder>, start: Polarity, steps: nat): seq<Mark>
    decreases rows
  {
    match rows
    case RVar(id) => VarMarks(id, scope)
    case RExtend(_, typ, tail) => TypeMarks(typ, scope, start, steps) + RowMarks(tail, scope, start, steps)
    case _ => []
  }

  function EnumMarks(rows: EnumRows, scope: seq<Binder>, start: Polarity, steps: nat): seq<Mark>
    decreases rows
  {
    match rows
    case EEmpty => []
    case EVar(id) => VarMarks(id, scope)
    case EExtend(_, arg, tail) =>
      (if arg.Some? then TypeMarks(arg.value, scope, start, steps) else []) + EnumMarks(tail, scope, start, steps)
  }

  /** The innermost quantifier with a key; as many as there are if none has it. */
  function KeyLevel(key: nat, keys: seq<nat>): nat {
    if keys == [] || keys[0] == key then 0 else 1 + KeyLevel(key, keys[1..])
  }

  function CtrMarks(c: Ctr, keys: seq<nat>): seq<Mark>
    decreases c
  {
    match c
    case CForall(key, pol, body) => [Quantifier(pol)] + CtrMarks(body, [key] + keys)
    case CForallVar(key) => [Occurrence(KeyLevel(key, keys))]
    case CRecordTail(key, _) => [Occurrence(KeyLevel(key, keys))]
    case CArray(elem) => CtrMarks(elem, keys)
    case CFuncDom(dom) => CtrMarks(dom, keys)
    case CFuncCodom(codom) => CtrMarks(codom, keys)
    case CFunc(dom, codom) => CtrMarks(dom, keys) + CtrMarks(codom, keys)
    case CDictType(field) => CtrMarks(field, keys)
    case CDictContract(field) => CtrMarks(field, keys)
    case CRecord(rows) => CtrRowMarks(rows, keys)
    case CEnum(cases) => CaseMarks(cases, keys)
    case _ => []
  }

  function CtrRowMarks(rows: CtrRows, keys: seq<nat>): seq<Mark>
    decreases rows
  {
    if rows.RowsField? then CtrMarks(rows.ctr, keys) + CtrRowMarks(rows.rest, keys) else CtrMarks(rows.tail, keys)
  }

  function CaseMarks(cases: CtrCases, keys: seq<nat>): seq<Mark>
    decreases cases
  {
    match cases
    case CasesFail => []
    case CasesTail(tail) => CtrMarks(tail, keys)
    case Case(_, arg, rest) => (if arg.Some? then CtrMarks(arg.value, keys) else []) + CaseMarks(rest, keys)
  }

  /**
   The quantifiers in scope have distinct keys below `next`, and each variable has the contract of its
   innermost one.
   */
  ghost predicate InScope(vars: CtrEnv, scope: seq<Binder>, keys: seq<nat>, next: nat) {
    && |keys| == |scope|
    && (forall i | 0 <= i < |keys| :: keys[i] < next)
    && (forall i, j | 0 <= i < j < |keys| :: keys[i] != keys[j])
    && (forall x <- vars ::
          match LevelOf(x, scope)
          case None => vars[x].CExcludedOnly?
          case Some(n) => vars[x] == BindCtr(scope[n].kind, keys[n]))
  }

  lemma {:induction false} KeyLevelOf(keys: seq<nat>, n: nat)
    requires n < |keys| && forall i, j | 0 <= i < j < |keys| :: keys[i] != keys[j]
    ensures KeyLevel(keys[n], keys) == n
  {
    if n > 0 {
      assert keys[0] != keys[n] && keys[1..][n - 1] == keys[n];
      KeyLevelOf(keys[1..], n - 1);
    }
  }

  lemma VarKey(x: Ident, vars: CtrEnv, scope: seq<Binder>, keys: seq<nat>, next: nat)
    requires InScope(vars, scope, keys, next) && x in vars
    ensures CtrMarks(vars[x], keys) == VarMarks(x, scope)
  {
    if LevelOf(x, scope).Some? {
      KeyLevelOf(keys, LevelOf(x, scope).value);
    }
  }

  lemma InScopeInside(x: Ident, kind: VarKind, vars: CtrEnv, scope: seq<Binder>, keys: seq<nat>, next: nat)
    requires InScope(vars, scope, keys, next)
    ensures InScope(vars[x := BindCtr(kind, next)], [Binder(x, kind)] + scope, [next] + keys, next + 1)
  {
    var scope' := [Binder(x, kind)] + scope;
    assert scope'[1..] == scope;
  }

  lemma InScopeLater(vars: CtrEnv, scope: seq<Binder>, keys: seq<nat>, next: nat, later: nat)
    requires InScope(vars, scope, keys, next) && next <= later
    ensures InScope(vars, scope, keys, later)
  {
  }

  lemma {:induction false} NextGrows(t: Type, vars: CtrEnv, pol: Polarity, next: nat)
    ensures Subcontract(t, vars, pol, next).Done? ==> next <= Subcontract(t, vars, pol, next).next
    decreases t, 1
  {
    match t
    case Array(elem) => NextGrows(elem, vars, pol, next);
    case Arrow(dom, codom) => NextGrowsArrow(dom, codom, vars, pol, next);
    case Forall(v, kind, body) => NextGrows(body, vars[v := BindCtr(kind, next)], pol, next + 1);
    case Dict(field, _) => NextGrows(field, vars, pol, next);
    case Record(rows) => NextGrowsRecord(rows, vars, pol, next);
    case Enum(rows) => NextGrowsEnum(rows, vars, pol, next);
    case _ =>
  }

  lemma {:induction false} NextGrowsArrow(dom: Type, codom: Type, vars: CtrEnv, pol: Polarity, next: nat)
    ensures Subcontract(Arrow(dom, codom), vars, pol, next).Done? ==>
            next <= Subcontract(Arrow(dom, codom), vars, pol, next).next
    decreases Arrow(dom, codom), 0
  {
    hide Subcontract;
    if Subcontract(Arrow(dom, codom), vars, pol, next).Done? {
      ArrowNext(dom, codom, vars, pol, next);
      NextGrows(dom, vars, pol.Flip(), next);
      NextGrows(codom, vars, pol, Subcontract(dom, vars, pol.Flip(), next).next);
    }
  }

  /** A part that is specialised away takes no key. */
  lemma ArrowNext(dom: Type, codom: Type, vars: CtrEnv, pol: Polarity, next: nat)
    requires Subcontract(Arrow(dom, codom), vars, pol, next).Done?
    ensures
      var d := Subcontract(dom, vars, pol.Flip(), next);
      d.Done? &&
      var c := Subcontract(codom, vars, pol, d.next);
      c.Done? && c.next == Subcontract(Arrow(dom, codom), vars, pol, next).next
  {
  }

  lemma {:induction false} NextGrowsRecord(rows: RecordRows, vars: CtrEnv, pol: Polarity, next: nat)
    ensures SubcontractRecord(rows, vars, pol, next).Done? ==> next <= SubcontractRecord(rows, vars, pol, next).next
    decreases rows
  {
    if rows.RExtend? {
      NextGrows(rows.typ, vars, pol, next);
      var c := Subcontract(rows.typ, vars, pol, next);
      if c.Done? { NextGrowsRecord(rows.tail, vars, pol, c.next); }
    }
  }

  lemma {:induction false} NextGrowsEnum(rows: EnumRows, vars: CtrEnv, pol: Polarity, next: nat)
    ensures SubcontractEnum(rows, vars, pol, next).Done? ==> next <= SubcontractEnum(rows, vars, pol, next).next
    decreases rows
  {
    if rows.EExtend? {
      if rows.arg.Some? {
        NextGrows(rows.arg.value, vars, pol, next);
        var c := Subcontract(rows.arg.value, vars, pol, next);
        if c.Done? { NextGrowsEnum(rows.tail, vars, pol, c.next); }
      } else {
        NextGrowsEnum(rows.tail, vars, pol, next);
      }
    }
  }

  /**
   Every occurrence of a type or record-row variable has the key of the contract made for its innermost
   quantifier, and every quantifier stores the parity of the arrow domains on its path.
   */
  lemma {:induction false} KeysFollowBinders(t: Type, vars: CtrEnv, scope: seq<Binder>, keys: seq<nat>, start: Polarity,
                                             steps: nat, next: nat)
    requires InScope(vars, scope, keys, next) && Subcontract(t, vars, Parity(start, steps), next).Done?
    ensures CtrMarks(Subcontract(t, vars, Parity(start, steps), next).value, keys) == TypeMarks(t, scope, start, steps)
    decreases t, 1
  {
    hide InScope, Parity, BindCtr;
    var pol := Parity(start, steps);
    match t
    case Var(id) => VarKey(id, vars, scope, keys, next);
    case Array(elem) => if !elem.Dyn? { KeysFollowBinders(elem, vars, scope, keys, start, steps, next); }
    case Arrow(dom, codom) => ArrowKeysFollow(dom, codom, vars, scope, keys, start, steps, next);
    case Forall(x, kind, body) =>
      InScopeInside(x, kind, vars, scope, keys, next);
      KeysFollowBinders(body, vars[x := BindCtr(kind, next)], [Binder(x, kind)] + scope, [next] + keys, start, steps,
                        next + 1);
    case Dict(field, _) => if !field.Dyn? { KeysFollowBinders(field, vars, scope, keys, start, steps, next); }
    case Record(rows) => RowKeysFollow(rows, vars, scope, keys, start, steps, next);
    case Enum(rows) => CaseKeysFollow(rows, vars, scope, keys, start, steps, next);
    case _ =>
  }

  /** The marks of the contract of an arrow; the specialised contracts leave out parts without marks. */
  lemma ArrowCtrMarks(dom: Type, codom: Type, vars: CtrEnv, pol: Polarity, next: nat, keys: seq<nat>)
    requires Subcontract(Arrow(dom, codom), vars, pol, next).Done?
    ensures
      var d := Subcontract(dom, vars, pol.Flip(), next);
      d.Done? &&
      var c := Subcontract(codom, vars, pol, d.next);
      && c.Done? && (dom.Dyn? ==> d.next == next)
      && CtrMarks(Subcontract(Arrow(dom, codom), vars, pol, next).value, keys) ==
         CtrMarks(d.value, keys) + CtrMarks(c.value, keys)
  {
  }

  lemma {:induction false} ArrowKeysFollow(dom: Type, codom: Type, vars: CtrEnv, scope: seq<Binder>, keys: seq<nat>,
                                           start: Polarity, steps: nat, next: nat)
    requires InScope(vars, scope, keys, next) && Subcontract(Arrow(dom, codom), vars, Parity(start, steps), next).Done?
    ensures CtrMarks(Subcontract(Arrow(dom, codom), vars, Parity(start, steps), next).value, keys) ==
            TypeMarks(Arrow(dom, codom), scope, start, steps)
    decreases Arrow(dom, codom), 0
  {
    hide InScope, Subcontract, CtrMarks;
    var pol := Parity(start, steps);
    assert Parity(start, steps + 1) == pol.Flip();
    ArrowCtrMarks(dom, codom, vars, pol, next, keys);
    NextGrows(dom, vars, pol.Flip(), next);
    var n := Subcontract(dom, vars, pol.Flip(), next).next;
    InScopeLater(vars, scope, keys, next, n);
    KeysFollowBinders(dom, vars, scope, keys, start, steps + 1, next);
    KeysFollowBinders(codom, vars, scope, keys, start, steps, n);
  }

  lemma {:induction false} RowKeysFollow(rows: RecordRows, vars: CtrEnv, scope: seq<Binder>, keys: seq<nat>,
                                         start: Polarity, steps: nat, next: nat)
    requires InScope(vars, scope, keys, next) && SubcontractRecord(rows, vars, Parity(start, steps), next).Done?
    ensures CtrRowMarks(SubcontractRecord(rows, vars, Parity(start, steps), next).value, keys) ==
            RowMarks(rows, scope, start, steps)
    decreases rows
  {
    hide InScope;
    var pol := Parity(start, steps);
    match rows
    case RVar(id) => VarKey(id, vars, scope, keys, next);
    case RExtend(_, typ, tail) =>
      var n := Subcontract(typ, vars, pol, next).next;
      KeysFollowBinders(typ, vars, scope, keys, start, steps, next);
      NextGrows(typ, vars, pol, next);
      InScopeLater(vars, scope, keys, next, n);
      RowKeysFollow(tail, vars, scope, keys, start, steps, n);
    case _ =>
  }

  lemma {:induction false} CaseKeysFollow(rows: EnumRows, vars: CtrEnv, scope: seq<Binder>, keys: seq<nat>,
                                          start: Polarity, steps: nat, next: nat)
    requires InScope(vars, scope, keys, next) && SubcontractEnum(rows, vars, Parity(start, steps), next).Done?
    ensures CaseMarks(SubcontractEnum(rows, vars, Parity(start, steps), next).value, keys) ==
            EnumMarks(rows, scope, start, steps)
    decreases rows
  {
    hide InScope;
    var pol := Parity(start, steps);
    match rows
    case EEmpty =>
    case EVar(id) => VarKey(id, vars, scope, keys, next);
    case EExtend(_, arg, tail) =>
      var n := next;
      if arg.Some? {
        n := Subcontract(arg.value, vars, pol, next).next;
        KeysFollowBinders(arg.value, vars, scope, keys, start, steps, next);
        NextGrows(arg.value, vars, pol, next);
        InScopeLater(vars, scope, keys, next, n);
      }
      CaseKeysFollow(tail, vars, scope, keys, start, steps, n);
  }

  /** The discipline for the contract of a type: distinct keys from zero on, innermost quantifiers, polarities. */
  lemma ContractKeys(t: Type)
    requires ClosedOver(t, {}) && SymbolFree(t)
    ensures
      var e := ContractOf(t);
      e.Done? && Keys(e.value) == Interval(0, e.next) && CtrMarks(e.value, []) == TypeMarks(t, [], Positive, 0)
  {
    var noVars: CtrEnv := map[];
    assert noVars.Keys == {};
    ElaborationExplained(t, noVars, Positive, 0);
    KeysFillInterval(t, map[], Positive, 0);
    KeysFollowBinders(t, map[], [], [], Positive, 0, 0);
  }

  /** The same for the contract of a static annotation, whose generated tails carry no key. */
  lemma StaticContractKeys(t: Type, freshIndex: nat)
    requires WellKinded(t, map[], Positive) && SymbolsPositive(t, Positive)
    ensures
      var e := ContractStatic(t, freshIndex);
      && e.Done? && Keys(e.value) == Interval(0, e.next)
      && CtrMarks(e.value, []) == TypeMarks(Simplified(t, freshIndex).0, [], Positive, 0)
  {
    ContractStaticExists(t, freshIndex);
    var (t', s) := Simplified(t, freshIndex);
    KeysFillInterval(t', TailContracts(s.env), Positive, 0);
    KeysFollowBinders(t', TailContracts(s.env), [], [], Positive, 0, 0);
  }

  const A := Name("a")

  /** `forall a. forall a. a` has the inner key. */
  lemma InnerKeyMarks()
    ensures TypeMarks(Forall(A, TypeKind, Forall(A, TypeKind, Var(A))), [], Positive, 0) ==
            [Quantifier(Positive), Quantifier(Positive), Occurrence(0)]
  {
    var scope := [Binder(A, TypeKind)];
    assert [Binder(A, TypeKind)] + scope == [Binder(A, TypeKind), Binder(A, TypeKind)];
    assert TypeMarks(Var(A), [Binder(A, TypeKind)] + scope, Positive, 0) == [Occurrence(0)];
    assert TypeMarks(Forall(A, TypeKind, Var(A)), scope, Positive, 0) == [Quantifier(Positive)] + [Occurrence(0)];
  }

  /** The outer key in place of the inner one shows. */
  lemma OuterKeyMarks()
    ensures CtrMarks(CForall(0, Positive, CForall(1, Positive, CForallVar(0))), []) ==
            [Quantifier(Positive), Quantifier(Positive), Occurrence(1)]
  {
    var keys: seq<nat> := [1, 0];
    assert keys[1..] == [0] && KeyLevel(0, keys) == 1;
    var none: seq<nat> := [];
    assert [1] + [0] == keys && [0] + none == [0];
    assert CtrMarks(CForallVar(0), [1] + [0]) == [Occurrence(1)];
    assert CtrMarks(CForall(1, Positive, CForallVar(0)), [0]) == [Quantifier(Positive)] + [Occurrence(1)];
  }

  /** So does another polarity, even on a quantifier that is not used. */
  lemma PolarityMarks()
    ensures CtrMarks(CForall(0, Negative, CNumber), []) != TypeMarks(Forall(A, TypeKind, Number), [], Positive, 0)
  {
    assert CtrMarks(CForall(0, Negative, CNumber), [])[0] == Quantifier(Negative);
    assert TypeMarks(Forall(A, TypeKind, Number), [], Positive, 0)[0] == Quantifier(Positive);
  }
}
