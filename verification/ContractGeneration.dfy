/** Contract generation as the program runs it, on a shared environment and a shared key counter. */
module ContractGeneration {
  import opened Types
  import opened Blame
  import opened Simplify
  import opened Elaborate

  /** The fields of the rows, and whether some may be elided given the variable the rows end with. */
  method PeekTail(rows: RecordRows, vars: SimplifyVars) returns (fields: set<Ident>, canElide: bool)
    ensures fields == Declared(rows) && canElide == CanElide(rows, vars)
  {
    fields, canElide := {}, true;
    var rest := rows;
    while rest.RExtend?
      invariant fields + Declared(rest) == Declared(rows) && TailOf(rest) == TailOf(rows) && canElide
      decreases rest
    {
      fields := fields + {rest.id};
      rest := rest.tail;
    }
    if rest.RVar? && rest.id !in vars.rows {
      canElide := false;
    }
  }

  /** The contract environment threaded through simplification, with the supply of identifiers. */
  class Simplifier {
    var contractEnv: Env
    var next: nat

    constructor (next: nat)
      ensures contractEnv == map[] && this.next == next
    {
      contractEnv, this.next := map[], next;
    }

    ghost function Snapshot(): State
      reads this
    {
      State(contractEnv, next)
    }

    method SimplifyAt(t: Type, vars: SimplifyVars, pol: Polarity) returns (r: Type)
      modifies this
      ensures (r, Snapshot()) == SimplifyType(t, vars, pol, old(Snapshot()))
      decreases t, 1
    {
      match t
      case Arrow(dom, codom) =>
        var dom' := SimplifyAt(dom, vars, pol.Flip());
        var codom' := SimplifyAt(codom, vars, pol);
        r := Arrow(dom', codom');
      case Forall(v, kind, body) =>
        if Elided(kind, pol) {
          r := SimplifyAt(body, Elide(vars, v, kind), pol);
        } else {
          var body' := SimplifyAt(body, vars, pol);
          r := Forall(v, kind, body');
        }
      case Var(id) => r := if id in vars.types then Dyn else t;
      case Record(rows) =>
        var fields, canElide := PeekTail(rows, vars);
        var rows' := SimplifyRows(rows, vars, pol, fields, canElide);
        r := if pol.Positive? && (rows'.RDyn? || rows'.REmpty?) then Dyn else Record(rows');
      case Enum(rows) =>
        var rows', elide := SimplifyCases(rows, vars, pol);
        r := if pol.Positive? && elide then Dyn else Enum(rows');
      case Dict(field, flavour) =>
        var field' := SimplifyAt(field, vars, pol);
        r := if pol.Positive? && field'.Dyn? then Dyn else Dict(field', flavour);
      case Array(elem) =>
        var elem' := SimplifyAt(elem, vars, pol);
        r := if pol.Positive? && elem'.Dyn? then Dyn else Array(elem');
      case _ => r := if pol.Positive? && IsGround(t) then Dyn else t;
    }

    method SimplifyRows(rows: RecordRows, vars: SimplifyVars, pol: Polarity, fields: set<Ident>, canElide: bool)
      returns (r: RecordRows)
      modifies this
      ensures (r, Snapshot()) == SimplifyRecord(rows, vars, pol, old(Snapshot()), fields, canElide)
      decreases rows, 0
    {
      match rows
      case REmpty => r := if pol.Positive? then RDyn else REmpty;
      case RDyn => r := RDyn;
      case RVar(id) =>
        if id !in vars.rows {
          r := rows;
        } else if pol.Positive? {
          r := RDyn;
        } else {
          var excluded := vars.rows[id] - fields;
          if excluded == {} {
            r := RDyn;
          } else {
            var tailVar := Generated(next);
            contractEnv, next := contractEnv[tailVar := ExcludedOnly(excluded)], next + 1;
            r := RVar(tailVar);
          }
        }
      case RExtend(id, typ, tail) =>
        var typ' := SimplifyAt(typ, vars, pol);
        var tail' := SimplifyRows(tail, vars, pol, fields, canElide);
        r := if typ'.Dyn? && pol.Positive? && canElide then tail' else RExtend(id, typ', tail');
    }

    method SimplifyCases(rows: EnumRows, vars: SimplifyVars, pol: Polarity) returns (r: EnumRows, elide: bool)
      modifies this
      ensures (r, elide, Snapshot()) == SimplifyEnum(rows, vars, pol, old(Snapshot()))
      decreases rows, 0
    {
      match rows
      case EEmpty => r, elide := EEmpty, true;
      case EVar(_) => r, elide := rows, false;
      case EExtend(id, arg, tail) =>
        r, elide := SimplifyCases(tail, vars, pol);
        if arg.Some? {
          var typ := SimplifyAt(arg.value, vars, pol);
          r, elide := EExtend(id, Some(typ), r), elide && typ.Dyn?;
        } else {
          r := EExtend(id, None, r);
        }
    }
  }

  /** Adds fields in front of elaborated rows. */
  function Attach(fields: seq<(Ident, Ctr)>, e: Elab<CtrRows>): (r: Elab<CtrRows>)
    ensures r.Done? == e.Done? && (e.Done? ==> r.next == e.next)
  {
    if fields == [] || !e.Done? then e else
    var last := fields[|fields| - 1];
    Attach(fields[..|fields| - 1], Done(RowsField(last.0, last.1, e.value), e.next))
  }

  /** The counter that hands out sealing keys. */
  class Elaborator {
    var sy: nat

    constructor ()
      ensures sy == 0
    {
      sy := 0;
    }

    method Contract(t: Type, vars: CtrEnv, pol: Polarity) returns (r: Elab<Ctr>)
      modifies this
      ensures r == Subcontract(t, vars, pol, old(sy)) && (r.Done? ==> sy == r.next)
      decreases t
    {
      match t
      case Dyn => r := Done(CDyn, sy);
      case Number => r := Done(CNumber, sy);
      case Bool => r := Done(CBool, sy);
      case String => r := Done(CString, sy);
      case ForeignId => r := Done(CForeignId, sy);
      case Wildcard(_) => r := Done(CDyn, sy);
      case Symbol => r := Panicked;
      case Contract(c) => r := Done(CEmbedded(c), sy);
      case Var(id) => r := VarCtr(id, vars, sy);
      case Array(elem) =>
        if elem.Dyn? { return Done(CArrayDyn, sy); }
        var c :- Contract(elem, vars, pol);
        r := Done(CArray(c.0), sy);
      case Arrow(dom, codom) => r := Function(dom, codom, vars, pol);
      case Forall(v, kind, body) =>
        var key := sy;
        sy := sy + 1;
        var c :- Contract(body, vars[v := BindCtr(kind, key)], pol);
        r := Done(CForall(key, pol, c.0), sy);
      case Dict(field, flavour) =>
        if field.Dyn? { return Done(CDictDyn, sy); }
        var c :- Contract(field, vars, pol);
        r := Done(if flavour.ContractFlavour? then CDictContract(c.0) else CDictType(c.0), sy);
      case Record(rows) =>
        var rec :- Rows(rows, vars, pol);
        r := Done(CRecord(rec.0), sy);
      case Enum(rows) =>
        var cases :- Cases(rows, vars, pol);
        r := Done(CEnum(cases.0), sy);
    }

    method Function(dom: Type, codom: Type, vars: CtrEnv, pol: Polarity) returns (r: Elab<Ctr>)
      modifies this
      ensures r == Subcontract(Arrow(dom, codom), vars, pol, old(sy)) && (r.Done? ==> sy == r.next)
      decreases Arrow(dom, codom), 0
    {
      if dom.Dyn? && codom.Dyn? { return Done(CFuncDyn, sy); }
      if dom.Dyn? {
        var c :- Contract(codom, vars, pol);
        return Done(CFuncCodom(c.0), sy);
      }
      var d :- Contract(dom, vars, pol.Flip());
      if codom.Dyn? { return Done(CFuncDom(d.0), sy); }
      var c :- Contract(codom, vars, pol);
      return Done(CFunc(d.0, c.0), sy);
    }

    method Rows(rows: RecordRows, vars: CtrEnv, pol: Polarity) returns (r: Elab<CtrRows>)
      modifies this
      ensures r == SubcontractRecord(rows, vars, pol, old(sy)) && (r.Done? ==> sy == r.next)
      decreases rows
    {
      var rest := rows;
      var fields: seq<(Ident, Ctr)> := [];
      while rest.RExtend?
        invariant rest == rows || rest < rows
        invariant SubcontractRecord(rows, vars, pol, old(sy)) == Attach(fields, SubcontractRecord(rest, vars, pol, sy))
        decreases rest
      {
        var c := Contract(rest.typ, vars, pol);
        if !c.Done? { return c.PropagateFailure(); }
        ghost var after := SubcontractRecord(rest.tail, vars, pol, sy);
        if after.Done? {
          assert (fields + [(rest.id, c.value)])[..|fields|] == fields;
        }
        fields := fields + [(rest.id, c.value)];
        rest := rest.tail;
      }
      var tail: Elab<Ctr> := match rest
        case REmpty => Done(CEmptyTail, sy)
        case RDyn => Done(CDynTail, sy)
        case RVar(id) => VarCtr(id, vars, sy);
      var c :- tail;
      r := Attach(fields, Done(RowsEnd(c.0), sy));
    }

    method Cases(rows: EnumRows, vars: CtrEnv, pol: Polarity) returns (r: Elab<CtrCases>)
      modifies this
      ensures r == SubcontractEnum(rows, vars, pol, old(sy)) && (r.Done? ==> sy == r.next)
      decreases rows
    {
      var rest := rows;
      var branches: seq<(Ident, Option<Ctr>)> := [];
      while rest.EExtend?
        invariant rest == rows || rest < rows
        invariant SubcontractEnum(rows, vars, pol, old(sy)) ==
                  AttachCases(branches, SubcontractEnum(rest, vars, pol, sy))
        decreases rest
      {
        var body: Option<Ctr> := None;
        if rest.arg.Some? {
          var c := Contract(rest.arg.value, vars, pol);
          if !c.Done? { return c.PropagateFailure(); }
          body := Some(c.value);
        }
        ghost var after := SubcontractEnum(rest.tail, vars, pol, sy);
        if after.Done? {
          assert (branches + [(rest.id, body)])[..|branches|] == branches;
        }
        branches := branches + [(rest.id, body)];
        rest := rest.tail;
      }
      var default: CtrCases := CasesFail;
      if rest.EVar? {
        var c :- VarCtr(rest.id, vars, sy);
        default := CasesTail(c.0);
      }
      r := AttachCases(branches, Done(default, sy));
    }
  }

  /** Adds cases in front of elaborated ones. */
  function AttachCases(branches: seq<(Ident, Option<Ctr>)>, e: Elab<CtrCases>): (r: Elab<CtrCases>)
    ensures r.Done? == e.Done? && (e.Done? ==> r.next == e.next)
  {
    if branches == [] || !e.Done? then e else
    var last := branches[|branches| - 1];
    AttachCases(branches[..|branches| - 1], Done(Case(last.0, last.1, e.value), e.next))
  }

  /** `contract_static`: simplification, then elaboration with the generated tails in scope. */
  method GenerateStatic(t: Type, next: nat) returns (r: Elab<Ctr>)
    ensures r == ContractStatic(t, next)
  {
    var simplifier := new Simplifier(next);
    var t' := simplifier.SimplifyAt(t, NO_VARS, Positive);
    var elaborator := new Elaborator();
    r := elaborator.Contract(t', TailContracts(simplifier.contractEnv), Positive);
  }
}
