/**
 What elaborated contracts do, and that elaboration keeps the meaning of types: the specialised
 builtin contracts change nothing. Keys are read here through the names of the quantifiers they were
 made for; which key belongs to which quantifier is the subject of `SealingKeys`.
 */
module ElaborationMeaning {
  import opened Types
  import opened Blame
  import opened Simplify
  import opened Elaborate
  import opened ElaborationOutcome
  import opened FreshTails
  import opened Hazards
  import opened Agreement
  import StaticContract

  /** The quantifier each sealing key was made for. */
  type Naming = nat -> Ident

  /** The polarities recorded in a blame label for the quantifiers passed so far. */
  type TypeVarLabels = map<nat, Polarity>

  /** What a contract bound to a variable does, under a label. */
  function Denotes(c: Ctr, labels: TypeVarLabels, names: Naming): VarContract {
    match c
    case CForallVar(key) => if key in labels then SealVar(names(key), labels[key]) else EnumTail
    case CRecordTail(key, excluded) => if key in labels then SealTail(names(key), labels[key], excluded) else EnumTail
    case CExcludedOnly(excluded) => ExcludedOnly(excluded)
    case _ => EnumTail
  }

  function RunCtr(c: Ctr, labels: TypeVarLabels, names: Naming, pol: Polarity, ci: Embedded, v: Value): Outcome
    decreases c, 0
  {
    match c
    case CNumber => RunGround(NumberGround, pol, v)
    case CBool => RunGround(BoolGround, pol, v)
    case CString => RunGround(StringGround, pol, v)
    case CForeignId => RunGround(ForeignGround, pol, v)
    case CArrayDyn => if v.Elems? then Pass(v) else WrongShape(pol, v)
    case CArray(elem) =>
      if !v.Elems? then WrongShape(pol, v) else
      var os := RunCtrAll(elem, labels, names, pol, ci, v.elems);
      Outcome(Elems(os.outs), os.events)
    case CFuncDyn => if v.Fun? then Pass(v) else WrongShape(pol, v)
    case CFuncDom(dom) =>
      if !v.Fun? then WrongShape(pol, v) else
      var args := RunCtrAll(dom, labels, names, pol.Flip(), ci, v.args);
      Outcome(Fun(args.outs, v.results), args.events)
    case CFuncCodom(codom) =>
      if !v.Fun? then WrongShape(pol, v) else
      var results := RunCtrAll(codom, labels, names, pol, ci, v.results);
      Outcome(Fun(v.args, results.outs), results.events)
    case CFunc(dom, codom) =>
      if !v.Fun? then WrongShape(pol, v) else
      var args := RunCtrAll(dom, labels, names, pol.Flip(), ci, v.args);
      var results := RunCtrAll(codom, labels, names, pol, ci, v.results);
      Outcome(Fun(args.outs, results.outs), args.events + results.events)
    case CDictDyn => if v.Fields? then Pass(v) else WrongShape(pol, v)
    case CDictType(field) => RunCtrDict(field, TypeFlavour, labels, names, pol, ci, v)
    case CDictContract(field) => RunCtrDict(field, ContractFlavour, labels, names, pol, ci, v)
    case CEmbedded(contract) => ci(contract, pol, v)
    case CForall(key, forallPol, body) => RunCtr(body, labels[key := forallPol], names, pol, ci, v)
    case CForallVar(_) =>
      var d := Denotes(c, labels, names);
      if d.SealVar? then Sealing(d, pol, v) else Pass(v)
    case CRecord(rows) => RunCtrRecord(rows, labels, names, pol, ci, v)
    case CEnum(cases) =>
      if !(v.Tag? || v.Variant?) then WrongShape(pol, v) else RunCtrEnum(cases, labels, names, pol, ci, v)
    case _ => Pass(v)
  }

  function RunCtrAll(c: Ctr, labels: TypeVarLabels, names: Naming, pol: Polarity, ci: Embedded,
                     vs: seq<Value>): Outcomes
    decreases c, 1, |vs|
  {
    if vs == [] then Outcomes([], {}) else
    var o := RunCtr(c, labels, names, pol, ci, vs[0]);
    var rest := RunCtrAll(c, labels, names, pol, ci, vs[1..]);
    Outcomes([o.out] + rest.outs, o.events + rest.events)
  }

  function RunCtrDict(c: Ctr, flavour: DictFlavour, labels: TypeVarLabels, names: Naming, pol: Polarity, ci: Embedded,
                      v: Value): Outcome
    decreases c, 2
  {
    if !v.Fields? then WrongShape(pol, v)
    else if DictRefuses(flavour, v) then DictRefusal(flavour, pol, v)
    else Collect(RunCtrEach(c, labels, names, pol, ci, v.fields), v.tail)
  }

  function RunCtrEach(c: Ctr, labels: TypeVarLabels, names: Naming, pol: Polarity, ci: Embedded,
                      fs: map<Ident, Value>): map<Ident, Outcome>
    decreases c, 1
  {
    map x | x in fs :: RunCtr(c, labels, names, pol, ci, fs[x])
  }

  function ListedFields(rows: CtrRows): set<Ident> {
    if rows.RowsField? then {rows.id} + ListedFields(rows.rest) else {}
  }

  function TailCtr(rows: CtrRows): Ctr {
    if rows.RowsField? then TailCtr(rows.rest) else rows.tail
  }

  function RunCtrRecord(rows: CtrRows, labels: TypeVarLabels, names: Naming, pol: Polarity, ci: Embedded,
                        v: Value): Outcome
    decreases rows, 1
  {
    if !v.Fields? then WrongShape(pol, v)
    else if !(ListedFields(rows) <= v.fields.Keys) then RefuseRecord(pol, v)
    else
      var fo := RunCtrFields(rows, labels, names, pol, ci, v.fields);
      match TailCtr(rows)
      case CEmptyTail => ClosedTail(ListedFields(rows), pol, v, fo)
      case CDynTail => OpenTail(v, fo)
      case tail => VarTail(Denotes(tail, labels, names), ListedFields(rows), pol, v, fo)
  }

  function RunCtrFields(rows: CtrRows, labels: TypeVarLabels, names: Naming, pol: Polarity, ci: Embedded,
                        fs: map<Ident, Value>): FieldsOutcome
    decreases rows, 0
  {
    if !rows.RowsField? then FieldsOutcome(fs, {}) else
    var rest := RunCtrFields(rows.rest, labels, names, pol, ci, fs);
    if rows.id !in fs then rest else
    var o := RunCtr(rows.ctr, labels, names, pol, ci, fs[rows.id]);
    FieldsOutcome(rest.fields[rows.id := o.out], o.events + rest.events)
  }

  function RunCtrEnum(cases: CtrCases, labels: TypeVarLabels, names: Naming, pol: Polarity, ci: Embedded,
                      v: Value): Outcome
    requires v.Tag? || v.Variant?
    decreases cases, 0
  {
    match cases
    case CasesFail => Refuse(pol, v)
    case CasesTail(_) => Pass(v)
    case Case(id, arg, rest) =>
      if v.tag != id || v.Variant? != arg.Some? then RunCtrEnum(rest, labels, names, pol, ci, v)
      else if arg.None? then Pass(v)
      else
        var o := RunCtr(arg.value, labels, names, pol, ci, v.arg);
        Outcome(Variant(id, o.out), o.events)
  }

  // Elaboration keeps the meaning

  /** The names of the quantifiers of a type, in the order in which elaboration meets them. */
  function Binders(t: Type): seq<Ident>
    decreases t
  {
    match t
    case Forall(v, _, body) => [v] + Binders(body)
    case Arrow(dom, codom) => Binders(dom) + Binders(codom)
    case Array(elem) => Binders(elem)
    case Dict(field, _) => Binders(field)
    case Record(rows) => RecordBinders(rows)
    case Enum(rows) => EnumBinders(rows)
    case _ => []
  }

  function RecordBinders(rows: RecordRows): seq<Ident>
    decreases rows
  {
    if rows.RExtend? then Binders(rows.typ) + RecordBinders(rows.tail) else []
  }

  function EnumBinders(rows: EnumRows): seq<Ident>
    decreases rows
  {
    if rows.EExtend? then (if rows.arg.Some? then Binders(rows.arg.value) else []) + EnumBinders(rows.tail) else []
  }

  /** Keys from `next` on belong to the quantifiers `binders`. */
  ghost predicate Names(names: Naming, next: nat, binders: seq<Ident>) {
    forall i :: 0 <= i < |binders| ==> names(next + i) == binders[i]
  }

  /** The contracts of the variables do what the semantic environment says; their keys are old. */
  ghost predicate Models(env: Env, vars: CtrEnv, labels: TypeVarLabels, names: Naming, next: nat) {
    && env.Keys == vars.Keys
    && (forall k <- labels :: k < next)
    && (forall x <- env ::
          && (vars[x].CForallVar? || vars[x].CRecordTail? || vars[x].CEnumTail? || vars[x].CExcludedOnly?)
          && (vars[x].CForallVar? || vars[x].CRecordTail? ==> vars[x].key in labels)
          && Denotes(vars[x], labels, names) == env[x])
  }

  lemma {:induction false} CountBinders(t: Type, vars: CtrEnv, pol: Polarity, next: nat)
    requires Subcontract(t, vars, pol, next).Done?
    ensures Subcontract(t, vars, pol, next).next == next + |Binders(t)|
    decreases t
  {
    match t
    case Array(elem) => if !elem.Dyn? { CountBinders(elem, vars, pol, next); }
    case Arrow(dom, codom) =>
      if !dom.Dyn? { CountBinders(dom, vars, pol.Flip(), next); }
      if !codom.Dyn? { CountBinders(codom, vars, pol, next + |Binders(dom)|); }
    case Forall(v, kind, body) => CountBinders(body, vars[v := BindCtr(kind, next)], pol, next + 1);
    case Dict(field, _) => if !field.Dyn? { CountBinders(field, vars, pol, next); }
    case Record(rows) => CountRecordBinders(rows, vars, pol, next);
    case Enum(rows) => CountEnumBinders(rows, vars, pol, next);
    case _ =>
  }

  lemma {:induction false} CountRecordBinders(rows: RecordRows, vars: CtrEnv, pol: Polarity, next: nat)
    requires SubcontractRecord(rows, vars, pol, next).Done?
    ensures SubcontractRecord(rows, vars, pol, next).next == next + |RecordBinders(rows)|
    decreases rows
  {
    if rows.RExtend? {
      CountBinders(rows.typ, vars, pol, next);
      CountRecordBinders(rows.tail, vars, pol, next + |Binders(rows.typ)|);
    }
  }

  lemma {:induction false} CountEnumBinders(rows: EnumRows, vars: CtrEnv, pol: Polarity, next: nat)
    requires SubcontractEnum(rows, vars, pol, next).Done?
    ensures SubcontractEnum(rows, vars, pol, next).next == next + |EnumBinders(rows)|
    decreases rows
  {
    if rows.EExtend? {
      if rows.arg.Some? {
        CountBinders(rows.arg.value, vars, pol, next);
        CountEnumBinders(rows.tail, vars, pol, next + |Binders(rows.arg.value)|);
      } else {
        CountEnumBinders(rows.tail, vars, pol, next);
      }
    }
  }

  /** How variables are bound on the two sides. */
  datatype Scope = Scope(env: Env, vars: CtrEnv, labels: TypeVarLabels, names: Naming, ci: Embedded)

  ghost predicate SameRuns(c: Ctr, t: Type, k: Scope, pol: Polarity) {
    forall v: Value :: RunCtr(c, k.labels, k.names, pol, k.ci, v) == Run(t, k.env, pol, k.ci, v)
  }

  ghost predicate Elaborable(t: Type, k: Scope, pol: Polarity, next: nat) {
    && Models(k.env, k.vars, k.labels, k.names, next) && Names(k.names, next, Binders(t))
    && Subcontract(t, k.vars, pol, next).Done?
  }

  lemma NamesSplit(names: Naming, next: nat, xs: seq<Ident>, ys: seq<Ident>)
    requires Names(names, next, xs + ys)
    ensures Names(names, next, xs) && Names(names, next + |xs|, ys)
  {
    forall i | 0 <= i < |xs| ensures names(next + i) == xs[i] {
      assert (xs + ys)[i] == xs[i];
    }
    forall i | 0 <= i < |ys| ensures names(next + |xs| + i) == ys[i] {
      assert (xs + ys)[|xs| + i] == ys[i];
    }
  }

  lemma {:induction false} ElaborationRuns(t: Type, k: Scope, pol: Polarity, next: nat)
    requires Elaborable(t, k, pol, next)
    ensures SameRuns(Subcontract(t, k.vars, pol, next).value, t, k, pol)
    decreases t
  {
    hide Run, RunCtr, Subcontract;
    match t
    case Array(elem) =>
      ArrayElaborable(elem, k, pol, next);
      if !elem.Dyn? { ElaborationRuns(elem, k, pol, next); }
      ArrayRuns(elem, k, pol, next);
    case Arrow(dom, codom) =>
      ArrowElaborable(dom, codom, k, pol, next);
      if !dom.Dyn? { ElaborationRuns(dom, k, pol.Flip(), next); }
      if !codom.Dyn? { ElaborationRuns(codom, k, pol, next + |Binders(dom)|); }
      ArrowRuns(dom, codom, Subcontract(dom, k.vars, pol.Flip(), next).value,
                Subcontract(codom, k.vars, pol, next + |Binders(dom)|).value, k, pol);
    case Forall(x, kind, body) =>
      ForallElaborable(x, kind, body, k, pol, next);
      ElaborationRuns(body, Inside(x, kind, k, pol, next), pol, next + 1);
      ForallRuns(x, kind, body, k, pol, next);
    case Dict(field, flavour) =>
      DictElaborable(field, flavour, k, pol, next);
      if !field.Dyn? { ElaborationRuns(field, k, pol, next); }
      DictRuns(field, flavour, k, pol, next);
    case Record(rows) =>
      RecordElaborable(rows, k, pol, next);
      forall v: Value | v.Fields? ensures SameFieldRuns(rows, k, pol, next, v.fields) {
        FieldsRun(rows, k, pol, next, v.fields);
      }
      RecordRuns(rows, k, pol, next);
    case Enum(rows) =>
      EnumElaborable(rows, k, pol, next);
      forall v: Value | v.Tag? || v.Variant? ensures SameEnumRuns(rows, k, pol, next, v) {
        EnumRuns(rows, k, pol, next, v);
      }
      EnumTypeRuns(rows, k, pol, next);
    case _ => LeafRuns(t, k, pol, next);
  }

  ghost function Inside(x: Ident, kind: VarKind, k: Scope, pol: Polarity, next: nat): Scope {
    Scope(k.env[x := Bind(x, kind, pol)], k.vars[x := BindCtr(kind, next)], k.labels[next := pol], k.names, k.ci)
  }

  lemma ArrayElaborable(elem: Type, k: Scope, pol: Polarity, next: nat)
    requires Elaborable(Array(elem), k, pol, next)
    ensures !elem.Dyn? ==> Elaborable(elem, k, pol, next)
    ensures Subcontract(Array(elem), k.vars, pol, next).value ==
            if elem.Dyn? then CArrayDyn else CArray(Subcontract(elem, k.vars, pol, next).value)
  {
  }

  lemma SubcontractArrow(dom: Type, codom: Type, vars: CtrEnv, pol: Polarity, next: nat)
    requires Subcontract(Arrow(dom, codom), vars, pol, next).Done?
    ensures
      var d, c := Subcontract(dom, vars, pol.Flip(), next), Subcontract(codom, vars, pol, next + |Binders(dom)|);
      d.Done? && c.Done?
        && Subcontract(Arrow(dom, codom), vars, pol, next).value == ArrowCtr(dom, codom, d.value, c.value)
  {
    if !dom.Dyn? {
      CountBinders(dom, vars, pol.Flip(), next);
    }
  }

  lemma ArrowElaborable(dom: Type, codom: Type, k: Scope, pol: Polarity, next: nat)
    requires Elaborable(Arrow(dom, codom), k, pol, next)
    ensures Elaborable(dom, k, pol.Flip(), next) && Elaborable(codom, k, pol, next + |Binders(dom)|)
    ensures
      var d, c := Subcontract(dom, k.vars, pol.Flip(), next), Subcontract(codom, k.vars, pol, next + |Binders(dom)|);
      d.Done? && c.Done?
        && Subcontract(Arrow(dom, codom), k.vars, pol, next).value == ArrowCtr(dom, codom, d.value, c.value)
  {
    hide Subcontract, ArrowCtr;
    SubcontractArrow(dom, codom, k.vars, pol, next);
    NamesSplit(k.names, next, Binders(dom), Binders(codom));
  }

  lemma FirstName(names: Naming, next: nat, x: Ident)
    requires Names(names, next, [x])
    ensures names(next) == x
  {
    assert names(next + 0) == [x][0];
  }

  lemma SubcontractForall(x: Ident, kind: VarKind, body: Type, k: Scope, pol: Polarity, next: nat)
    requires Subcontract(Forall(x, kind, body), k.vars, pol, next).Done?
    ensures Subcontract(body, Inside(x, kind, k, pol, next).vars, pol, next + 1).Done?
  {
  }

  lemma InsideModels(x: Ident, kind: VarKind, k: Scope, pol: Polarity, next: nat)
    requires Models(k.env, k.vars, k.labels, k.names, next) && k.names(next) == x
    ensures var i := Inside(x, kind, k, pol, next); Models(i.env, i.vars, i.labels, i.names, next + 1)
  {
  }

  lemma ForallElaborable(x: Ident, kind: VarKind, body: Type, k: Scope, pol: Polarity, next: nat)
    requires Elaborable(Forall(x, kind, body), k, pol, next)
    ensures Elaborable(body, Inside(x, kind, k, pol, next), pol, next + 1)
  {
    hide Names, Models, Subcontract;
    SubcontractForall(x, kind, body, k, pol, next);
    NamesSplit(k.names, next, [x], Binders(body));
    FirstName(k.names, next, x);
    InsideModels(x, kind, k, pol, next);
  }

  lemma DictElaborable(field: Type, flavour: DictFlavour, k: Scope, pol: Polarity, next: nat)
    requires Elaborable(Dict(field, flavour), k, pol, next)
    ensures !field.Dyn? ==> Elaborable(field, k, pol, next)
  {
  }

  lemma LeafRuns(t: Type, k: Scope, pol: Polarity, next: nat)
    requires Elaborable(t, k, pol, next)
    requires !t.Arrow? && !t.Forall? && !t.Array? && !t.Dict? && !t.Record? && !t.Enum?
    ensures SameRuns(Subcontract(t, k.vars, pol, next).value, t, k, pol)
  {
  }

  lemma {:induction false} AllRun(c: Ctr, t: Type, k: Scope, pol: Polarity, vs: seq<Value>)
    requires SameRuns(c, t, k, pol)
    ensures RunCtrAll(c, k.labels, k.names, pol, k.ci, vs) == RunAll(t, k.env, pol, k.ci, vs)
    decreases |vs|
  {
    hide Run, RunCtr;
    if vs != [] {
      AllRun(c, t, k, pol, vs[1..]);
    }
  }

  lemma ArrayRuns(elem: Type, k: Scope, pol: Polarity, next: nat)
    requires Subcontract(Array(elem), k.vars, pol, next).Done?
    requires !elem.Dyn? ==> SameRuns(Subcontract(elem, k.vars, pol, next).value, elem, k, pol)
    ensures SameRuns(Subcontract(Array(elem), k.vars, pol, next).value, Array(elem), k, pol)
  {
    var c := Subcontract(Array(elem), k.vars, pol, next).value;
    forall v: Value ensures RunCtr(c, k.labels, k.names, pol, k.ci, v) == Run(Array(elem), k.env, pol, k.ci, v) {
      RunArray(elem, k.env, pol, k.ci, v);
      if v.Elems? {
        if elem.Dyn? {
          DynAll(k.env, pol, k.ci, v.elems);
        } else {
          AllRun(c.elem, elem, k, pol, v.elems);
        }
      }
    }
  }

  lemma ArrowRunsOn(dom: Type, codom: Type, d: Ctr, c: Ctr, k: Scope, pol: Polarity, v: Value)
    requires !dom.Dyn? ==> SameRuns(d, dom, k, pol.Flip())
    requires !codom.Dyn? ==> SameRuns(c, codom, k, pol)
    ensures RunCtr(ArrowCtr(dom, codom, d, c), k.labels, k.names, pol, k.ci, v) ==
            Run(Arrow(dom, codom), k.env, pol, k.ci, v)
  {
    hide Run, SameRuns;
    RunArrow(dom, codom, k.env, pol, k.ci, v);
    if v.Fun? {
      if dom.Dyn? {
        DynAll(k.env, pol.Flip(), k.ci, v.args);
      } else {
        AllRun(d, dom, k, pol.Flip(), v.args);
      }
      if codom.Dyn? {
        DynAll(k.env, pol, k.ci, v.results);
      } else {
        AllRun(c, codom, k, pol, v.results);
      }
    }
  }

  lemma ArrowRuns(dom: Type, codom: Type, d: Ctr, c: Ctr, k: Scope, pol: Polarity)
    requires !dom.Dyn? ==> SameRuns(d, dom, k, pol.Flip())
    requires !codom.Dyn? ==> SameRuns(c, codom, k, pol)
    ensures SameRuns(ArrowCtr(dom, codom, d, c), Arrow(dom, codom), k, pol)
  {
    hide Run, RunCtr, SameRuns, ArrowCtr;
    var f := ArrowCtr(dom, codom, d, c);
    forall v: Value ensures RunCtr(f, k.labels, k.names, pol, k.ci, v) == Run(Arrow(dom, codom), k.env, pol, k.ci, v) {
      ArrowRunsOn(dom, codom, d, c, k, pol, v);
    }
    SameRunsIntro(f, Arrow(dom, codom), k, pol);
  }

  function ArrowCtr(dom: Type, codom: Type, d: Ctr, c: Ctr): Ctr {
    if dom.Dyn? then if codom.Dyn? then CFuncDyn else CFuncCodom(c)
    else if codom.Dyn? then CFuncDom(d) else CFunc(d, c)
  }

  lemma SameRunsIntro(c: Ctr, t: Type, k: Scope, pol: Polarity)
    requires forall v: Value :: RunCtr(c, k.labels, k.names, pol, k.ci, v) == Run(t, k.env, pol, k.ci, v)
    ensures SameRuns(c, t, k, pol)
  {
    hide Run, RunCtr;
  }

  lemma ForallRuns(x: Ident, kind: VarKind, body: Type, k: Scope, pol: Polarity, next: nat)
    requires Subcontract(Forall(x, kind, body), k.vars, pol, next).Done?
    requires SameRuns(Subcontract(body, Inside(x, kind, k, pol, next).vars, pol, next + 1).value, body,
                      Inside(x, kind, k, pol, next), pol)
    ensures SameRuns(Subcontract(Forall(x, kind, body), k.vars, pol, next).value, Forall(x, kind, body), k, pol)
  {
  }

  lemma DictRuns(field: Type, flavour: DictFlavour, k: Scope, pol: Polarity, next: nat)
    requires Subcontract(Dict(field, flavour), k.vars, pol, next).Done?
    requires !field.Dyn? ==> SameRuns(Subcontract(field, k.vars, pol, next).value, field, k, pol)
    ensures SameRuns(Subcontract(Dict(field, flavour), k.vars, pol, next).value, Dict(field, flavour), k, pol)
  {
    var c := Subcontract(Dict(field, flavour), k.vars, pol, next).value;
    var f := Subcontract(field, k.vars, pol, next);
    assert if field.Dyn? then c == CDictDyn
           else f.Done? && c == (if flavour.ContractFlavour? then CDictContract(f.value) else CDictType(f.value));
    hide Run, Subcontract;
    forall v: Value
      ensures RunCtr(c, k.labels, k.names, pol, k.ci, v) == Run(Dict(field, flavour), k.env, pol, k.ci, v)
    {
      RunDictType(field, flavour, k.env, pol, k.ci, v);
      if v.Fields? && !field.Dyn? {
        EachRuns(f.value, field, k, pol, v.fields);
      }
    }
  }

  lemma EachRuns(c: Ctr, t: Type, k: Scope, pol: Polarity, fs: map<Ident, Value>)
    requires SameRuns(c, t, k, pol)
    ensures RunCtrEach(c, k.labels, k.names, pol, k.ci, fs) == RunEach(t, k.env, pol, k.ci, fs)
  {
    hide Run, RunCtr;
  }

  // Rows

  ghost predicate RecordElaborates(rows: RecordRows, k: Scope, pol: Polarity, next: nat) {
    && Models(k.env, k.vars, k.labels, k.names, next) && Names(k.names, next, RecordBinders(rows))
    && SubcontractRecord(rows, k.vars, pol, next).Done?
  }

  ghost predicate SameFieldRuns(rows: RecordRows, k: Scope, pol: Polarity, next: nat, fs: map<Ident, Value>)
    requires SubcontractRecord(rows, k.vars, pol, next).Done?
  {
    RunCtrFields(SubcontractRecord(rows, k.vars, pol, next).value, k.labels, k.names, pol, k.ci, fs) ==
    RunFields(rows, k.env, pol, k.ci, fs)
  }

  lemma RecordElaborable(rows: RecordRows, k: Scope, pol: Polarity, next: nat)
    requires Elaborable(Record(rows), k, pol, next)
    ensures RecordElaborates(rows, k, pol, next)
  {
  }

  lemma RowElaborable(rows: RecordRows, k: Scope, pol: Polarity, next: nat)
    requires rows.RExtend? && RecordElaborates(rows, k, pol, next)
    ensures Elaborable(rows.typ, k, pol, next) && RecordElaborates(rows.tail, k, pol, next + |Binders(rows.typ)|)
    ensures SubcontractRecord(rows, k.vars, pol, next).value ==
            RowsField(rows.id, Subcontract(rows.typ, k.vars, pol, next).value,
                      SubcontractRecord(rows.tail, k.vars, pol, next + |Binders(rows.typ)|).value)
  {
    NamesSplit(k.names, next, Binders(rows.typ), RecordBinders(rows.tail));
    CountBinders(rows.typ, k.vars, pol, next);
  }

  lemma {:induction false} FieldsRun(rows: RecordRows, k: Scope, pol: Polarity, next: nat, fs: map<Ident, Value>)
    requires RecordElaborates(rows, k, pol, next)
    ensures SameFieldRuns(rows, k, pol, next, fs)
    decreases rows
  {
    hide Run, RunCtr, Subcontract;
    if rows.RExtend? {
      RowElaborable(rows, k, pol, next);
      ElaborationRuns(rows.typ, k, pol, next);
      FieldsRun(rows.tail, k, pol, next + |Binders(rows.typ)|, fs);
      if rows.id in fs {
        var c := Subcontract(rows.typ, k.vars, pol, next).value;
        assert RunCtr(c, k.labels, k.names, pol, k.ci, fs[rows.id]) == Run(rows.typ, k.env, pol, k.ci, fs[rows.id]);
      }
    }
  }

  /** The listed fields and the tail are those of the type. */
  lemma {:induction false} ElaboratedTail(rows: RecordRows, k: Scope, pol: Polarity, next: nat)
    requires RecordElaborates(rows, k, pol, next)
    ensures
      var r := SubcontractRecord(rows, k.vars, pol, next).value;
      && ListedFields(r) == Declared(rows)
      && match TailOf(rows)
         case REmpty => TailCtr(r) == CEmptyTail
         case RVar(id) => id in k.vars && TailCtr(r) == k.vars[id]
         case _ => TailCtr(r) == CDynTail
    decreases rows
  {
    hide Subcontract;
    if rows.RExtend? {
      RowElaborable(rows, k, pol, next);
      ElaboratedTail(rows.tail, k, pol, next + |Binders(rows.typ)|);
    }
  }

  lemma SubcontractRecordType(rows: RecordRows, vars: CtrEnv, pol: Polarity, next: nat)
    requires SubcontractRecord(rows, vars, pol, next).Done?
    ensures
      var c := Subcontract(Record(rows), vars, pol, next);
      c.Done? && c.value == CRecord(SubcontractRecord(rows, vars, pol, next).value)
  {
  }

  lemma RecordRunsOn(rows: RecordRows, k: Scope, pol: Polarity, next: nat, v: Value)
    requires RecordElaborates(rows, k, pol, next)
    requires v.Fields? ==> SameFieldRuns(rows, k, pol, next, v.fields)
    ensures RunCtr(CRecord(SubcontractRecord(rows, k.vars, pol, next).value), k.labels, k.names, pol, k.ci, v) ==
            Run(Record(rows), k.env, pol, k.ci, v)
  {
    hide Run, Subcontract, SubcontractRecord;
    ElaboratedTail(rows, k, pol, next);
    RunRecordType(rows, k.env, pol, k.ci, v);
  }

  lemma RecordRuns(rows: RecordRows, k: Scope, pol: Polarity, next: nat)
    requires Elaborable(Record(rows), k, pol, next) && RecordElaborates(rows, k, pol, next)
    requires forall v: Value | v.Fields? :: SameFieldRuns(rows, k, pol, next, v.fields)
    ensures SameRuns(Subcontract(Record(rows), k.vars, pol, next).value, Record(rows), k, pol)
  {
    hide Run, RunCtr, Subcontract, SubcontractRecord, SameFieldRuns, Models, Names;
    SubcontractRecordType(rows, k.vars, pol, next);
    forall v: Value
      ensures RunCtr(CRecord(SubcontractRecord(rows, k.vars, pol, next).value), k.labels, k.names, pol, k.ci, v) ==
              Run(Record(rows), k.env, pol, k.ci, v)
    {
      RecordRunsOn(rows, k, pol, next, v);
    }
  }

  ghost predicate EnumElaborates(rows: EnumRows, k: Scope, pol: Polarity, next: nat) {
    && Models(k.env, k.vars, k.labels, k.names, next) && Names(k.names, next, EnumBinders(rows))
    && SubcontractEnum(rows, k.vars, pol, next).Done?
  }

  ghost predicate SameEnumRuns(rows: EnumRows, k: Scope, pol: Polarity, next: nat, v: Value)
    requires (v.Tag? || v.Variant?) && SubcontractEnum(rows, k.vars, pol, next).Done?
  {
    RunCtrEnum(SubcontractEnum(rows, k.vars, pol, next).value, k.labels, k.names, pol, k.ci, v) ==
    RunEnum(rows, k.env, pol, k.ci, v)
  }

  lemma EnumElaborable(rows: EnumRows, k: Scope, pol: Polarity, next: nat)
    requires Elaborable(Enum(rows), k, pol, next)
    ensures EnumElaborates(rows, k, pol, next)
  {
  }

  lemma {:induction false} EnumRuns(rows: EnumRows, k: Scope, pol: Polarity, next: nat, v: Value)
    requires EnumElaborates(rows, k, pol, next) && (v.Tag? || v.Variant?)
    ensures SameEnumRuns(rows, k, pol, next, v)
    decreases rows
  {
    hide Run, RunCtr, Subcontract;
    if rows.EExtend? {
      var binders := if rows.arg.Some? then Binders(rows.arg.value) else [];
      NamesSplit(k.names, next, binders, EnumBinders(rows.tail));
      if rows.arg.Some? {
        CountBinders(rows.arg.value, k.vars, pol, next);
        ElaborationRuns(rows.arg.value, k, pol, next);
        if v.Variant? {
          var c := Subcontract(rows.arg.value, k.vars, pol, next).value;
          assert RunCtr(c, k.labels, k.names, pol, k.ci, v.arg) == Run(rows.arg.value, k.env, pol, k.ci, v.arg);
        }
      }
      EnumRuns(rows.tail, k, pol, next + |binders|, v);
    }
  }

  lemma EnumTypeRuns(rows: EnumRows, k: Scope, pol: Polarity, next: nat)
    requires Elaborable(Enum(rows), k, pol, next) && EnumElaborates(rows, k, pol, next)
    requires forall v: Value | v.Tag? || v.Variant? :: SameEnumRuns(rows, k, pol, next, v)
    ensures SameRuns(Subcontract(Enum(rows), k.vars, pol, next).value, Enum(rows), k, pol)
  {
    var r := SubcontractEnum(rows, k.vars, pol, next).value;
    assert Subcontract(Enum(rows), k.vars, pol, next).value == CEnum(r);
    hide Run, Subcontract, SubcontractEnum;
    forall v: Value ensures RunCtr(CEnum(r), k.labels, k.names, pol, k.ci, v) == Run(Enum(rows), k.env, pol, k.ci, v) {
      RunEnumType(rows, k.env, pol, k.ci, v);
    }
  }

  // Whole annotations

  /** The naming of the keys that elaboration hands out from zero. */
  function NamingOf(t: Type): Naming {
    (k: nat) => if k < |Binders(t)| then Binders(t)[k] else Name("")
  }

  lemma ContractMeaning(t: Type, ci: Embedded, v: Value)
    requires ClosedOver(t, {}) && SymbolFree(t)
    ensures ContractOf(t).Done?
    ensures RunCtr(ContractOf(t).value, map[], NamingOf(t), Positive, ci, v) == Run(t, map[], Positive, ci, v)
  {
    var noVars: CtrEnv := map[];
    assert noVars.Keys == {};
    ElaborationExplained(t, noVars, Positive, 0);
    ElaborationRuns(t, Scope(map[], map[], map[], NamingOf(t), ci), Positive, 0);
  }

  lemma StaticContractMeaning(t: Type, freshIndex: nat, ci: Embedded, v: Value)
    requires WellKinded(t, map[], Positive) && SymbolsPositive(t, Positive)
    ensures ContractStatic(t, freshIndex).Done?
    ensures
      var (t', s) := Simplified(t, freshIndex);
      RunCtr(ContractStatic(t, freshIndex).value, map[], NamingOf(t'), Positive, ci, v) ==
        Run(t', s.env, Positive, ci, v)
  {
    hide Run, RunCtr, SimplifyType, Subcontract, WellKinded;
    ContractStaticExists(t, freshIndex);
    var (t', s) := Simplified(t, freshIndex);
    SimplifyGrows(t, NO_VARS, Positive, State(map[], freshIndex));
    ElaborationRuns(t', Scope(s.env, TailContracts(s.env), map[], NamingOf(t'), ci), Positive, 0);
  }

  /**
   The contract of a static annotation against the full contract of its type: on every observation that
   does not blame the term they agree as the simplified type and the type do.
   */
  lemma StaticContractAgrees(t: Type, freshIndex: nat, ci: Embedded, v: Value)
    requires SealBlind(ci) && WellKinded(t, map[], Positive) && ShadowFree(t, NO_VARS, Positive)
    requires SymbolFree(t)
    requires ContractOf(t).Done? ==>
               TermSafe(RunCtr(ContractOf(t).value, map[], NamingOf(t), Positive, ci, v).events)
    ensures ContractOf(t).Done? && ContractStatic(t, freshIndex).Done?
    ensures
      var t' := Simplified(t, freshIndex).0;
      var o := RunCtr(ContractOf(t).value, map[], NamingOf(t), Positive, ci, v);
      var o' := RunCtr(ContractStatic(t, freshIndex).value, map[], NamingOf(t'), Positive, ci, Erase(v));
      var h := Met(t, map[], NO_VARS, Positive, ci, v);
      && o.events + Gained(h) == o'.events + Lost(h)
      && (TermSafe(o'.events) <==> NewRefusal(Positive) !in h)
      && (StaticContract.Preserving(t) ==>
            && TermSafe(o'.events)
            && o.events - {StaticContract.ON_SEAL} <= o'.events <= o.events + {StaticContract.BY_CONTEXT})
      && (o'.out == Erase(o.out) <==> OtherValue !in h)
  {
    hide Run, RunCtr, SimplifyType, Met, Erase, StaticContract.Preserving, WellKinded, ShadowFree, Gained, Lost,
         ClosedOver, SymbolFree, SymbolsPositive;
    var none: Env := map[];
    assert none.Keys == {};
    WellKindedIsClosed(t, none, Positive);
    NoneIsPositive(t, Positive);
    ContractMeaning(t, ci, v);
    StaticContractMeaning(t, freshIndex, ci, Erase(v));
    StaticContract.SimplifiedContractAgrees(t, freshIndex, ci, v);
    if StaticContract.Preserving(t) {
      StaticContract.BlamePreserved(t, freshIndex, ci, v);
    }
  }
}
