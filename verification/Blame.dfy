/**
 What the contract of a type does to a value.

 A value is a finite observation: a function is the list of the arguments it was given and of the
 results it gave. Running
 a contract on a value gives the value that comes out (arguments and results sealed or unsealed by
 polymorphic contracts), and the events met on the way. The rules follow the builtin contracts of
 core/stdlib/internals.ncl; sealing keys are named after the quantifier that introduced them.
 */
module Blame {
  import opened Types

  datatype Ground = NumberGround | BoolGround | StringGround | ForeignGround

  datatype Value =
    | Atom(ground: Ground, payload: int)
    | Elems(elems: seq<Value>)
    | Fields(fields: map<Ident, Value>, tail: Tail)
    | Tag(tag: Ident)
    | Variant(tag: Ident, arg: Value)
    | Fun(args: seq<Value>, results: seq<Value>)
    | Sealed(key: Ident, pol: Polarity, inner: Value)

  /** The part of a record hidden by a polymorphic tail contract, possibly several times over. */
  datatype Tail = NoTail | SealedTail(key: Ident, pol: Polarity, fields: map<Ident, Value>, rest: Tail)

  /**
   `Fail(site, blamed)`: a check standing at polarity `site` fails and blames `blamed`. The two
   differ only when the check meets a sealed value: the blame then goes to whoever was to respect
   the seal. `Escape`: a value or tail sealed for the term meets a check that can neither unseal it nor
   see that it is sealed, or hides fields with the names of visible ones. The run itself may go on there;
   but a run without the seal would not see the same value.
   */
  datatype Event = Fail(site: Polarity, blamed: Polarity) | Escape

  /** The term is never blamed, and nothing sealed for it escapes. */
  predicate TermSafe(events: set<Event>) {
    forall e <- events :: e.Fail? && e.blamed.Negative?
  }

  datatype Outcome = Outcome(out: Value, events: set<Event>)

  /** What is bound to a type variable while a contract is applied. */
  datatype VarContract =
    | SealVar(key: Ident, pol: Polarity)
    | SealTail(key: Ident, pol: Polarity, excluded: set<Ident>)
    | EnumTail
    | ExcludedOnly(excluded: set<Ident>)

  type Env = map<Ident, VarContract>

  /** Contracts embedded in a type are opaque: one behaviour for each contract and polarity. */
  type Embedded = (nat, Polarity, Value) -> Outcome

  function Bind(v: Ident, kind: VarKind, pol: Polarity): VarContract {
    match kind
    case TypeKind => SealVar(v, pol)
    case EnumRowsKind(_) => EnumTail
    case RecordRowsKind(excluded) => SealTail(v, pol, excluded)
  }

  function Pass(v: Value): Outcome {
    Outcome(v, {})
  }

  /** The failure of a check that expected another shape than that of `v`. */
  function WrongShape(pol: Polarity, v: Value): Outcome {
    Outcome(v, {Fail(pol, if v.Sealed? then v.pol else pol)})
  }

  function Refuse(pol: Polarity, v: Value): Outcome {
    Outcome(v, {Fail(pol, pol)})
  }

  /** Several runs side by side. */
  datatype Outcomes = Outcomes(outs: seq<Value>, events: set<Event>)

  function Run(t: Type, env: Env, pol: Polarity, ci: Embedded, v: Value): Outcome
    decreases t, 0
  {
    match t
    case Dyn => Pass(v)
    case Wildcard(_) => Pass(v)
    case Symbol => Pass(v)
    case Number => RunGround(NumberGround, pol, v)
    case Bool => RunGround(BoolGround, pol, v)
    case String => RunGround(StringGround, pol, v)
    case ForeignId => RunGround(ForeignGround, pol, v)
    case Contract(c) => ci(c, pol, v)
    case Var(id) => RunVar(id, env, pol, v)
    case Forall(x, kind, body) => Run(body, env[x := Bind(x, kind, pol)], pol, ci, v)
    case Arrow(dom, codom) =>
      if !v.Fun? then WrongShape(pol, v) else
      var args := RunAll(dom, env, pol.Flip(), ci, v.args);
      var results := RunAll(codom, env, pol, ci, v.results);
      Outcome(Fun(args.outs, results.outs), args.events + results.events)
    case Array(elem) =>
      if !v.Elems? then WrongShape(pol, v) else
      var os := RunAll(elem, env, pol, ci, v.elems);
      Outcome(Elems(os.outs), os.events)
    case Dict(field, flavour) =>
      if !v.Fields? then WrongShape(pol, v)
      else if field.Dyn? then Pass(v)
      else if DictRefuses(flavour, v) then DictRefusal(flavour, pol, v)
      else Collect(RunEach(field, env, pol, ci, v.fields), v.tail)
    case Record(rows) => RunRecord(rows, env, pol, ci, v)
    case Enum(rows) =>
      if !(v.Tag? || v.Variant?) then WrongShape(pol, v) else RunEnum(rows, env, pol, ci, v)
  }

  function RunAll(t: Type, env: Env, pol: Polarity, ci: Embedded, vs: seq<Value>): (os: Outcomes)
    ensures |os.outs| == |vs|
    decreases t, 1, |vs|
  {
    if vs == [] then Outcomes([], {}) else
    var o := Run(t, env, pol, ci, vs[0]);
    var rest := RunAll(t, env, pol, ci, vs[1..]);
    Outcomes([o.out] + rest.outs, o.events + rest.events)
  }

  function RunEach(t: Type, env: Env, pol: Polarity, ci: Embedded, fs: map<Ident, Value>): map<Ident, Outcome>
    decreases t, 1
  {
    map x | x in fs :: Run(t, env, pol, ci, fs[x])
  }

  function Collect(os: map<Ident, Outcome>, tail: Tail): Outcome {
    Outcome(Fields(map x | x in os :: os[x].out, tail), set x, e | x in os && e in os[x].events :: e)
  }

  /**
   `$dict_type` maps over the record, which a sealed tail does not allow. `$dict_contract` attaches
   contracts to the visible fields; fields hidden for the term are none of its business.
   */
  predicate DictRefuses(flavour: DictFlavour, v: Value)
    requires v.Fields?
  {
    if flavour.TypeFlavour? then v.tail.SealedTail? else Hidden(v.tail) != {}
  }

  /** Mapping over a sealed tail blames whoever was to respect the seal. */
  function DictRefusal(flavour: DictFlavour, pol: Polarity, v: Value): Outcome
    requires v.Fields? && DictRefuses(flavour, v)
  {
    Outcome(v, {if flavour.TypeFlavour? then Fail(pol, v.tail.pol) else Escape})
  }

  function RunGround(g: Ground, pol: Polarity, v: Value): Outcome {
    if v.Atom? && v.ground == g then Pass(v) else WrongShape(pol, v)
  }

  function RunVar(id: Ident, env: Env, pol: Polarity, v: Value): Outcome {
    if id in env && env[id].SealVar? then Sealing(env[id], pol, v) else Pass(v)
  }

  /** `$forall_var`: unseals at the polarity of the quantifier and seals at the opposite one. */
  function Sealing(c: VarContract, pol: Polarity, v: Value): Outcome
    requires c.SealVar?
  {
    if pol != c.pol then Pass(Sealed(c.key, c.pol, v))
    else if v.Sealed? && v.key == c.key && v.pol == c.pol then Pass(v.inner)
    else if v.Sealed? && v.pol.Positive? then Outcome(v, {Fail(pol, pol), Escape})
    else Refuse(pol, v)
  }

  function RunRecord(rows: RecordRows, env: Env, pol: Polarity, ci: Embedded, v: Value): Outcome
    decreases rows, 1
  {
    if !v.Fields? then WrongShape(pol, v)
    else if !(Declared(rows) <= v.fields.Keys) then RefuseRecord(pol, v)
    else RunTail(TailOf(rows), Declared(rows), env, pol, v, RunFields(rows, env, pol, ci, v.fields))
  }

  datatype FieldsOutcome = FieldsOutcome(fields: map<Ident, Value>, events: set<Event>)

  /** Applies the contract of every listed field that is present. */
  function RunFields(rows: RecordRows, env: Env, pol: Polarity, ci: Embedded, fs: map<Ident, Value>): FieldsOutcome
    decreases rows, 0
  {
    if !rows.RExtend? then FieldsOutcome(fs, {}) else
    var rest := RunFields(rows.tail, env, pol, ci, fs);
    if rows.id !in fs then rest else
    var o := Run(rows.typ, env, pol, ci, fs[rows.id]);
    FieldsOutcome(rest.fields[rows.id := o.out], o.events + rest.events)
  }

  /** A record check that fails; it also escapes when the record has a tail sealed for the term. */
  function RefuseRecord(pol: Polarity, v: Value): Outcome
    requires v.Fields?
  {
    Outcome(v, {Fail(pol, pol)} + (if TermTail(v.tail) then {Escape} else {}))
  }

  predicate TermTail(tail: Tail) {
    tail.SealedTail? && tail.pol.Positive?
  }

  /** The fields that become visible once the seals made for the term are taken off. */
  function Hidden(tail: Tail): set<Ident> {
    if TermTail(tail) then tail.fields.Keys + Hidden(tail.rest) else {}
  }

  function Restrict(fs: map<Ident, Value>, ids: set<Ident>): map<Ident, Value> {
    map x | x in fs && x in ids :: fs[x]
  }

  /**
   The tail of a record contract, once every declared field is known to be present: `fo` holds all
   the fields of `v`, the declared ones after their contract.
   */
  function RunTail(tail: RecordRows, declared: set<Ident>, env: Env, pol: Polarity, v: Value,
                   fo: FieldsOutcome): Outcome
    requires v.Fields?
  {
    match tail
    case REmpty => ClosedTail(declared, pol, v, fo)
    case RVar(id) => if id in env then VarTail(env[id], declared, pol, v, fo) else Pass(v)
    case _ => OpenTail(v, fo)
  }

  function VarTail(c: VarContract, declared: set<Ident>, pol: Polarity, v: Value, fo: FieldsOutcome): Outcome
    requires v.Fields?
  {
    if c.SealTail? then SealingTail(c, declared, pol, v, fo)
    else if c.ExcludedOnly? then CheckedTail(c.excluded, declared, pol, v, fo)
    else Pass(v)
  }

  function ClosedTail(declared: set<Ident>, pol: Polarity, v: Value, fo: FieldsOutcome): Outcome
    requires v.Fields?
  {
    if v.fields.Keys - declared != {} || v.tail.SealedTail? then RefuseRecord(pol, v)
    else Outcome(Fields(fo.fields, NoTail), fo.events)
  }

  /** Fields hidden for the term have the names of visible ones. */
  predicate Clashes(v: Value)
    requires v.Fields?
  {
    Hidden(v.tail) * v.fields.Keys != {}
  }

  function OpenTail(v: Value, fo: FieldsOutcome): Outcome
    requires v.Fields?
  {
    if Clashes(v) then Outcome(v, {Escape})
    else Outcome(Fields(fo.fields, v.tail), fo.events)
  }

  /**
   `$forall_record_tail`: unseals at the polarity of the quantifier, checks and seals at the other.
   A record that already has a sealed tail is sealed over; only visible fields are looked at.
   */
  function SealingTail(c: VarContract, declared: set<Ident>, pol: Polarity, v: Value, fo: FieldsOutcome): Outcome
    requires v.Fields? && c.SealTail?
  {
    if pol == c.pol then UnsealTail(c, declared, pol, v, fo)
    else if Clashes(v) then Outcome(v, {Escape})
    else if (v.fields.Keys - declared) * c.excluded != {} then Refuse(pol, v)
    else
      var extra := Restrict(fo.fields, v.fields.Keys - declared);
      Outcome(Fields(Restrict(fo.fields, declared), SealedTail(c.key, c.pol, extra, v.tail)), fo.events)
  }

  function UnsealTail(c: VarContract, declared: set<Ident>, pol: Polarity, v: Value, fo: FieldsOutcome): Outcome
    requires v.Fields? && c.SealTail?
  {
    if v.fields.Keys - declared != {} || !(v.tail.SealedTail? && v.tail.key == c.key && v.tail.pol == c.pol) then
      RefuseRecord(pol, v)
    else if (v.tail.fields.Keys + Hidden(v.tail.rest)) * v.fields.Keys != {} then
      Outcome(v, {Escape})
    else
      Outcome(Fields(fo.fields + v.tail.fields, v.tail.rest), fo.events)
  }

  /** `$forall_record_tail_excluded_only`: seals nothing, and gives back the declared fields alone. */
  function CheckedTail(excluded: set<Ident>, declared: set<Ident>, pol: Polarity, v: Value, fo: FieldsOutcome): Outcome
    requires v.Fields?
  {
    if (v.fields.Keys - declared) * excluded != {} then Refuse(pol, v)
    else Outcome(Fields(Restrict(fo.fields, declared), NoTail), fo.events)
  }

  /** The first row with the tag of the value, and with an argument exactly when it has one. */
  function RunEnum(rows: EnumRows, env: Env, pol: Polarity, ci: Embedded, v: Value): Outcome
    requires v.Tag? || v.Variant?
    decreases rows, 0
  {
    match rows
    case EEmpty => Refuse(pol, v)
    case EVar(_) => Pass(v)
    case EExtend(id, arg, tail) =>
      if v.tag != id || v.Variant? != arg.Some? then RunEnum(tail, env, pol, ci, v)
      else if arg.None? then Pass(v)
      else
        var o := Run(arg.value, env, pol, ci, v.arg);
        Outcome(Variant(id, o.out), o.events)
  }

  // Taking off the seals made for the term

  /** The same observation in a run where the contract seals nothing on behalf of the term. */
  function Erase(v: Value): Value {
    match v
    case Atom(_, _) => v
    case Tag(_) => v
    case Elems(es) => Elems(seq(|es|, i requires 0 <= i < |es| => Erase(es[i])))
    case Fields(fs, tail) => Fields((map x | x in fs :: Erase(fs[x])) + EraseTail(tail).0, EraseTail(tail).1)
    case Variant(tag, arg) => Variant(tag, Erase(arg))
    case Fun(args, results) =>
      Fun(seq(|args|, i requires 0 <= i < |args| => Erase(args[i])),
          seq(|results|, i requires 0 <= i < |results| => Erase(results[i])))
    case Sealed(key, pol, inner) => if pol.Positive? then Erase(inner) else Sealed(key, pol, Erase(inner))
  }

  function EraseAll(vs: seq<Value>): seq<Value> {
    seq(|vs|, i requires 0 <= i < |vs| => Erase(vs[i]))
  }

  function EraseFields(fs: map<Ident, Value>): map<Ident, Value> {
    map x | x in fs :: Erase(fs[x])
  }

  /** The fields a tail gives back, and the tail that is left. */
  function EraseTail(tail: Tail): (map<Ident, Value>, Tail) {
    match tail
    case NoTail => (map[], NoTail)
    case SealedTail(key, pol, fs, rest) =>
      var (more, left) := EraseTail(rest);
      var all := (map x | x in fs :: Erase(fs[x])) + more;
      if pol.Positive? then (all, left) else (map[], SealedTail(key, pol, all, left))
  }

  /** An embedded contract that looks at a value sealed for the term can only blame the term. */
  ghost predicate SealBlind(ci: Embedded) {
    forall c: nat, pol: Polarity, v: Value ::
      TermSafe(ci(c, pol, v).events) ==>
        ci(c, pol, Erase(v)) == Outcome(Erase(ci(c, pol, v).out), ci(c, pol, v).events)
  }
}
