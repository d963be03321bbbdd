/**
 Whom the contract of a type blames, said without running it.

 A value of a type has a provider and a user. In a type without quantifiers, each part of the observation
 is owed by one of the two: the results of a function by its provider, its arguments by its user, and so
 on with the sides changing at every arrow. The contract blames exactly those who do not keep the type.
 For quantifiers, sealing and unsealing undo each other, and nothing else gets through.
 */
module BlameSides {
  import opened Types
  import opened Blame
  import opened Agreement

  datatype Side = Provider | User {
    function Other(): Side {
      if this.Provider? then User else Provider
    }
  }

  /** No quantifier, no variable and no embedded contract. */
  predicate Simple(t: Type)
    decreases t
  {
    match t
    case Var(_) => false
    case Contract(_) => false
    case Forall(_, _, _) => false
    case Arrow(dom, codom) => Simple(dom) && Simple(codom)
    case Array(elem) => Simple(elem)
    case Dict(field, _) => Simple(field)
    case Record(rows) => SimpleRows(rows)
    case Enum(rows) => SimpleCases(rows)
    case _ => true
  }

  predicate SimpleRows(rows: RecordRows)
    decreases rows
  {
    !rows.RVar? && (rows.RExtend? ==> Simple(rows.typ) && SimpleRows(rows.tail))
  }

  predicate SimpleCases(rows: EnumRows)
    decreases rows
  {
    !rows.EVar? && (rows.EExtend? ==> (rows.arg.Some? ==> Simple(rows.arg.value)) && SimpleCases(rows.tail))
  }

  /** Nothing in the value is sealed. */
  predicate Plain(v: Value) {
    match v
    case Elems(es) => forall e <- es :: Plain(e)
    case Fields(fs, tail) => tail.NoTail? && forall x <- fs :: Plain(fs[x])
    case Variant(_, arg) => Plain(arg)
    case Fun(args, results) => (forall a <- args :: Plain(a)) && forall r <- results :: Plain(r)
    case Sealed(_, _, _) => false
    case _ => true
  }

  predicate IsAtom(v: Value, g: Ground) {
    v.Atom? && v.ground == g
  }

  /** The value has the fields that are listed, and no others if the record is closed. */
  predicate HasFields(v: Value, rows: RecordRows) {
    && v.Fields? && Declared(rows) <= v.fields.Keys
    && (TailOf(rows).REmpty? ==> v.fields.Keys <= Declared(rows))
  }

  /** What one side owes to a value of type `t` is as it should be. */
  predicate Keeps(v: Value, t: Type, side: Side)
    decreases t
  {
    match t
    case Number => side.User? || IsAtom(v, NumberGround)
    case Bool => side.User? || IsAtom(v, BoolGround)
    case String => side.User? || IsAtom(v, StringGround)
    case ForeignId => side.User? || IsAtom(v, ForeignGround)
    case Arrow(dom, codom) =>
      if !v.Fun? then side.User? else
      (forall a <- v.args :: Keeps(a, dom, side.Other())) && forall r <- v.results :: Keeps(r, codom, side)
    case Array(elem) => if !v.Elems? then side.User? else forall e <- v.elems :: Keeps(e, elem, side)
    case Dict(field, _) => if !v.Fields? then side.User? else forall x <- v.fields :: Keeps(v.fields[x], field, side)
    case Record(rows) => if !HasFields(v, rows) then side.User? else KeepsRows(v.fields, rows, side)
    case Enum(rows) => KeepsCase(v, rows, side)
    case _ => true
  }

  predicate KeepsRows(fs: map<Ident, Value>, rows: RecordRows, side: Side)
    decreases rows
  {
    rows.RExtend? ==> (rows.id in fs ==> Keeps(fs[rows.id], rows.typ, side)) && KeepsRows(fs, rows.tail, side)
  }

  predicate KeepsCase(v: Value, rows: EnumRows, side: Side)
    decreases rows
  {
    if !rows.EExtend? || !(v.Tag? || v.Variant?) then side.User?
    else if rows.id == v.tag && rows.arg.Some? == v.Variant? then v.Variant? ==> Keeps(v.arg, rows.arg.value, side)
    else KeepsCase(v, rows.tail, side)
  }

  /** The failures that blame those who do not keep their side. */
  function Faults(provider: bool, user: bool, pol: Polarity): set<Event> {
    (if provider then {} else {Fail(pol, pol)}) + (if user then {} else {Fail(pol.Flip(), pol.Flip())})
  }

  ghost predicate BlamesRight(t: Type, env: Env, pol: Polarity, ci: Embedded, v: Value) {
    Run(t, env, pol, ci, v) == Outcome(v, Faults(Keeps(v, t, Provider), Keeps(v, t, User), pol))
  }

  /** The contract of a simple type leaves the value as it is, and blames exactly the side that breaks the type. */
  lemma {:induction false} BlameIsRight(t: Type, env: Env, pol: Polarity, ci: Embedded, v: Value)
    requires Simple(t) && Plain(v)
    ensures BlamesRight(t, env, pol, ci, v)
    decreases t
  {
    match t
    case Arrow(dom, codom) =>
      if v.Fun? {
        forall a <- v.args ensures BlamesRight(dom, env, pol.Flip(), ci, a) {
          BlameIsRight(dom, env, pol.Flip(), ci, a);
        }
        forall r <- v.results ensures BlamesRight(codom, env, pol, ci, r) {
          BlameIsRight(codom, env, pol, ci, r);
        }
        FunctionBlames(dom, codom, env, pol, ci, v);
      }
    case Array(elem) =>
      if v.Elems? {
        forall e <- v.elems ensures BlamesRight(elem, env, pol, ci, e) {
          BlameIsRight(elem, env, pol, ci, e);
        }
        AllBlame(elem, env, pol, ci, v.elems);
      }
    case Dict(field, flavour) =>
      if v.Fields? {
        forall x <- v.fields ensures BlamesRight(field, env, pol, ci, v.fields[x]) {
          BlameIsRight(field, env, pol, ci, v.fields[x]);
        }
        DictBlames(field, flavour, env, pol, ci, v);
      }
    case Record(rows) =>
      if v.Fields? {
        RowsBlame(rows, env, pol, ci, v.fields);
        RecordBlames(rows, env, pol, ci, v);
      }
    case Enum(rows) => if v.Tag? || v.Variant? { CaseBlames(rows, env, pol, ci, v); }
    case _ =>
  }

  predicate AllKeep(vs: seq<Value>, t: Type, side: Side) {
    forall v <- vs :: Keeps(v, t, side)
  }

  lemma FaultsJoin(a: bool, b: bool, c: bool, d: bool, pol: Polarity)
    ensures Faults(a, b, pol) + Faults(c, d, pol) == Faults(a && c, b && d, pol)
    ensures Faults(a, b, pol.Flip()) == Faults(b, a, pol)
  {
  }

  lemma {:induction false} AllBlame(t: Type, env: Env, pol: Polarity, ci: Embedded, vs: seq<Value>)
    requires forall v <- vs :: BlamesRight(t, env, pol, ci, v)
    ensures RunAll(t, env, pol, ci, vs) == Outcomes(vs, Faults(AllKeep(vs, t, Provider), AllKeep(vs, t, User), pol))
    decreases |vs|
  {
    hide Run, Keeps;
    if vs != [] {
      hide Faults, AllKeep;
      assert BlamesRight(t, env, pol, ci, vs[0]);
      AllBlame(t, env, pol, ci, vs[1..]);
      assert vs == [vs[0]] + vs[1..];
      AllSplit(t, Provider, vs);
      AllSplit(t, User, vs);
      FaultsJoin(Keeps(vs[0], t, Provider), Keeps(vs[0], t, User), AllKeep(vs[1..], t, Provider),
                 AllKeep(vs[1..], t, User), pol);
    }
  }

  lemma AllSplit(t: Type, side: Side, vs: seq<Value>)
    requires vs != []
    ensures AllKeep(vs, t, side) <==> Keeps(vs[0], t, side) && AllKeep(vs[1..], t, side)
  {
    hide Keeps;
    if Keeps(vs[0], t, side) && AllKeep(vs[1..], t, side) {
      forall v <- vs ensures Keeps(v, t, side) {
        assert v == vs[0] || v in vs[1..];
      }
    }
  }

  lemma FunctionBlames(dom: Type, codom: Type, env: Env, pol: Polarity, ci: Embedded, v: Value)
    requires v.Fun?
    requires forall a <- v.args :: BlamesRight(dom, env, pol.Flip(), ci, a)
    requires forall r <- v.results :: BlamesRight(codom, env, pol, ci, r)
    ensures BlamesRight(Arrow(dom, codom), env, pol, ci, v)
  {
    hide Run, Keeps, AllKeep, Faults;
    AllBlame(dom, env, pol.Flip(), ci, v.args);
    AllBlame(codom, env, pol, ci, v.results);
    RunArrow(dom, codom, env, pol, ci, v);
    KeepsFunction(dom, codom, v, Provider);
    KeepsFunction(dom, codom, v, User);
    FaultsJoin(AllKeep(v.args, dom, Provider), AllKeep(v.args, dom, User), true, true, pol);
    FaultsJoin(AllKeep(v.args, dom, User), AllKeep(v.args, dom, Provider), AllKeep(v.results, codom, Provider),
               AllKeep(v.results, codom, User), pol);
  }

  lemma KeepsFunction(dom: Type, codom: Type, v: Value, side: Side)
    requires v.Fun?
    ensures Keeps(v, Arrow(dom, codom), side) <==>
            AllKeep(v.args, dom, side.Other()) && AllKeep(v.results, codom, side)
  {
  }

  predicate EachKeeps(fs: map<Ident, Value>, t: Type, side: Side) {
    forall x <- fs :: Keeps(fs[x], t, side)
  }

  lemma DictBlames(field: Type, flavour: DictFlavour, env: Env, pol: Polarity, ci: Embedded, v: Value)
    requires v.Fields? && v.tail.NoTail? && forall x <- v.fields :: BlamesRight(field, env, pol, ci, v.fields[x])
    ensures BlamesRight(Dict(field, flavour), env, pol, ci, v)
  {
    hide Run, Keeps, EachKeeps, Collect, RunEach;
    RunDictType(field, flavour, env, pol, ci, v);
    KeepsDict(field, flavour, v, Provider);
    KeepsDict(field, flavour, v, User);
    if field.Dyn? {
      DynIsKept(v.fields, Provider);
      DynIsKept(v.fields, User);
    } else {
      EachBlames(field, env, pol, ci, v.fields, v.tail);
    }
  }

  lemma EachBlames(t: Type, env: Env, pol: Polarity, ci: Embedded, fs: map<Ident, Value>, tail: Tail)
    requires forall x <- fs :: BlamesRight(t, env, pol, ci, fs[x])
    ensures Collect(RunEach(t, env, pol, ci, fs), tail) ==
            Outcome(Fields(fs, tail), Faults(EachKeeps(fs, t, Provider), EachKeeps(fs, t, User), pol))
  {
    hide Run, Keeps;
    var os := RunEach(t, env, pol, ci, fs);
    var o := Collect(os, tail);
    forall x <- fs ensures os[x] == Outcome(fs[x], Faults(Keeps(fs[x], t, Provider), Keeps(fs[x], t, User), pol)) {
      assert BlamesRight(t, env, pol, ci, fs[x]);
    }
    assert o.out.fields == fs;
    forall e ensures e in o.events <==> e in Faults(EachKeeps(fs, t, Provider), EachKeeps(fs, t, User), pol) {
      if e == Fail(pol, pol) && !EachKeeps(fs, t, Provider) {
        var x :| x in fs && !Keeps(fs[x], t, Provider);
        assert e in os[x].events;
      }
      if e == Fail(pol.Flip(), pol.Flip()) && !EachKeeps(fs, t, User) {
        var x :| x in fs && !Keeps(fs[x], t, User);
        assert e in os[x].events;
      }
    }
  }

  /**
   On a sealed tail, `{_ : T}` blames whoever was to respect the seal. `{_ | T}` checks the visible fields
   and leaves the tail alone, as long as nothing in it is hidden for the term.
   */
  lemma DictOnSealedTail(field: Type, env: Env, pol: Polarity, ci: Embedded, v: Value)
    requires Simple(field) && !field.Dyn? && v.Fields? && v.tail.SealedTail?
    requires forall x <- v.fields :: Plain(v.fields[x])
    ensures Run(Dict(field, TypeFlavour), env, pol, ci, v) == Outcome(v, {Fail(pol, v.tail.pol)})
    ensures Hidden(v.tail) == {} ==>
              Run(Dict(field, ContractFlavour), env, pol, ci, v) ==
                Outcome(v, Faults(EachKeeps(v.fields, field, Provider), EachKeeps(v.fields, field, User), pol))
  {
    RunDictType(field, TypeFlavour, env, pol, ci, v);
    RunDictType(field, ContractFlavour, env, pol, ci, v);
    hide Run, Keeps, EachKeeps, Collect, RunEach, Hidden;
    forall x <- v.fields ensures BlamesRight(field, env, pol, ci, v.fields[x]) {
      BlameIsRight(field, env, pol, ci, v.fields[x]);
    }
    EachBlames(field, env, pol, ci, v.fields, v.tail);
  }

  lemma DynIsKept(fs: map<Ident, Value>, side: Side)
    ensures EachKeeps(fs, Dyn, side)
  {
  }

  lemma KeepsDict(field: Type, flavour: DictFlavour, v: Value, side: Side)
    requires v.Fields?
    ensures Keeps(v, Dict(field, flavour), side) <==> EachKeeps(v.fields, field, side)
  {
  }

  lemma {:induction false} RowsBlame(rows: RecordRows, env: Env, pol: Polarity, ci: Embedded, fs: map<Ident, Value>)
    requires SimpleRows(rows) && forall x <- fs :: Plain(fs[x])
    ensures RunFields(rows, env, pol, ci, fs) ==
            FieldsOutcome(fs, Faults(KeepsRows(fs, rows, Provider), KeepsRows(fs, rows, User), pol))
    decreases rows
  {
    if rows.RExtend? {
      RowsBlame(rows.tail, env, pol, ci, fs);
      if rows.id in fs {
        BlameIsRight(rows.typ, env, pol, ci, fs[rows.id]);
        assert fs[rows.id := fs[rows.id]] == fs;
      }
    }
  }

  lemma RecordBlames(rows: RecordRows, env: Env, pol: Polarity, ci: Embedded, v: Value)
    requires SimpleRows(rows) && v.Fields? && v.tail.NoTail?
    requires RunFields(rows, env, pol, ci, v.fields) ==
             FieldsOutcome(v.fields, Faults(KeepsRows(v.fields, rows, Provider), KeepsRows(v.fields, rows, User), pol))
    ensures BlamesRight(Record(rows), env, pol, ci, v)
  {
    RunRecordType(rows, env, pol, ci, v);
    KeepsRecord(rows, v, Provider);
    KeepsRecord(rows, v, User);
    SimpleTail(rows);
    hide Run, Keeps, KeepsRows, RunFields;
  }

  lemma KeepsRecord(rows: RecordRows, v: Value, side: Side)
    ensures Keeps(v, Record(rows), side) <==> if HasFields(v, rows) then KeepsRows(v.fields, rows, side) else side.User?
  {
  }

  lemma {:induction false} SimpleTail(rows: RecordRows)
    requires SimpleRows(rows)
    ensures !TailOf(rows).RVar?
    decreases rows
  {
    if rows.RExtend? {
      SimpleTail(rows.tail);
    }
  }

  lemma {:induction false} CaseBlames(rows: EnumRows, env: Env, pol: Polarity, ci: Embedded, v: Value)
    requires SimpleCases(rows) && Plain(v) && (v.Tag? || v.Variant?)
    ensures RunEnum(rows, env, pol, ci, v) ==
            Outcome(v, Faults(KeepsCase(v, rows, Provider), KeepsCase(v, rows, User), pol))
    decreases rows
  {
    if rows.EExtend? {
      if rows.id == v.tag && rows.arg.Some? == v.Variant? {
        if v.Variant? {
          BlameIsRight(rows.arg.value, env, pol, ci, v.arg);
        }
      } else {
        CaseBlames(rows.tail, env, pol, ci, v);
      }
    }
  }

  // Quantifiers

  /** At the polarity of its quantifier a variable accepts exactly what it sealed itself, and gives it back. */
  lemma SealAndUnseal(x: Ident, env: Env, ci: Embedded, v: Value, w: Value)
    requires x in env && env[x].SealVar?
    ensures
      var c := env[x];
      var s := Run(Var(x), env, c.pol.Flip(), ci, v).out;
      && Run(Var(x), env, c.pol.Flip(), ci, v).events == {}
      && Run(Var(x), env, c.pol, ci, s) == Outcome(v, {})
      && (Run(Var(x), env, c.pol, ci, w).events == {} <==> w.Sealed? && w.key == c.key && w.pol == c.pol)
  {
  }

  /** The record type whose listed fields are all dynamic. */
  predicate OnlyNames(rows: RecordRows) {
    rows.RExtend? ==> rows.typ.Dyn? && OnlyNames(rows.tail)
  }

  lemma {:induction false} NamesChangeNothing(rows: RecordRows, env: Env, pol: Polarity, ci: Embedded,
                                              fs: map<Ident, Value>)
    requires OnlyNames(rows)
    ensures RunFields(rows, env, pol, ci, fs) == FieldsOutcome(fs, {})
    decreases rows
  {
    if rows.RExtend? {
      NamesChangeNothing(rows.tail, env, pol, ci, fs);
      if rows.id in fs {
        assert fs[rows.id := fs[rows.id]] == fs;
      }
    }
  }

  /**
   Sealing the tail of a record hides exactly the fields that are not listed, and unsealing gives the
   record back; a record is sealed exactly when it has the listed fields and no excluded one besides.
   */
  lemma SealAndUnsealTail(rows: RecordRows, env: Env, ci: Embedded, v: Value)
    requires OnlyNames(rows) && TailOf(rows).RVar? && TailOf(rows).id in env && env[TailOf(rows).id].SealTail?
    requires v.Fields? && v.tail.NoTail?
    ensures
      var c := env[TailOf(rows).id];
      var o := Run(Record(rows), env, c.pol.Flip(), ci, v);
      && (o.events == {} <==>
            Declared(rows) <= v.fields.Keys && (v.fields.Keys - Declared(rows)) * c.excluded == {})
      && (o.events == {} ==>
            && o.out.Fields? && o.out.fields.Keys == Declared(rows)
            && Run(Record(rows), env, c.pol, ci, o.out) == Outcome(v, {}))
  {
    var c, listed := env[TailOf(rows).id], Declared(rows);
    NamesChangeNothing(rows, env, c.pol.Flip(), ci, v.fields);
    RunRecordType(rows, env, c.pol.Flip(), ci, v);
    var o := Run(Record(rows), env, c.pol.Flip(), ci, v);
    if listed <= v.fields.Keys && (v.fields.Keys - listed) * c.excluded == {} {
      SealedBack(rows, env, ci, v, o.out);
    }
  }

  lemma SealedBack(rows: RecordRows, env: Env, ci: Embedded, v: Value, s: Value)
    requires OnlyNames(rows) && TailOf(rows).RVar? && TailOf(rows).id in env && env[TailOf(rows).id].SealTail?
    requires v.Fields? && v.tail.NoTail? && Declared(rows) <= v.fields.Keys
    requires
      var c := env[TailOf(rows).id];
      s == Fields(Restrict(v.fields, Declared(rows)),
                  SealedTail(c.key, c.pol, Restrict(v.fields, v.fields.Keys - Declared(rows)), NoTail))
    ensures s.fields.Keys == Declared(rows) && Run(Record(rows), env, env[TailOf(rows).id].pol, ci, s) == Outcome(v, {})
  {
    var c, listed := env[TailOf(rows).id], Declared(rows);
    NamesChangeNothing(rows, env, c.pol, ci, s.fields);
    RunRecordType(rows, env, c.pol, ci, s);
    assert s.fields.Keys == listed;
    assert s.tail.fields.Keys == v.fields.Keys - listed;
    assert Hidden(s.tail.rest) == {};
    assert (s.tail.fields.Keys + Hidden(s.tail.rest)) * s.fields.Keys == {};
    assert s.fields + s.tail.fields == v.fields;
  }
}
