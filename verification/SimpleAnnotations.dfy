/** What is left of the contract of an annotation without quantifiers, for a term that keeps its type. */
module SimpleAnnotations {
  import opened Types
  import opened Blame
  import opened Simplify
  import opened Hazards
  import opened BlameSides
  import StaticContract

  lemma {:induction false} PlainIsErased(v: Value)
    requires Plain(v)
    ensures Erase(v) == v
    decreases v
  {
    match v
    case Elems(es) => AllErased(v, es);
    case Fields(fs, tail) =>
      forall x <- fs ensures Erase(fs[x]) == fs[x] { PlainIsErased(fs[x]); }
      assert EraseTail(NoTail) == (map[], NoTail);
      assert Erase(v).fields == fs;
    case Variant(_, arg) => PlainIsErased(arg);
    case Fun(args, results) =>
      AllErased(v, args);
      AllErased(v, results);
      assert Erase(v) == Fun(EraseAll(args), EraseAll(results));
    case _ =>
  }

  lemma {:induction false} AllErased(v: Value, vs: seq<Value>)
    requires (v.Elems? && vs == v.elems) || (v.Fun? && (vs == v.args || vs == v.results))
    requires forall x <- vs :: Plain(x)
    ensures EraseAll(vs) == vs
    decreases v, 0
  {
    forall i | 0 <= i < |vs| ensures Erase(vs[i]) == vs[i] {
      PlainIsErased(vs[i]);
    }
  }

  // A plain value meets nothing

  lemma {:induction false} PlainMeetsNothing(t: Type, env: Env, vars: SimplifyVars, pol: Polarity, ci: Embedded,
                                             v: Value)
    requires Simple(t) && Plain(v)
    ensures Met(t, env, vars, pol, ci, v) == {}
    decreases t, 0
  {
    match t
    case Arrow(dom, codom) =>
      if v.Fun? {
        AllMeetNothing(dom, env, vars, pol.Flip(), ci, v.args);
        AllMeetNothing(codom, env, vars, pol, ci, v.results);
      }
    case Array(elem) => if v.Elems? { AllMeetNothing(elem, env, vars, pol, ci, v.elems); }
    case Dict(field, _) =>
      if v.Fields? {
        forall x <- v.fields ensures Met(field, env, vars, pol, ci, v.fields[x]) == {} {
          PlainMeetsNothing(field, env, vars, pol, ci, v.fields[x]);
        }
      }
    case Record(rows) =>
      if v.Fields? {
        RowsMeetNothing(rows, env, vars, pol, ci, v.fields);
        SimpleTail(rows);
      }
    case Enum(rows) => if v.Tag? || v.Variant? { CaseMeetsNothing(rows, env, vars, pol, ci, v); }
    case _ =>
  }

  lemma {:induction false} AllMeetNothing(t: Type, env: Env, vars: SimplifyVars, pol: Polarity, ci: Embedded,
                                          vs: seq<Value>)
    requires Simple(t) && forall v <- vs :: Plain(v)
    ensures MetAll(t, env, vars, pol, ci, vs) == {}
    decreases t, 1, |vs|
  {
    if vs != [] {
      PlainMeetsNothing(t, env, vars, pol, ci, vs[0]);
      AllMeetNothing(t, env, vars, pol, ci, vs[1..]);
    }
  }

  lemma {:induction false} RowsMeetNothing(rows: RecordRows, env: Env, vars: SimplifyVars, pol: Polarity, ci: Embedded,
                                           fs: map<Ident, Value>)
    requires SimpleRows(rows) && forall x <- fs :: Plain(fs[x])
    ensures MetFields(rows, env, vars, pol, ci, fs) == {}
    decreases rows, 0
  {
    if rows.RExtend? {
      RowsMeetNothing(rows.tail, env, vars, pol, ci, fs);
      if rows.id in fs {
        PlainMeetsNothing(rows.typ, env, vars, pol, ci, fs[rows.id]);
      }
    }
  }

  lemma {:induction false} CaseMeetsNothing(rows: EnumRows, env: Env, vars: SimplifyVars, pol: Polarity, ci: Embedded,
                                            v: Value)
    requires SimpleCases(rows) && Plain(v) && (v.Tag? || v.Variant?)
    ensures MetEnum(rows, env, vars, pol, ci, v) == {}
    decreases rows, 0
  {
    if rows.EExtend? {
      CaseMeetsNothing(rows.tail, env, vars, pol, ci, v);
      if v.Variant? && rows.arg.Some? {
        PlainMeetsNothing(rows.arg.value, env, vars, pol, ci, v.arg);
      }
    }
  }

  // Without quantifiers there is nothing to rebind

  lemma {:induction false} SimpleIsShadowFree(t: Type, vars: SimplifyVars, pol: Polarity)
    requires Simple(t)
    ensures ShadowFree(t, vars, pol)
    decreases t
  {
    match t
    case Arrow(dom, codom) =>
      SimpleIsShadowFree(dom, vars, pol.Flip());
      SimpleIsShadowFree(codom, vars, pol);
    case Array(elem) => SimpleIsShadowFree(elem, vars, pol);
    case Dict(field, _) => SimpleIsShadowFree(field, vars, pol);
    case Record(rows) => SimpleRowsAreShadowFree(rows, vars, pol);
    case Enum(rows) => SimpleCasesAreShadowFree(rows, vars, pol);
    case _ =>
  }

  lemma {:induction false} SimpleRowsAreShadowFree(rows: RecordRows, vars: SimplifyVars, pol: Polarity)
    requires SimpleRows(rows)
    ensures ShadowFreeRecord(rows, vars, pol)
    decreases rows
  {
    if rows.RExtend? {
      SimpleIsShadowFree(rows.typ, vars, pol);
      SimpleRowsAreShadowFree(rows.tail, vars, pol);
    }
  }

  lemma {:induction false} SimpleCasesAreShadowFree(rows: EnumRows, vars: SimplifyVars, pol: Polarity)
    requires SimpleCases(rows)
    ensures ShadowFreeEnum(rows, vars, pol)
    decreases rows
  {
    if rows.EExtend? {
      SimpleCasesAreShadowFree(rows.tail, vars, pol);
      if rows.arg.Some? {
        SimpleIsShadowFree(rows.arg.value, vars, pol);
      }
    }
  }

  /**
   If the term keeps its side of a type without quantifiers, the simplified contract blames the context
   exactly when the context does not keep its own, and nobody else, and leaves the value as it is.
   */
  lemma ContextIsStillChecked(t: Type, next: nat, ci: Embedded, v: Value)
    requires Simple(t) && Plain(v) && WellKinded(t, map[], Positive) && SealBlind(ci) && Keeps(v, t, Provider)
    ensures
      var (t', s) := Simplified(t, next);
      Run(t', s.env, Positive, ci, v) == Outcome(v, if Keeps(v, t, User) then {} else {Fail(Negative, Negative)})
  {
    hide Run, SimplifyType, Met, Erase, Keeps, WellKinded, ShadowFree, SealBlind;
    BlameIsRight(t, map[], Positive, ci, v);
    SimpleIsShadowFree(t, NO_VARS, Positive);
    PlainIsErased(v);
    PlainMeetsNothing(t, map[], NO_VARS, Positive, ci, v);
    StaticContract.SimplifiedContractAgrees(t, next, ci, v);
  }
}
