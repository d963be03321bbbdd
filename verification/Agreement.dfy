/** When the run of a contract agrees with a run on values whose term-side seals are erased. */
module Agreement {
  import opened Types
  import opened Blame
  import opened Simplify
  import opened Hazards

  /**
   The same events but for those lost and gained, and the same value up to erased seals unless another is
   announced.
   */
  ghost predicate Agrees(o: Outcome, o': Outcome, h: set<Hazard>) {
    o.events + Gained(h) == o'.events + Lost(h) && (OtherValue in h <==> o'.out != Erase(o.out))
  }

  /**
   A check that fails on the shape of a value keeps failing once seals are erased, or the term was at
   fault. In positive position the value is sealed for a quantifier of the context.
   */
  lemma WrongShapeAgrees(pol: Polarity, v: Value)
    requires TermSafe(WrongShape(pol, v).events)
    ensures !(v.Sealed? && v.pol.Positive?) && (pol.Positive? ==> v.Sealed? && v.pol.Negative?)
    ensures Agrees(WrongShape(pol, v), WrongShape(pol, Erase(v)), {})
    ensures pol.Positive? ==> Agrees(WrongShape(pol, v), Pass(Erase(v)), {SkippedCheck(Positive)})
  {
    assert Fail(pol, if v.Sealed? then v.pol else pol) in WrongShape(pol, v).events;
    assert Lost({SkippedCheck(Positive)}) == {Fail(Positive, Negative)};
  }

  /** The same when simplification may have removed the check. */
  lemma ShapeAgrees(t: Type, vars: SimplifyVars, pol: Polarity, v: Value)
    requires TermSafe(WrongShape(pol, v).events)
    ensures
      var gone := pol.Positive? && BecomesDyn(t, vars);
      Agrees(WrongShape(pol, v), if gone then Pass(Erase(v)) else WrongShape(pol, Erase(v)), MetShape(t, vars, pol, v))
  {
    hide Erase, BecomesDyn, Agrees;
    WrongShapeAgrees(pol, v);
  }

  lemma GroundStep(g: Ground, pol: Polarity, v: Value)
    requires TermSafe(RunGround(g, pol, v).events)
    ensures Agrees(RunGround(g, pol, v), if pol.Positive? then Pass(Erase(v)) else RunGround(g, pol, Erase(v)),
                   if pol.Positive? && v.Sealed? && v.pol.Negative? then {SkippedCheck(Positive)} else {})
  {
    if !(v.Atom? && v.ground == g) {
      WrongShapeAgrees(pol, v);
    }
  }

  lemma ConsEqual(a: Value, xs: seq<Value>, b: Value, bs: seq<Value>)
    ensures [a] + xs == [b] + bs <==> a == b && xs == bs
  {
    assert ([a] + xs)[1..] == xs && ([b] + bs)[1..] == bs;
    assert ([a] + xs)[0] == a && ([b] + bs)[0] == b;
  }

  /** As `Agrees`, for several runs side by side. */
  ghost predicate AgreeAll(os: Outcomes, os': Outcomes, h: set<Hazard>) {
    os.events + Gained(h) == os'.events + Lost(h) && (OtherValue in h <==> os'.outs != EraseAll(os.outs))
  }

  lemma TwoHazards(h: set<Hazard>, rest: set<Hazard>)
    ensures Gained(h + rest) == Gained(h) + Gained(rest) && Lost(h + rest) == Lost(h) + Lost(rest)
  {
  }

  lemma ConsAgrees(o: Outcome, o': Outcome, h: set<Hazard>, os: Outcomes, os': Outcomes, hs: set<Hazard>)
    requires Agrees(o, o', h) && AgreeAll(os, os', hs)
    ensures AgreeAll(Outcomes([o.out] + os.outs, o.events + os.events),
                     Outcomes([o'.out] + os'.outs, o'.events + os'.events), h + hs)
  {
    hide Erase, Gained, Lost;
    TwoHazards(h, hs);
    assert o.events + os.events + (Gained(h) + Gained(hs)) == o'.events + os'.events + (Lost(h) + Lost(hs));
    assert EraseAll([o.out] + os.outs) == [Erase(o.out)] + EraseAll(os.outs);
    ConsEqual(o'.out, os'.outs, Erase(o.out), EraseAll(os.outs));
  }

  // Sealed tails

  lemma EraseRecord(fs: map<Ident, Value>, tail: Tail)
    ensures Erase(Fields(fs, tail)) == Fields(EraseFields(fs) + EraseTail(tail).0, EraseTail(tail).1)
  {
  }

  lemma EraseSealedTail(tail: Tail)
    ensures tail.SealedTail? ==>
      var (more, left) := EraseTail(tail.rest);
      var all := EraseFields(tail.fields) + more;
      EraseTail(tail) == if TermTail(tail) then (all, left) else (map[], SealedTail(tail.key, tail.pol, all, left))
  {
  }

  lemma {:induction false} HiddenGivenBack(tail: Tail)
    ensures EraseTail(tail).0.Keys == Hidden(tail)
    decreases tail
  {
    if tail.SealedTail? {
      HiddenGivenBack(tail.rest);
    }
  }

  lemma {:induction false} LeftIsNotTerm(tail: Tail)
    ensures !TermTail(EraseTail(tail).1) && Hidden(EraseTail(tail).1) == {}
    decreases tail
  {
    if tail.SealedTail? {
      LeftIsNotTerm(tail.rest);
    }
  }

  /** Without fields hidden for the term, erasing gives back none. */
  lemma NothingHidden(v: Value)
    requires v.Fields? && Hidden(v.tail) == {}
    ensures Erase(v) == Fields(EraseFields(v.fields), EraseTail(v.tail).1)
  {
    hide Erase, EraseTail, Hidden;
    EraseRecord(v.fields, v.tail);
    HiddenGivenBack(v.tail);
    assert EraseTail(v.tail).0 == map[];
    assert EraseFields(v.fields) + map[] == EraseFields(v.fields);
  }

  lemma NoTermTail(v: Value)
    requires v.Fields? && !TermTail(v.tail)
    ensures Hidden(v.tail) == {} && Erase(v) == Fields(EraseFields(v.fields), EraseTail(v.tail).1)
    ensures EraseTail(v.tail).1.SealedTail? == v.tail.SealedTail? && !TermTail(Erase(v).tail)
  {
    NothingHidden(v);
    EraseSealedTail(v.tail);
  }

  lemma ErasedPlus(a: map<Ident, Value>, b: map<Ident, Value>)
    ensures EraseFields(a + b) == EraseFields(a) + EraseFields(b)
  {
  }

  // Dictionaries

  lemma CollectAgrees(os: map<Ident, Outcome>, os': map<Ident, Outcome>, hs: map<Ident, set<Hazard>>, tail: Tail)
    requires os.Keys == os'.Keys == hs.Keys && Hidden(tail) == {} && forall x <- os :: Agrees(os[x], os'[x], hs[x])
    ensures Agrees(Collect(os, tail), Collect(os', EraseTail(tail).1), Union(hs))
  {
    hide Erase, EraseTail, Hidden, Gained, Lost, Collect, Union;
    CollectEvents(os, os', hs, tail);
    CollectValues(os, os', hs, tail);
  }

  lemma CollectValues(os: map<Ident, Outcome>, os': map<Ident, Outcome>, hs: map<Ident, set<Hazard>>, tail: Tail)
    requires os.Keys == os'.Keys == hs.Keys && Hidden(tail) == {} && forall x <- os :: Agrees(os[x], os'[x], hs[x])
    ensures OtherValue in Union(hs) <==> Collect(os', EraseTail(tail).1).out != Erase(Collect(os, tail).out)
  {
    hide Erase, EraseTail, Hidden, Gained, Lost;
    var o, o' := Collect(os, tail), Collect(os', EraseTail(tail).1);
    NothingHidden(o.out);
    if forall x <- os :: OtherValue !in hs[x] {
      assert forall x <- os :: o'.out.fields[x] == Erase(o.out).fields[x];
      assert o'.out.fields == Erase(o.out).fields;
    } else {
      var x :| x in os && OtherValue in hs[x];
      assert o'.out.fields[x] != Erase(o.out).fields[x];
    }
  }

  lemma CollectEvents(os: map<Ident, Outcome>, os': map<Ident, Outcome>, hs: map<Ident, set<Hazard>>, tail: Tail)
    requires os.Keys == os'.Keys == hs.Keys && forall x <- os :: Agrees(os[x], os'[x], hs[x])
    ensures Collect(os, tail).events + Gained(Union(hs)) == Collect(os', EraseTail(tail).1).events + Lost(Union(hs))
  {
    hide Erase, EraseTail, Gained, Lost, Union;
    var o, o' := Collect(os, tail).events, Collect(os', EraseTail(tail).1).events;
    forall e ensures e in o + Gained(Union(hs)) <==> e in o' + Lost(Union(hs)) {
      UnionEvents(hs, e);
      assert e in o <==> exists x :: x in os && e in os[x].events;
      assert e in o' <==> exists x :: x in os' && e in os'[x].events;
      if e in o + Gained(Union(hs)) {
        var x :| x in os && e in os[x].events + Gained(hs[x]);
        assert e in os'[x].events + Lost(hs[x]);
      }
      if e in o' + Lost(Union(hs)) {
        var x :| x in os && e in os'[x].events + Lost(hs[x]);
        assert e in os[x].events + Gained(hs[x]);
      }
    }
  }

  lemma UnionEvents(hs: map<Ident, set<Hazard>>, e: Event)
    ensures e in Gained(Union(hs)) <==> exists x :: x in hs && e in Gained(hs[x])
    ensures e in Lost(Union(hs)) <==> exists x :: x in hs && e in Lost(hs[x])
  {
    if e in Gained(Union(hs)) {
      var p :| NewRefusal(p) in Union(hs) && e == Fail(p, p);
      var x :| x in hs && NewRefusal(p) in hs[x];
      assert e in Gained(hs[x]);
    }
    if e in Lost(Union(hs)) {
      var p :| SkippedCheck(p) in Union(hs) && e == Fail(p, Negative);
      var x :| x in hs && SkippedCheck(p) in hs[x];
      assert e in Lost(hs[x]);
    }
  }

  lemma CollectSafe(os: map<Ident, Outcome>, tail: Tail)
    requires TermSafe(Collect(os, tail).events)
    ensures forall x <- os :: TermSafe(os[x].events)
  {
    forall x <- os, e <- os[x].events ensures e.Fail? && e.blamed.Negative? {
      assert e in Collect(os, tail).events;
    }
  }

  // The contracts of type constructors

  lemma RunArrow(dom: Type, codom: Type, env: Env, pol: Polarity, ci: Embedded, v: Value)
    ensures Run(Arrow(dom, codom), env, pol, ci, v) ==
            if !v.Fun? then WrongShape(pol, v) else
            var args := RunAll(dom, env, pol.Flip(), ci, v.args);
            var results := RunAll(codom, env, pol, ci, v.results);
            Outcome(Fun(args.outs, results.outs), args.events + results.events)
  {
  }

  lemma RunArray(elem: Type, env: Env, pol: Polarity, ci: Embedded, v: Value)
    ensures Run(Array(elem), env, pol, ci, v) ==
            if !v.Elems? then WrongShape(pol, v) else
            var os := RunAll(elem, env, pol, ci, v.elems);
            Outcome(Elems(os.outs), os.events)
  {
  }

  lemma RunDictType(field: Type, flavour: DictFlavour, env: Env, pol: Polarity, ci: Embedded, v: Value)
    ensures Run(Dict(field, flavour), env, pol, ci, v) ==
            if !v.Fields? then WrongShape(pol, v)
            else if field.Dyn? then Pass(v)
            else if DictRefuses(flavour, v) then DictRefusal(flavour, pol, v)
            else Collect(RunEach(field, env, pol, ci, v.fields), v.tail)
  {
  }

  lemma RunRecordType(rows: RecordRows, env: Env, pol: Polarity, ci: Embedded, v: Value)
    ensures Run(Record(rows), env, pol, ci, v) == RunRecord(rows, env, pol, ci, v)
  {
  }

  lemma RunEnumType(rows: EnumRows, env: Env, pol: Polarity, ci: Embedded, v: Value)
    ensures Run(Enum(rows), env, pol, ci, v) ==
            if !(v.Tag? || v.Variant?) then WrongShape(pol, v) else RunEnum(rows, env, pol, ci, v)
  {
  }

  lemma RunDyn(env: Env, pol: Polarity, ci: Embedded, v: Value)
    ensures Run(Dyn, env, pol, ci, v) == Pass(v)
  {
  }

  lemma {:induction false} DynAll(env: Env, pol: Polarity, ci: Embedded, vs: seq<Value>)
    ensures RunAll(Dyn, env, pol, ci, vs) == Outcomes(vs, {})
    decreases |vs|
  {
    if vs != [] {
      DynAll(env, pol, ci, vs[1..]);
    }
  }

  lemma DynEach(env: Env, pol: Polarity, ci: Embedded, fs: map<Ident, Value>, tail: Tail)
    ensures Collect(RunEach(Dyn, env, pol, ci, fs), tail) == Pass(Fields(fs, tail))
  {
    assert Collect(RunEach(Dyn, env, pol, ci, fs), tail).out.fields == fs;
  }

  // Records and their tails

  /** Outcomes `f` on the fields `fs` and `g` on the fields `gs` agree on the listed fields `listed`. */
  ghost predicate Fit(f: FieldsOutcome, g: FieldsOutcome, h: set<Hazard>, listed: set<Ident>, fs: map<Ident, Value>,
                      gs: map<Ident, Value>) {
    && f.fields.Keys == fs.Keys && listed <= fs.Keys && (forall x <- fs :: x !in listed ==> f.fields[x] == fs[x])
    && g.fields.Keys == gs.Keys && listed <= gs.Keys && (forall x <- gs :: x !in listed ==> g.fields[x] == gs[x])
    && f.events + Gained(h) == g.events + Lost(h)
    && (OtherValue in h <==> exists x :: x in listed && g.fields[x] != Erase(f.fields[x]))
  }

  /** As `Fit`, when the contracts of the fields get to run and are safe. */
  ghost predicate FitIfSafe(f: FieldsOutcome, g: FieldsOutcome, h: set<Hazard>, listed: set<Ident>,
                            fs: map<Ident, Value>, gs: map<Ident, Value>) {
    listed <= fs.Keys && (TermSafe(f.events) ==> Fit(f, g, h, listed, fs, gs))
  }

  /** Nothing that erasing brings to light covers a field that was visible. */
  predicate Disjoint(v: Value)
    requires v.Fields?
  {
    Hidden(v.tail) !! v.fields.Keys
  }

  lemma VisibleErased(v: Value)
    requires v.Fields? && Disjoint(v)
    ensures Erase(v).fields.Keys == v.fields.Keys + Hidden(v.tail) && !TermTail(Erase(v).tail)
    ensures Hidden(Erase(v).tail) == {}
    ensures Erase(v).fields == EraseFields(v.fields) + EraseTail(v.tail).0 && Erase(v).tail == EraseTail(v.tail).1
    ensures forall x <- v.fields :: Erase(v).fields[x] == Erase(v.fields[x])
  {
    hide Erase, EraseTail, Hidden;
    EraseRecord(v.fields, v.tail);
    HiddenGivenBack(v.tail);
    LeftIsNotTerm(v.tail);
  }

  /** All fields together agree as soon as the listed ones do. */
  lemma FieldsAgree(listed: set<Ident>, v: Value, f: FieldsOutcome, g: FieldsOutcome, h: set<Hazard>)
    requires v.Fields? && Disjoint(v) && Fit(f, g, h, listed, v.fields, Erase(v).fields)
    ensures OtherValue in h <==> g.fields != EraseFields(f.fields) + EraseTail(v.tail).0
  {
    hide Erase, EraseTail, Hidden;
    VisibleErased(v);
    HiddenGivenBack(v.tail);
    var all := EraseFields(f.fields) + EraseTail(v.tail).0;
    if forall x <- listed :: g.fields[x] == Erase(f.fields[x]) {
      assert g.fields == all;
    } else {
      var x :| x in listed && g.fields[x] != Erase(f.fields[x]);
      assert all[x] == Erase(f.fields[x]);
    }
  }

  /** The listed fields by themselves. */
  lemma ListedAgree(listed: set<Ident>, v: Value, f: FieldsOutcome, g: FieldsOutcome, h: set<Hazard>)
    requires v.Fields? && Fit(f, g, h, listed, v.fields, Erase(v).fields)
    ensures OtherValue in h <==> Restrict(g.fields, listed) != EraseFields(Restrict(f.fields, listed))
  {
    hide Erase;
    if OtherValue in h {
      var x :| x in listed && g.fields[x] != Erase(f.fields[x]);
      assert Restrict(g.fields, listed)[x] != EraseFields(Restrict(f.fields, listed))[x];
    }
  }

  /** The other fields, with those that erasing brings to light. */
  lemma OthersAgree(listed: set<Ident>, v: Value, f: FieldsOutcome, g: FieldsOutcome, h: set<Hazard>)
    requires v.Fields? && Disjoint(v) && Fit(f, g, h, listed, v.fields, Erase(v).fields)
    ensures Restrict(g.fields, Erase(v).fields.Keys - listed) ==
            EraseFields(Restrict(f.fields, v.fields.Keys - listed)) + EraseTail(v.tail).0
  {
    hide Erase, EraseTail, Hidden;
    VisibleErased(v);
    HiddenGivenBack(v.tail);
  }

  lemma OpenTailAgrees(listed: set<Ident>, v: Value, f: FieldsOutcome, g: FieldsOutcome, h: set<Hazard>)
    requires v.Fields? && Disjoint(v) && Fit(f, g, h, listed, v.fields, Erase(v).fields)
    ensures Agrees(OpenTail(v, f), OpenTail(Erase(v), g), h)
  {
    hide Erase, EraseTail, Hidden, Fit;
    VisibleErased(v);
    FieldsAgree(listed, v, f, g, h);
    EraseRecord(f.fields, v.tail);
    FitEvents(listed, v, f, g, h);
    assert Hidden(v.tail) * v.fields.Keys == {};
  }

  lemma FitEvents(listed: set<Ident>, v: Value, f: FieldsOutcome, g: FieldsOutcome, h: set<Hazard>)
    requires v.Fields? && Fit(f, g, h, listed, v.fields, Erase(v).fields)
    ensures f.events + Gained(h) == g.events + Lost(h) && f.fields.Keys == v.fields.Keys
    ensures g.fields.Keys == Erase(v).fields.Keys
  {
  }

  lemma ClosedTailAgrees(listed: set<Ident>, pol: Polarity, v: Value, f: FieldsOutcome, g: FieldsOutcome,
                         h: set<Hazard>)
    requires v.Fields? && v.fields.Keys - listed == {} && v.tail.NoTail?
    requires Fit(f, g, h, listed, v.fields, Erase(v).fields)
    ensures Agrees(ClosedTail(listed, pol, v, f),
                   if pol.Positive? then OpenTail(Erase(v), g) else ClosedTail(listed, pol, Erase(v), g), h)
  {
    NoTermTail(v);
    NothingHidden(Fields(f.fields, NoTail));
    FieldsAgree(listed, v, f, g, h);
    assert EraseFields(f.fields) + map[] == EraseFields(f.fields);
    assert Erase(v).fields.Keys - listed == {};
  }

  lemma CoversAll(fs: map<Ident, Value>, listed: set<Ident>)
    requires listed <= fs.Keys && fs.Keys - listed == {}
    ensures listed == fs.Keys
  {
    assert forall x <- fs :: x !in fs.Keys - listed;
  }

  lemma MergeAgrees(a: map<Ident, Value>, b: map<Ident, Value>, more: map<Ident, Value>)
    requires a.Keys == b.Keys && a.Keys !! more.Keys
    ensures a + more == b + more <==> a == b
  {
    if a + more == b + more {
      forall x <- a ensures a[x] == b[x] {
        assert (a + more)[x] == a[x] && (b + more)[x] == b[x];
      }
    }
  }

  /** All fields are listed, and the tail gives back others. */
  lemma UnsealedAgrees(v: Value, f: FieldsOutcome, g: FieldsOutcome, h: set<Hazard>)
    requires v.Fields? && v.tail.SealedTail? && (v.tail.fields.Keys + Hidden(v.tail.rest)) !! v.fields.Keys
    requires f.fields.Keys == v.fields.Keys == g.fields.Keys && f.events + Gained(h) == g.events + Lost(h)
    requires OtherValue in h <==> g.fields != EraseFields(f.fields)
    ensures
      var (more, left) := EraseTail(v.tail.rest);
      Agrees(Outcome(Fields(f.fields + v.tail.fields, v.tail.rest), f.events),
             Outcome(Fields(g.fields + (EraseFields(v.tail.fields) + more), left), g.events), h)
  {
    hide Erase, EraseTail, Hidden;
    var hidden, more := v.tail.fields, EraseTail(v.tail.rest).0;
    HiddenGivenBack(v.tail.rest);
    ErasedPlus(f.fields, hidden);
    EraseRecord(f.fields + hidden, v.tail.rest);
    assert EraseFields(f.fields) + EraseFields(hidden) + more == EraseFields(f.fields) + (EraseFields(hidden) + more);
    MergeAgrees(g.fields, EraseFields(f.fields), EraseFields(hidden) + more);
  }

  /** A variable that stays, in negative position: the tail is unsealed. */
  lemma UnsealAgrees(c: VarContract, listed: set<Ident>, v: Value, f: FieldsOutcome, g: FieldsOutcome, h: set<Hazard>)
    requires v.Fields? && c.SealTail? && c.pol.Negative? && SealingPasses(c, listed, Negative, v)
    requires Fit(f, g, h, listed, v.fields, Erase(v).fields)
    ensures Agrees(UnsealTail(c, listed, Negative, v, f), UnsealTail(c, listed, Negative, Erase(v), g), h)
  {
    CoversAll(v.fields, listed);
    UnsealErased(c, v, g);
    UnsealFits(v, f, g, h);
    hide Erase, EraseTail, Hidden, Fit;
    UnsealedAgrees(v, f, g, h);
  }

  lemma UnsealFits(v: Value, f: FieldsOutcome, g: FieldsOutcome, h: set<Hazard>)
    requires v.Fields? && !TermTail(v.tail) && Fit(f, g, h, v.fields.Keys, v.fields, Erase(v).fields)
    ensures f.fields.Keys == v.fields.Keys == g.fields.Keys && f.events + Gained(h) == g.events + Lost(h)
    ensures OtherValue in h <==> g.fields != EraseFields(f.fields)
  {
    hide Erase, EraseTail;
    NoTermTail(v);
    if forall x <- v.fields :: g.fields[x] == Erase(f.fields[x]) {
      assert g.fields == EraseFields(f.fields);
    }
  }

  lemma UnsealErased(c: VarContract, v: Value, g: FieldsOutcome)
    requires v.Fields? && v.tail.SealedTail? && c.SealTail?
    requires v.tail.key == c.key && v.tail.pol == c.pol == Negative
    requires (v.tail.fields.Keys + Hidden(v.tail.rest)) !! v.fields.Keys
    ensures UnsealTail(c, v.fields.Keys, Negative, Erase(v), g) ==
            Outcome(Fields(g.fields + (EraseFields(v.tail.fields) + EraseTail(v.tail.rest).0),
                           EraseTail(v.tail.rest).1), g.events)
  {
    NoTermTail(v);
    hide Erase, EraseTail, Hidden;
    EraseSealedTail(v.tail);
    HiddenGivenBack(v.tail.rest);
    LeftIsNotTerm(v.tail.rest);
    assert Erase(v).tail.fields.Keys + Hidden(Erase(v).tail.rest) == v.tail.fields.Keys + Hidden(v.tail.rest);
  }

  /** A variable that stays, in positive position: the other fields are sealed, over an earlier seal if there is one. */
  lemma SealAgrees(c: VarContract, listed: set<Ident>, v: Value, f: FieldsOutcome, g: FieldsOutcome, h: set<Hazard>)
    requires v.Fields? && c.SealTail? && c.pol.Negative? && SealingPasses(c, listed, Positive, v)
    requires Hidden(v.tail) !! c.excluded
    requires Fit(f, g, h, listed, v.fields, Erase(v).fields)
    ensures Agrees(SealingTail(c, listed, Positive, v, f), SealingTail(c, listed, Positive, Erase(v), g), h)
  {
    SealPasses(c, listed, v);
    FitEvents(listed, v, f, g, h);
    hide Erase, EraseTail, Hidden, Fit, SealingPasses, Clashes;
    var extra := Restrict(f.fields, v.fields.Keys - listed);
    EraseSealedOver(c.key, Restrict(f.fields, listed), extra, v.tail);
    OthersAgree(listed, v, f, g, h);
    ListedAgree(listed, v, f, g, h);
  }

  /** What sealing for a variable that stays becomes once the seals made for the term are erased. */
  lemma EraseSealedOver(key: Ident, kept: map<Ident, Value>, extra: map<Ident, Value>, tail: Tail)
    ensures Erase(Fields(kept, SealedTail(key, Negative, extra, tail))) ==
            Fields(EraseFields(kept),
                   SealedTail(key, Negative, EraseFields(extra) + EraseTail(tail).0, EraseTail(tail).1))
  {
    hide Erase, EraseTail;
    var over := SealedTail(key, Negative, extra, tail);
    EraseSealedTail(over);
    EraseRecord(kept, over);
    assert EraseFields(kept) + map[] == EraseFields(kept);
  }

  lemma SealPasses(c: VarContract, listed: set<Ident>, v: Value)
    requires v.Fields? && listed <= v.fields.Keys && c.SealTail? && c.pol.Negative?
    requires SealingPasses(c, listed, Positive, v) && Hidden(v.tail) !! c.excluded
    ensures Disjoint(v) && !Clashes(v) && !Clashes(Erase(v))
    ensures Erase(v).tail == EraseTail(v.tail).1
    ensures (v.fields.Keys - listed) * c.excluded == {} && (Erase(v).fields.Keys - listed) * c.excluded == {}
  {
    hide Erase, EraseTail, Hidden;
    NoClash(v);
    VisibleErased(v);
  }

  lemma NoClash(v: Value)
    requires v.Fields? && !Clashes(v)
    ensures Disjoint(v)
  {
    hide Hidden;
    assert forall x <- Hidden(v.tail) :: x !in Hidden(v.tail) * v.fields.Keys;
  }

  /** Hidden fields among the excluded ones: once they are visible, the contract of the variable refuses the record. */
  lemma KeptRefusal(c: VarContract, listed: set<Ident>, v: Value, f: FieldsOutcome, g: FieldsOutcome)
    requires v.Fields? && listed <= v.fields.Keys && c.SealTail? && c.pol.Negative?
    requires SealingPasses(c, listed, Positive, v)
    requires Hidden(v.tail) * c.excluded != {} && f.fields.Keys == v.fields.Keys && TermSafe(f.events)
    ensures Agrees(SealingTail(c, listed, Positive, v, f), SealingTail(c, listed, Positive, Erase(v), g),
                   MetRefusal(Positive, v, f))
  {
    hide Erase, EraseTail, Hidden;
    NoClash(v);
    HiddenRefused(c.excluded, listed, v);
    ErasedNoClash(v);
    var kept, extra := Restrict(f.fields, listed), Restrict(f.fields, v.fields.Keys - listed);
    EraseSealedOver(c.key, kept, extra, v.tail);
    RefusalHides(Positive, v, f);
    assert Erase(v).fields != EraseFields(kept);
  }

  /** The same for a removed variable: the excluded-fields contract refuses the record. */
  lemma RemovedRefusal(c: VarContract, listed: set<Ident>, v: Value, f: FieldsOutcome, g: FieldsOutcome)
    requires v.Fields? && listed <= v.fields.Keys && c.SealTail? && c.pol.Positive?
    requires SealingPasses(c, listed, Negative, v)
    requires Hidden(v.tail) * c.excluded != {} && f.fields.Keys == v.fields.Keys && TermSafe(f.events)
    ensures c.excluded - listed != {}
    ensures Agrees(SealingTail(c, listed, Negative, v, f),
                   CheckedTail(c.excluded - listed, listed, Negative, Erase(v), g), MetRefusal(Negative, v, f))
  {
    hide Erase, EraseTail, Hidden;
    NoClash(v);
    HiddenRefused(c.excluded, listed, v);
    VisibleErased(v);
    EraseRecord(v.fields, v.tail);
    EraseSealedAway(c.key, f.fields, listed, v.tail);
    HiddenGivenBack(v.tail);
    MergeAgrees(EraseFields(v.fields), EraseFields(f.fields), EraseTail(v.tail).0);
    RefusalHides(Negative, v, f);
  }

  /** A refusal announces all that it hides. */
  lemma RefusalHides(pol: Polarity, v: Value, f: FieldsOutcome)
    requires v.Fields? && TermSafe(f.events)
    ensures f.events + Gained(MetRefusal(pol, v, f)) == {Fail(pol, pol)} + Lost(MetRefusal(pol, v, f))
  {
    var h := MetRefusal(pol, v, f);
    assert Gained(h) == {Fail(pol, pol)};
    forall e ensures e in Lost(h) <==> e in f.events && e != Fail(pol, pol) {
      if e in f.events && e != Fail(pol, pol) {
        assert SkippedCheck(e.site) in h;
      }
      if e in Lost(h) {
        var p :| SkippedCheck(p) in h && e == Fail(p, Negative);
      }
    }
  }

  /** A hidden field that is excluded becomes visible, and is not a listed one. */
  lemma HiddenRefused(excluded: set<Ident>, listed: set<Ident>, v: Value)
    requires v.Fields? && listed <= v.fields.Keys && Disjoint(v) && Hidden(v.tail) * excluded != {}
    ensures (Erase(v).fields.Keys - listed) * (excluded - listed) != {}
    ensures (Erase(v).fields.Keys - listed) * excluded != {}
    ensures excluded - listed != {} && Erase(v).fields.Keys - listed != {}
  {
    hide Erase, EraseTail, Hidden;
    EraseRecord(v.fields, v.tail);
    VisibleErased(v);
    var x :| x in Hidden(v.tail) * excluded;
    assert x in Erase(v).fields.Keys - listed && x in excluded - listed;
  }

  /** A removed variable in positive position: nothing is left to unseal. */
  lemma RemovedUnsealAgrees(c: VarContract, listed: set<Ident>, v: Value, f: FieldsOutcome, g: FieldsOutcome,
                            h: set<Hazard>)
    requires v.Fields? && c.SealTail? && c.pol.Positive? && SealingPasses(c, listed, Positive, v)
    requires Fit(f, g, h, listed, v.fields, Erase(v).fields)
    ensures Agrees(UnsealTail(c, listed, Positive, v, f), OpenTail(Erase(v), g), h)
  {
    hide Erase, EraseTail, Fit, Hidden;
    TermTailDisjoint(v);
    FitEvents(listed, v, f, g, h);
    VisibleErased(v);
    FieldsAgree(listed, v, f, g, h);
    EraseUnsealed(f.fields, v.tail);
  }

  lemma TermTailDisjoint(v: Value)
    requires v.Fields? && TermTail(v.tail) && (v.tail.fields.Keys + Hidden(v.tail.rest)) * v.fields.Keys == {}
    ensures Disjoint(v)
  {
    assert forall x <- Hidden(v.tail) :: x !in (v.tail.fields.Keys + Hidden(v.tail.rest)) * v.fields.Keys;
  }

  /** Unsealing a tail, or erasing its seal: the same fields come back. */
  lemma EraseUnsealed(fs: map<Ident, Value>, tail: Tail)
    requires TermTail(tail)
    ensures Erase(Fields(fs + tail.fields, tail.rest)) == Fields(EraseFields(fs) + EraseTail(tail).0, EraseTail(tail).1)
  {
    hide Erase, EraseTail;
    EraseSealedTail(tail);
    ErasedPlus(fs, tail.fields);
    EraseRecord(fs + tail.fields, tail.rest);
    var more := EraseTail(tail.rest).0;
    assert EraseFields(fs) + EraseFields(tail.fields) + more == EraseFields(fs) + (EraseFields(tail.fields) + more);
  }

  /** A removed variable in negative position: the fields it excludes are still refused. */
  lemma RemovedSealAgrees(c: VarContract, listed: set<Ident>, v: Value, f: FieldsOutcome, g: FieldsOutcome,
                          h: set<Hazard>)
    requires v.Fields? && c.SealTail? && c.pol.Positive? && SealingPasses(c, listed, Negative, v)
    requires Hidden(v.tail) !! c.excluded
    requires Fit(f, g, h, listed, v.fields, Erase(v).fields)
    ensures c.excluded - listed == {} ==> Agrees(SealingTail(c, listed, Negative, v, f), OpenTail(Erase(v), g), h)
    ensures c.excluded - listed != {} ==>
      Agrees(SealingTail(c, listed, Negative, v, f), CheckedTail(c.excluded - listed, listed, Negative, Erase(v), g),
             h + if MoreThan(listed, v) then {OtherValue} else {})
  {
    hide Erase, EraseTail, Fit, Hidden, MoreThan, Clashes;
    NoClash(v);
    FitEvents(listed, v, f, g, h);
    ErasedNoClash(v);
    EraseSealedAway(c.key, f.fields, listed, v.tail);
    FieldsAgree(listed, v, f, g, h);
    if c.excluded - listed != {} {
      CheckedAgree(listed, v, f, g, h);
      VisibleErased(v);
      assert (Erase(v).fields.Keys - listed) * (c.excluded - listed) == {};
    }
  }

  lemma ErasedNoClash(v: Value)
    requires v.Fields? && Disjoint(v)
    ensures Erase(v).Fields? && !Clashes(Erase(v)) && Erase(v).tail == EraseTail(v.tail).1
  {
    hide Erase, EraseTail, Hidden;
    EraseRecord(v.fields, v.tail);
    VisibleErased(v);
  }

  /** Erasing a seal that was made for the term gives all fields back. */
  lemma EraseSealedAway(key: Ident, fs: map<Ident, Value>, listed: set<Ident>, tail: Tail)
    ensures
      var over := SealedTail(key, Positive, Restrict(fs, fs.Keys - listed), tail);
      Erase(Fields(Restrict(fs, listed), over)) == Fields(EraseFields(fs) + EraseTail(tail).0, EraseTail(tail).1)
  {
    hide Erase, EraseTail;
    var kept, extra := Restrict(fs, listed), Restrict(fs, fs.Keys - listed);
    var over := SealedTail(key, Positive, extra, tail);
    EraseSealedTail(over);
    EraseRecord(kept, over);
    assert kept + extra == fs;
    ErasedPlus(kept, extra);
    var more := EraseTail(tail).0;
    assert EraseFields(kept) + (EraseFields(extra) + more) == EraseFields(kept) + EraseFields(extra) + more;
  }

  lemma CheckedAgree(listed: set<Ident>, v: Value, f: FieldsOutcome, g: FieldsOutcome, h: set<Hazard>)
    requires v.Fields? && Disjoint(v) && Fit(f, g, h, listed, v.fields, Erase(v).fields)
    ensures OtherValue in h || MoreThan(listed, v) <==>
            Fields(Restrict(g.fields, listed), NoTail) !=
              Fields(EraseFields(f.fields) + EraseTail(v.tail).0, EraseTail(v.tail).1)
  {
    VisibleErased(v);
    FieldsAgree(listed, v, f, g, h);
    hide Erase, EraseTail, Hidden;
    if Erase(v).fields.Keys - listed == {} {
      CoversAll(Erase(v).fields, listed);
      assert Restrict(g.fields, listed) == g.fields;
    } else {
      var x :| x in Erase(v).fields.Keys - listed;
      assert x in EraseFields(f.fields) + EraseTail(v.tail).0 && x !in Restrict(g.fields, listed);
    }
  }

  /** One more listed field, kept or elided. */
  lemma FieldStep(id: Ident, o: Outcome, o': Outcome, h: set<Hazard>, f: FieldsOutcome, g: FieldsOutcome,
                  rest: set<Hazard>, listed: set<Ident>, fs: map<Ident, Value>, gs: map<Ident, Value>)
    requires Fit(f, g, rest, listed, fs, gs) && id !in listed && id in fs && id in gs && gs[id] == Erase(fs[id])
    requires Agrees(o, o', h)
    ensures
      var f1 := FieldsOutcome(f.fields[id := o.out], o.events + f.events);
      && Fit(f1, FieldsOutcome(g.fields[id := o'.out], o'.events + g.events), h + rest, listed + {id}, fs, gs)
      && (o' == Pass(gs[id]) ==> Fit(f1, g, h + rest, listed + {id}, fs, gs))
  {
    hide Erase, Gained, Lost;
    TwoHazards(h, rest);
    assert o.events + f.events + (Gained(h) + Gained(rest)) == o'.events + g.events + (Lost(h) + Lost(rest));
    FieldValues(id, o, o', h, f, g, rest, listed);
    assert {} + g.events == g.events;
  }

  lemma FieldValues(id: Ident, o: Outcome, o': Outcome, h: set<Hazard>, f: FieldsOutcome, g: FieldsOutcome,
                    rest: set<Hazard>, listed: set<Ident>)
    requires listed <= f.fields.Keys && listed <= g.fields.Keys && id !in listed
    requires OtherValue in rest <==> exists x :: x in listed && g.fields[x] != Erase(f.fields[x])
    requires OtherValue in h <==> o'.out != Erase(o.out)
    ensures
      var fs, gs := f.fields[id := o.out], g.fields[id := o'.out];
      OtherValue in h + rest <==> exists x :: x in listed + {id} && gs[x] != Erase(fs[x])
  {
    hide Erase;
    var fs, gs := f.fields[id := o.out], g.fields[id := o'.out];
    if OtherValue in rest {
      var x :| x in listed && g.fields[x] != Erase(f.fields[x]);
      assert gs[x] != Erase(fs[x]);
    }
    if OtherValue in h {
      assert gs[id] != Erase(fs[id]);
    }
  }
}
