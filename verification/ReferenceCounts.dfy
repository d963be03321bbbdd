/** Reference counts: how a count follows the number of owners as references are made, moved and dropped. */
module ReferenceCounts {
  import opened Types

  /** What each owner refers to. */
  type Refs<O> = map<O, Option<nat>>

  type Counts = map<nat, nat>

  ghost function Owners<O>(refs: Refs<O>, x: nat): set<O> {
    set o | o in refs && refs[o] == Some(x)
  }

  /** Every count is positive and tells the number of owners, plus one for a reference `held` on its own. */
  ghost predicate Exact<O>(counts: Counts, refs: Refs<O>, held: Option<nat>) {
    && (forall o <- refs :: refs[o].Some? ==> refs[o].value in counts)
    && (held.Some? ==> held.value in counts)
    && (forall x <- counts :: counts[x] > 0 && counts[x] == |Owners(refs, x)| + if held == Some(x) then 1 else 0)
  }

  function Incremented(counts: Counts, x: Option<nat>): Counts
    requires x.Some? ==> x.value in counts
  {
    if x.Some? then counts[x.value := counts[x.value] + 1] else counts
  }

  /** Dropping a reference; the cell goes with the last one. */
  function Decremented(counts: Counts, x: nat): Counts
    requires x in counts
  {
    if counts[x] > 1 then counts[x := counts[x] - 1] else counts - {x}
  }

  lemma OwnersSet<O>(refs: Refs<O>, o: O, r: Option<nat>, x: nat)
    requires o !in refs
    ensures Owners(refs[o := r], x) == Owners(refs, x) + (if r == Some(x) then {o} else {})
    ensures o !in Owners(refs, x)
  {
  }

  /** A new owner of something that already has one. */
  lemma Share<O>(counts: Counts, refs: Refs<O>, o: O, r: Option<nat>)
    requires Exact(counts, refs, None) && o !in refs && (r.Some? ==> r.value in counts)
    ensures Exact(Incremented(counts, r), refs[o := r], None)
  {
    forall x <- counts ensures |Owners(refs[o := r], x)| == |Owners(refs, x)| + if r == Some(x) then 1 else 0 {
      OwnersSet(refs, o, r, x);
    }
  }

  /** A new cell, held by whoever made it. */
  lemma Make<O>(counts: Counts, refs: Refs<O>, x: nat)
    requires Exact(counts, refs, None) && x !in counts
    ensures Exact(counts[x := 1], refs, Some(x))
  {
    assert Owners(refs, x) == {};
  }

  /** The reference of an owner is moved out of it. */
  lemma Take<O>(counts: Counts, refs: Refs<O>, o: O)
    requires Exact(counts, refs, None) && o in refs
    ensures Exact(counts, refs - {o}, refs[o])
  {
    forall x <- counts ensures |Owners(refs, x)| == |Owners(refs - {o}, x)| + if refs[o] == Some(x) then 1 else 0 {
      OwnersSet(refs - {o}, o, refs[o], x);
      assert (refs - {o})[o := refs[o]] == refs;
    }
  }

  /** A held reference is moved into a new owner. */
  lemma Give<O>(counts: Counts, refs: Refs<O>, o: O, held: Option<nat>)
    requires Exact(counts, refs, held) && o !in refs
    ensures Exact(counts, refs[o := held], None)
  {
    forall x <- counts ensures |Owners(refs[o := held], x)| == |Owners(refs, x)| + if held == Some(x) then 1 else 0 {
      OwnersSet(refs, o, held, x);
    }
  }

  /** A held reference is dropped. */
  lemma Release<O>(counts: Counts, refs: Refs<O>, x: nat)
    requires Exact(counts, refs, Some(x))
    ensures Exact(Decremented(counts, x), refs, None)
    ensures counts[x] == 1 ==> Owners(refs, x) == {}
  {
    if counts[x] == 1 {
      assert |Owners(refs, x)| == 0;
      forall o <- refs | refs[o].Some? ensures refs[o].value in Decremented(counts, x) {
        assert o !in Owners(refs, x);
      }
    }
  }

  /** The only owner of something whose count is one. */
  lemma SingleOwner<O>(counts: Counts, refs: Refs<O>, o: O, x: nat)
    requires Exact(counts, refs, None) && o in refs && refs[o] == Some(x) && counts[x] == 1
    ensures Owners(refs, x) == {o}
  {
    assert o in Owners(refs, x) && |Owners(refs, x) - {o}| == 0;
  }
}
