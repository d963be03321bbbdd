/** Whole runs on layered environments, against environments that share nothing (parser/src/environment.rs). */
module EnvironmentRuns {
  import opened LayeredEnvironment
  import opened Environments

  datatype Operation<K, V> =
    | Create(name: nat, pairs: seq<(K, V)>)
    | Copy(from: nat, to: nat)
    | Bind(name: nat, key: K, value: V)
    | BindAll(name: nat, pairs: seq<(K, V)>)
    | Release(name: nat)

  /** Each handle with a map of its own. */
  type Private<K, V> = map<nat, map<K, V>>

  /** An operation needs the handles it uses, and makes a handle only under a new name. */
  predicate Allowed<K, V>(p: Private<K, V>, op: Operation<K, V>) {
    match op
    case Create(name, _) => name !in p
    case Copy(from, to) => from in p && to !in p
    case Bind(name, _, _) => name in p
    case BindAll(name, _) => name in p
    case Release(name) => name in p
  }

  function Apply<K, V>(p: Private<K, V>, op: Operation<K, V>): Private<K, V>
    requires Allowed(p, op)
  {
    match op
    case Create(name, pairs) => p[name := FromPairs(pairs)]
    case Copy(from, to) => p[to := p[from]]
    case Bind(name, key, value) => p[name := p[name][key := value]]
    case BindAll(name, pairs) => p[name := p[name] + FromPairs(pairs)]
    case Release(name) => p - {name}
  }

  predicate AllowedAll<K, V>(p: Private<K, V>, ops: seq<Operation<K, V>>)
    decreases |ops|
  {
    ops == [] || (Allowed(p, ops[0]) && AllowedAll(Apply(p, ops[0]), ops[1..]))
  }

  function ApplyAll<K, V>(p: Private<K, V>, ops: seq<Operation<K, V>>): Private<K, V>
    requires AllowedAll(p, ops)
    decreases |ops|
  {
    if ops == [] then p else ApplyAll(Apply(p, ops[0]), ops[1..])
  }

  /** The shared heap has the same handles, and each stands for its private map. */
  ghost predicate Refines<K, V>(h: Heap<K, V>, p: Private<K, V>) {
    && Valid(h)
    && (forall name: nat :: Handle(name) in h.cells <==> name in p)
    && (forall name <- p :: Handle(name) in h.cells && View(h, Handle(name)) == p[name])
  }

  lemma RefinesAfter<K, V>(h: Heap<K, V>, h': Heap<K, V>, p: Private<K, V>, name: nat, p': Private<K, V>)
    requires Refines(h, p) && Valid(h') && OthersKeep(h, h', name)
    requires p' - {name} == p - {name} && (Handle(name) in h'.cells <==> name in p')
    requires name in p' ==> View(h', Handle(name)) == p'[name]
    ensures Refines(h', p')
  {
    hide Valid, View;
    forall n: nat ensures Handle(n) in h'.cells <==> n in p' {
      if n != name {
        assert n in p' <==> n in p' - {name};
        assert n in p <==> n in p - {name};
      }
    }
    forall n <- p' ensures Handle(n) in h'.cells && View(h', Handle(n)) == p'[n] {
      if n != name {
        assert (p' - {name})[n] == (p - {name})[n];
      }
    }
  }

  method Step<K(==), V>(store: Store<K, V>, ghost p: Private<K, V>, op: Operation<K, V>)
    requires Refines(store.heap, p) && Allowed(p, op)
    modifies store
    ensures Refines(store.heap, Apply(p, op))
  {
    hide Valid, View, CopiedOnWrite, OthersKeep;
    ghost var h := store.heap;
    ghost var name := match op case Copy(_, to) => to case _ => op.name;
    match op {
      case Create(name, pairs) => store.FromIter(name, pairs);
      case Copy(from, to) => store.Clone(from, to);
      case Bind(name, key, value) => store.Insert(name, key, value);
      case BindAll(name, pairs) => store.Extend(name, pairs);
      case Release(name) => store.Drop(name);
    }
    RefinesAfter(h, store.heap, p, name, Apply(p, op));
  }

  /** Every run on shared layers ends as the run on private maps does, handle by handle. */
  method Execute<K(==), V>(ops: seq<Operation<K, V>>) returns (store: Store<K, V>)
    requires AllowedAll(map[], ops)
    ensures Refines(store.heap, ApplyAll(map[], ops))
  {
    hide Refines, Apply, Allowed, Valid;
    store := new Store();
    ghost var p: Private<K, V> := map[];
    Nothing(store.heap);
    for i := 0 to |ops|
      invariant AllowedAll(p, ops[i..]) && ApplyAll(p, ops[i..]) == ApplyAll(map[], ops)
      invariant Refines(store.heap, p) && fresh(store)
    {
      assert ops[i..][1..] == ops[i + 1..];
      Step(store, p, ops[i]);
      p := Apply(p, ops[i]);
    }
  }

  lemma Nothing<K, V>(h: Heap<K, V>)
    requires Valid(h) && h.cells == map[]
    ensures Refines(h, map[])
  {
  }
}
