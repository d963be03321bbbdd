/** The operations on layered environments, over a heap of shared layers (parser/src/environment.rs). */
module Environments {
  import opened Types
  import opened ReferenceCounts
  import opened LayeredEnvironment

  // Dropping references

  /** The environment of a handle is moved out of it. */
  function HeapForget<K, V>(h: Heap<K, V>, name: nat): Heap<K, V> {
    h.(cells := h.cells - {Handle(name)})
  }

  function HeapReleaseLayer<K, V>(h: Heap<K, V>, l: LayerId): Heap<K, V>
    requires l in h.layerCount
  {
    h.(layerCount := Decremented(h.layerCount, l), layers := if h.layerCount[l] > 1 then h.layers else h.layers - {l})
  }

  /** The last reference to a node goes away, and the environment it holds is moved out. */
  function HeapFree<K, V>(h: Heap<K, V>, n: NodeId): Heap<K, V> {
    h.(cells := h.cells - {Node(n)}, nodeCount := h.nodeCount - {n})
  }

  /** What remains of `h0` in `h` is as it was, and every handle but `name` remains. */
  ghost predicate Kept<K, V>(h0: Heap<K, V>, h: Heap<K, V>, name: nat)
    requires WellLinked(h0)
  {
    && (forall o <- h.cells :: o in h0.cells && SameAt(h0, h, o))
    && (forall o <- h0.cells :: o.Handle? && o != Handle(name) ==> o in h.cells)
    && Handle(name) !in h.cells
  }

  lemma ForgetLinked<K, V>(h: Heap<K, V>, name: nat)
    requires WellLinked(h) && Handle(name) in h.cells
    ensures WellLinked(HeapForget(h, name)) && Kept(h, HeapForget(h, name), name)
  {
  }

  lemma ForgetExact<K, V>(h: Heap<K, V>, name: nat)
    requires LayersExact(h, None) && NodesExact(h, None) && Handle(name) in h.cells
    ensures LayersExact(HeapForget(h, name), Some(h.cells[Handle(name)].current))
    ensures NodesExact(HeapForget(h, name), h.cells[Handle(name)].previous)
  {
    hide Exact;
    RefsAfterRemove(h.cells, Handle(name));
    Take(h.layerCount, LayerRefs(h.cells), Handle(name));
    Take(h.nodeCount, NodeRefs(h.cells), Handle(name));
  }

  /** A layer that only the dropped reference leads to belongs to no environment. */
  lemma NoLayerOwner<K, V>(h: Heap<K, V>, l: LayerId)
    requires LayersExact(h, Some(l)) && l in h.layerCount && h.layerCount[l] == 1
    ensures forall o <- h.cells :: h.cells[o].current != l
  {
    Release(h.layerCount, LayerRefs(h.cells), l);
    hide Exact;
    forall o <- h.cells ensures h.cells[o].current != l {
      assert o !in Owners(LayerRefs(h.cells), l);
    }
  }

  lemma ReleaseLayerLinked<K, V>(h0: Heap<K, V>, h: Heap<K, V>, l: LayerId, name: nat)
    requires WellLinked(h0) && WellLinked(h) && Kept(h0, h, name) && l in h.layerCount
    requires h.layerCount[l] > 1 || forall o <- h.cells :: h.cells[o].current != l
    ensures WellLinked(HeapReleaseLayer(h, l)) && Kept(h0, HeapReleaseLayer(h, l), name)
  {
    hide Decremented;
  }

  lemma ReleaseLayerExact<K, V>(h: Heap<K, V>, l: LayerId)
    requires LayersExact(h, Some(l)) && l in h.layerCount && h.layerCount[l] > 0
    ensures LayersExact(HeapReleaseLayer(h, l), None)
  {
    Release(h.layerCount, LayerRefs(h.cells), l);
    hide Exact;
  }

  lemma HeldLayer<K, V>(h: Heap<K, V>, l: LayerId)
    requires LayersExact(h, Some(l))
    ensures l in h.layerCount && h.layerCount[l] > 0
  {
  }

  lemma ReleaseLayer<K, V>(h0: Heap<K, V>, h: Heap<K, V>, l: LayerId, name: nat)
    requires WellLinked(h0) && WellLinked(h) && Kept(h0, h, name) && LayersExact(h, Some(l))
    ensures l in h.layerCount
    ensures WellLinked(HeapReleaseLayer(h, l)) && Kept(h0, HeapReleaseLayer(h, l), name)
    ensures LayersExact(HeapReleaseLayer(h, l), None)
  {
    hide WellLinked, Kept, LayersExact;
    HeldLayer(h, l);
    if h.layerCount[l] == 1 {
      NoLayerOwner(h, l);
    }
    ReleaseLayerLinked(h0, h, l, name);
    ReleaseLayerExact(h, l);
  }

  lemma ReleaseNode<K, V>(h: Heap<K, V>, n: NodeId)
    requires NodesExact(h, Some(n)) && n in h.nodeCount && h.nodeCount[n] > 1
    ensures NodesExact(h.(nodeCount := Decremented(h.nodeCount, n)), None)
  {
    Release(h.nodeCount, NodeRefs(h.cells), n);
    hide Exact;
  }

  lemma NoNodeOwner<K, V>(h: Heap<K, V>, n: NodeId)
    requires NodesExact(h, Some(n)) && n in h.nodeCount && h.nodeCount[n] == 1
    ensures forall o <- h.cells :: h.cells[o].previous != Some(n)
  {
    Release(h.nodeCount, NodeRefs(h.cells), n);
    hide Exact;
    forall o <- h.cells ensures h.cells[o].previous != Some(n) {
      assert o !in Owners(NodeRefs(h.cells), n);
    }
  }

  lemma FreeLinked<K, V>(h0: Heap<K, V>, h: Heap<K, V>, n: NodeId, name: nat)
    requires WellLinked(h0) && WellLinked(h) && Kept(h0, h, name)
    requires forall o <- h.cells :: h.cells[o].previous != Some(n)
    ensures WellLinked(HeapFree(h, n)) && Kept(h0, HeapFree(h, n), name)
  {
  }

  lemma FreeLayersExact<K, V>(h: Heap<K, V>, n: NodeId)
    requires LayersExact(h, None) && Node(n) in h.cells
    ensures LayersExact(HeapFree(h, n), Some(h.cells[Node(n)].current))
  {
    hide Exact;
    RefsAfterRemove(h.cells, Node(n));
    Take(h.layerCount, LayerRefs(h.cells), Node(n));
  }

  lemma FreeNodesExact<K, V>(h: Heap<K, V>, n: NodeId)
    requires NodesExact(h, Some(n)) && n in h.nodeCount && h.nodeCount[n] == 1 && Node(n) in h.cells
    ensures NodesExact(HeapFree(h, n), h.cells[Node(n)].previous)
  {
    hide Exact;
    RefsAfterRemove(h.cells, Node(n));
    Release(h.nodeCount, NodeRefs(h.cells), n);
    Take(Decremented(h.nodeCount, n), NodeRefs(h.cells), Node(n));
  }

  lemma HeldNode<K, V>(h: Heap<K, V>, n: NodeId)
    requires NodesExact(h, Some(n))
    ensures n in h.nodeCount && h.nodeCount[n] > 0 && Node(n) in h.cells
  {
  }

  lemma FreeNode<K, V>(h0: Heap<K, V>, h: Heap<K, V>, n: NodeId, name: nat)
    requires WellLinked(h0) && WellLinked(h) && Kept(h0, h, name) && LayersExact(h, None)
    requires NodesExact(h, Some(n)) && n in h.nodeCount && h.nodeCount[n] == 1
    ensures Node(n) in h.cells && WellLinked(HeapFree(h, n)) && Kept(h0, HeapFree(h, n), name)
    ensures LayersExact(HeapFree(h, n), Some(h.cells[Node(n)].current))
    ensures NodesExact(HeapFree(h, n), h.cells[Node(n)].previous)
  {
    hide WellLinked, Kept, LayersExact, NodesExact;
    HeldNode(h, n);
    NoNodeOwner(h, n);
    FreeLinked(h0, h, n, name);
    FreeLayersExact(h, n);
    FreeNodesExact(h, n);
  }

  /** Releasing a layer does not concern the nodes. */
  lemma ReleaseKeepsNodes<K, V>(h: Heap<K, V>, l: LayerId, held: Option<NodeId>)
    requires l in h.layerCount && NodesExact(h, held)
    ensures NodesExact(HeapReleaseLayer(h, l), held)
  {
    hide Exact;
  }

  lemma CountsAlone<K, V>(h0: Heap<K, V>, h: Heap<K, V>, counts: Counts, name: nat)
    requires WellLinked(h0) && WellLinked(h) && Kept(h0, h, name) && LayersExact(h, None)
    ensures
      var h' := h.(nodeCount := counts);
      WellLinked(h') && Kept(h0, h', name) && LayersExact(h', None)
  {
    hide Exact;
  }

  lemma DropEnds<K, V>(h0: Heap<K, V>, h: Heap<K, V>, name: nat)
    requires WellLinked(h0) && WellLinked(h) && Kept(h0, h, name)
    ensures OthersKeep(h0, h, name) && Handle(name) !in h.cells
  {
    hide WellLinked, OthersKeep;
    Untouched(h0, h, name);
  }

  // The operations

  /** Collects pairs into a map; later pairs win. */
  function FromPairs<K, V>(pairs: seq<(K, V)>): map<K, V> {
    if pairs == [] then map[] else
    var last := pairs[|pairs| - 1];
    FromPairs(pairs[..|pairs| - 1])[last.0 := last.1]
  }

  lemma {:induction false} FromPairsConcat<K, V>(a: seq<(K, V)>, b: seq<(K, V)>)
    ensures FromPairs(a + b) == FromPairs(a) + FromPairs(b)
    decreases |b|
  {
    if b == [] {
      assert a + b == a;
    } else {
      assert (a + b)[..|a + b| - 1] == a + b[..|b| - 1];
      FromPairsConcat(a, b[..|b| - 1]);
    }
  }

  lemma ViewEmpty<K, V>(h: Heap<K, V>, o: Owner)
    requires WellLinked(h) && o in h.cells
    ensures |View(h, o)| == 0 <==> |h.layers[h.cells[o].current]| == 0 && h.cells[o].previous.None?
  {
    var e := h.cells[o];
    if |h.layers[e.current]| > 0 {
      var k :| k in h.layers[e.current];
      assert k in View(h, o);
    } else if e.previous.Some? {
      var below := h.cells[Node(e.previous.value)];
      var k :| k in h.layers[below.current];
      assert k in View(h, Node(e.previous.value)) && k in View(h, o);
    }
  }

  /** Environments whose layers are the same cells, or are both empty, stand for the same map. */
  lemma PointerEqualViews<K, V>(h: Heap<K, V>, a: Owner, b: Owner)
    requires WellLinked(h) && a in h.cells && b in h.cells && h.cells[a].previous == h.cells[b].previous
    requires h.cells[a].current == h.cells[b].current ||
             (|h.layers[h.cells[a].current]| == 0 && |h.layers[h.cells[b].current]| == 0)
    ensures View(h, a) == View(h, b)
  {
  }

  // Copying on write

  /** Another environment refers to the current layer of the handle. */
  ghost predicate Shared<K, V>(h: Heap<K, V>, name: nat) {
    Handle(name) in h.cells
      && exists o <- h.cells :: o != Handle(name) && h.cells[o].current == h.cells[Handle(name)].current
  }

  /** No cell is made or dropped: only the current layer of the handle has changed. */
  ghost predicate InPlace<K, V>(h: Heap<K, V>, h': Heap<K, V>, name: nat) {
    && Handle(name) in h.cells && h'.cells == h.cells && h'.layers.Keys == h.layers.Keys
    && forall l <- h.layers :: l != h.cells[Handle(name)].current ==> h'.layers[l] == h.layers[l]
  }

  /** Every layer is as it was, and the handle has a new one, over the old one unless that is empty. */
  ghost predicate NewLayer<K, V>(h: Heap<K, V>, h': Heap<K, V>, name: nat, layer: map<K, V>) {
    && Handle(name) in h.cells && Handle(name) in h'.cells && h.cells[Handle(name)].current in h.layers
    && h'.cells[Handle(name)].current !in h.layers && h'.layers == h.layers[h'.cells[Handle(name)].current := layer]
    && var e, e' := h.cells[Handle(name)], h'.cells[Handle(name)];
       if |h.layers[e.current]| == 0 then e'.previous == e.previous
       else e'.previous.Some? && Node(e'.previous.value) in h'.cells && h'.cells[Node(e'.previous.value)] == e
  }

  /** A layer that another environment uses is left alone, and one that none uses is changed in place. */
  ghost predicate CopiedOnWrite<K, V>(h: Heap<K, V>, h': Heap<K, V>, name: nat, layer: map<K, V>) {
    if Shared(h, name) then NewLayer(h, h', name, layer) else InPlace(h, h', name)
  }

  lemma PushIsNewLayer<K, V>(h: Heap<K, V>, name: nat, layer: map<K, V>)
    requires WellLinked(h) && Handle(name) in h.cells && h.nextLayer !in h.layers
    requires h.cells[Handle(name)].current in h.layers && |h.layers[h.cells[Handle(name)].current]| > 0
    ensures NewLayer(h, HeapPush(h, name, layer), name, layer)
  {
    hide WellLinked;
  }

  lemma ReplaceIsNewLayer<K, V>(h: Heap<K, V>, name: nat, layer: map<K, V>)
    requires WellLinked(h) && Handle(name) in h.cells && h.nextLayer !in h.layers
    requires h.cells[Handle(name)].current in h.layers && |h.layers[h.cells[Handle(name)].current]| == 0
    requires h.cells[Handle(name)].current in h.layerCount
    ensures NewLayer(h, HeapReplace(h, name, layer), name, layer)
  {
    hide WellLinked, Decremented;
  }

  lemma ChangeIsInPlace<K, V>(h: Heap<K, V>, name: nat, layer: map<K, V>)
    requires Handle(name) in h.cells && h.cells[Handle(name)].current in h.layers
    ensures InPlace(h, HeapChange(h, name, layer), name)
  {
  }

  lemma SharedHere<K, V>(h: Heap<K, V>, name: nat)
    requires Valid(h) && Handle(name) in h.cells
    ensures h.cells[Handle(name)].current in h.layerCount
    ensures Shared(h, name) <==> h.layerCount[h.cells[Handle(name)].current] > 1
  {
    hide WellLinked, NodesExact, Shared;
    LiveRefs(h, Handle(name));
    SharedWhenCounted(h, name);
  }

  lemma SharedWhenCounted<K, V>(h: Heap<K, V>, name: nat)
    requires LayersExact(h, None) && Handle(name) in h.cells && h.cells[Handle(name)].current in h.layerCount
    ensures Shared(h, name) <==> h.layerCount[h.cells[Handle(name)].current] > 1
  {
    var l := h.cells[Handle(name)].current;
    var owners := Owners(LayerRefs(h.cells), l);
    assert Handle(name) in owners;
    if h.layerCount[l] == 1 {
      SoleOwner(h, Handle(name));
    } else {
      assert |owners - {Handle(name)}| > 0;
      var o :| o in owners - {Handle(name)};
      assert o in h.cells && h.cells[o].current == l;
    }
  }

  class Store<K(==), V> {
    var heap: Heap<K, V>

    constructor ()
      ensures Valid(heap) && heap.cells == map[]
    {
      heap := Heap(map[], map[], map[], map[], 0, 0);
    }

    method FromIter(name: nat, pairs: seq<(K, V)>)
      requires Valid(heap) && Handle(name) !in heap.cells
      modifies this
      ensures Valid(heap) && OthersKeep(old(heap), heap, name)
      ensures Handle(name) in heap.cells && View(heap, Handle(name)) == FromPairs(pairs)
    {
      NewHandle(heap, name, FromPairs(pairs));
      heap := HeapNew(heap, name, FromPairs(pairs));
    }

    method Clone(from: nat, to: nat)
      requires Valid(heap) && Handle(from) in heap.cells && Handle(to) !in heap.cells
      modifies this
      ensures Valid(heap) && OthersKeep(old(heap), heap, to)
      ensures Handle(to) in heap.cells && View(heap, Handle(to)) == View(old(heap), Handle(from))
      ensures heap.layers == old(heap).layers
      ensures heap.cells == old(heap).cells[Handle(to) := old(heap).cells[Handle(from)]]
    {
      CloneHandle(heap, from, to);
      heap := HeapClone(heap, from, to);
    }

    /** Starts a new current layer over one that other environments still use. */
    method SetCurrent(name: nat, layer: map<K, V>)
      requires Valid(heap) && Handle(name) in heap.cells
      requires
        var l := heap.cells[Handle(name)].current;
        l in heap.layers && l in heap.layerCount && heap.layerCount[l] > 1
      modifies this
      ensures Valid(heap) && OthersKeep(old(heap), heap, name)
      ensures Handle(name) in heap.cells && View(heap, Handle(name)) == View(old(heap), Handle(name)) + layer
      ensures NewLayer(old(heap), heap, name, layer)
    {
      hide OthersKeep, View, NewLayer, LayersExact, NodesExact;
      NextLayerIsFree(heap);
      if |heap.layers[heap.cells[Handle(name)].current]| > 0 {
        PushLayer(heap, name, layer);
        PushIsNewLayer(heap, name, layer);
        heap := HeapPush(heap, name, layer);
      } else {
        ReplaceLayer(heap, name, layer);
        ReplaceIsNewLayer(heap, name, layer);
        heap := HeapReplace(heap, name, layer);
      }
    }

    /** Adds bindings: in the current layer if nothing else uses it, in a new one otherwise. */
    method Add(name: nat, layer: map<K, V>)
      requires Valid(heap) && Handle(name) in heap.cells
      modifies this
      ensures Valid(heap) && OthersKeep(old(heap), heap, name)
      ensures Handle(name) in heap.cells && View(heap, Handle(name)) == View(old(heap), Handle(name)) + layer
      ensures CopiedOnWrite(old(heap), heap, name, layer)
    {
      hide OthersKeep, View, NewLayer, InPlace, HeapChange, Exact, NodesExact, LayersExact, Shared;
      SharedHere(heap, name);
      LiveRefs(heap, Handle(name));
      LayerIsOwned(heap, Handle(name));
      if heap.layerCount[heap.cells[Handle(name)].current] == 1 {
        ChangeInPlace(heap, name, layer);
        ChangeIsInPlace(heap, name, layer);
        heap := HeapChange(heap, name, layer);
      } else {
        SetCurrent(name, layer);
      }
    }

    method Extend(name: nat, pairs: seq<(K, V)>)
      requires Valid(heap) && Handle(name) in heap.cells
      modifies this
      ensures Valid(heap) && OthersKeep(old(heap), heap, name)
      ensures Handle(name) in heap.cells && View(heap, Handle(name)) == View(old(heap), Handle(name)) + FromPairs(pairs)
      ensures CopiedOnWrite(old(heap), heap, name, FromPairs(pairs))
    {
      Add(name, FromPairs(pairs));
    }

    method Insert(name: nat, key: K, value: V)
      requires Valid(heap) && Handle(name) in heap.cells
      modifies this
      ensures Valid(heap) && OthersKeep(old(heap), heap, name)
      ensures Handle(name) in heap.cells && View(heap, Handle(name)) == View(old(heap), Handle(name))[key := value]
      ensures CopiedOnWrite(old(heap), heap, name, map[key := value])
    {
      hide CopiedOnWrite, OthersKeep, WellLinked, LayersExact, NodesExact;
      PlusOne(View(heap, Handle(name)), key, value);
      Add(name, map[key := value]);
    }

    /** Drops a handle, and with it every cell that nothing else refers to. */
    method Drop(name: nat)
      requires Valid(heap) && Handle(name) in heap.cells
      modifies this
      ensures Valid(heap) && OthersKeep(old(heap), heap, name) && Handle(name) !in heap.cells
    {
      hide Kept, LayersExact, NodesExact, OthersKeep, HeapForget, HeapFree, HeapReleaseLayer;
      ghost var h0 := heap;
      var e := heap.cells[Handle(name)];
      ForgetLinked(heap, name);
      ForgetExact(heap, name);
      ReleaseLayer(h0, HeapForget(heap, name), e.current, name);
      ReleaseKeepsNodes(HeapForget(heap, name), e.current, e.previous);
      heap := HeapReleaseLayer(HeapForget(heap, name), e.current);
      var pending := e.previous;
      while pending.Some?
        invariant WellLinked(heap) && Kept(h0, heap, name) && LayersExact(heap, None) && NodesExact(heap, pending)
        decreases pending.Some?, if pending.Some? then pending.value else 0
      {
        var n := pending.value;
        HeldNode(heap, n);
        if heap.nodeCount[n] > 1 {
          ReleaseNode(heap, n);
          CountsAlone(h0, heap, Decremented(heap.nodeCount, n), name);
          heap := heap.(nodeCount := Decremented(heap.nodeCount, n));
          pending := None;
        } else {
          var below := heap.cells[Node(n)];
          FreeNode(h0, heap, n, name);
          ReleaseLayer(h0, HeapFree(heap, n), below.current, name);
          ReleaseKeepsNodes(HeapFree(heap, n), below.current, below.previous);
          heap := HeapReleaseLayer(HeapFree(heap, n), below.current);
          pending := below.previous;
        }
      }
      DropEnds(h0, heap, name);
    }

    /** Looks a key up, from the most recent layer to the oldest. */
    method Get(name: nat, key: K) returns (r: Option<V>)
      requires Valid(heap) && Handle(name) in heap.cells
      ensures var m := View(heap, Handle(name)); r == if key in m then Some(m[key]) else None
    {
      var env := Handle(name);
      while true
        invariant env in heap.cells
        invariant key in View(heap, Handle(name)) <==> key in View(heap, env)
        invariant key in View(heap, env) ==> View(heap, Handle(name))[key] == View(heap, env)[key]
        decreases env.Handle?, if env.Node? then env.id else 0
      {
        var layer := heap.layers[heap.cells[env].current];
        if key in layer {
          return Some(layer[key]);
        }
        if heap.cells[env].previous.None? {
          return None;
        }
        env := Node(heap.cells[env].previous.value);
      }
    }

    /** The layers, from the most recent to the oldest. */
    method IterLayers(name: nat) returns (layers: seq<map<K, V>>)
      requires Valid(heap) && Handle(name) in heap.cells
      ensures layers != [] && Stacked(layers) == View(heap, Handle(name))
    {
      hide View, Stacked, LayersExact, NodesExact, Below;
      var env := Handle(name);
      layers := [heap.layers[heap.cells[env].current]];
      FirstLayer(heap, env);
      while heap.cells[env].previous.Some?
        invariant env in heap.cells && layers != []
        invariant View(heap, Handle(name)) == Below(heap, heap.cells[env].previous) + Stacked(layers)
        decreases env.Handle?, if env.Node? then env.id else 0
      {
        var node := Node(heap.cells[env].previous.value);
        LayerBelow(heap, node, layers);
        env, layers := node, layers + [heap.layers[heap.cells[node].current]];
      }
      LastLayer(heap, Stacked(layers));
    }

    /** All bindings, those of the oldest layer first: collecting them gives the environment's map. */
    method IterElems(name: nat) returns (elems: seq<(K, V)>)
      requires Valid(heap) && Handle(name) in heap.cells
      ensures FromPairs(elems) == View(heap, Handle(name))
    {
      var layers := IterLayers(name);
      elems := Flatten(layers);
    }

    /** Quick check that two environments are obviously equal. */
    method PtrEq(a: nat, b: nat) returns (r: bool)
      requires Valid(heap) && Handle(a) in heap.cells && Handle(b) in heap.cells
      ensures r ==> View(heap, Handle(a)) == View(heap, Handle(b))
      ensures r <==>
        var x, y := heap.cells[Handle(a)], heap.cells[Handle(b)];
        && x.previous == y.previous
        && (x.current == y.current || (|heap.layers[x.current]| == 0 && |heap.layers[y.current]| == 0))
    {
      var x, y := heap.cells[Handle(a)], heap.cells[Handle(b)];
      r := x.previous == y.previous &&
           ((|heap.layers[x.current]| == 0 && |heap.layers[y.current]| == 0) || x.current == y.current);
      if r {
        PointerEqualViews(heap, Handle(a), Handle(b));
      }
    }

    method IsEmpty(name: nat) returns (r: bool)
      requires Valid(heap) && Handle(name) in heap.cells
      ensures r <==> View(heap, Handle(name)) == map[]
    {
      var e := heap.cells[Handle(name)];
      r := |heap.layers[e.current]| == 0 && e.previous.None?;
      ViewEmpty(heap, Handle(name));
    }
  }

  lemma StackedOne<K, V>(layer: map<K, V>)
    ensures Stacked([layer]) == layer
  {
    assert [layer][1..] == [] && map[] + layer == layer;
  }

  lemma FirstLayer<K, V>(h: Heap<K, V>, o: Owner)
    requires WellLinked(h) && o in h.cells
    ensures View(h, o) == Below(h, h.cells[o].previous) + Stacked([h.layers[h.cells[o].current]])
  {
    hide View, Below, Stacked;
    ViewOf(h, o);
    StackedOne(h.layers[h.cells[o].current]);
  }

  lemma LastLayer<K, V>(h: Heap<K, V>, m: map<K, V>)
    requires WellLinked(h)
    ensures Below(h, None) + m == m
  {
  }

  /** The bindings of a pile of layers, those of the oldest first. */
  method Flatten<K(==), V>(layers: seq<map<K, V>>) returns (elems: seq<(K, V)>)
    ensures FromPairs(elems) == Stacked(layers)
  {
    elems := [];
    var i := |layers|;
    assert layers[..i] == layers && map[] + Stacked(layers) == Stacked(layers);
    while i > 0
      invariant 0 <= i <= |layers| && FromPairs(elems) + Stacked(layers[..i]) == Stacked(layers)
    {
      i := i - 1;
      var pairs := Elements(layers[i]);
      OneMoreLayer(elems, pairs, layers, i);
      elems := elems + pairs;
    }
    PlusEmpty(FromPairs(elems), Stacked(layers[..0]));
  }

  lemma LayerBelow<K, V>(h: Heap<K, V>, node: Owner, layers: seq<map<K, V>>)
    requires WellLinked(h) && node.Node? && node in h.cells
    ensures
      var layer := h.layers[h.cells[node].current];
      Below(h, Some(node.id)) + Stacked(layers) == Below(h, h.cells[node].previous) + Stacked(layers + [layer])
  {
    var layer := h.layers[h.cells[node].current];
    StackedUnder(layers, layer);
    ViewOf(h, node);
    hide View;
    PlusAssociates(Below(h, h.cells[node].previous), layer, Stacked(layers));
  }

  lemma OneMoreLayer<K, V>(elems: seq<(K, V)>, pairs: seq<(K, V)>, layers: seq<map<K, V>>, i: nat)
    requires i < |layers| && FromPairs(pairs) == layers[i]
    ensures FromPairs(elems + pairs) + Stacked(layers[..i]) == FromPairs(elems) + Stacked(layers[..i + 1])
  {
    FromPairsConcat(elems, pairs);
    assert layers[..i + 1] == layers[..i] + [layers[i]];
    StackedUnder(layers[..i], layers[i]);
    hide FromPairs, Stacked;
    PlusAssociates(FromPairs(elems), layers[i], Stacked(layers[..i]));
  }

  lemma PlusOne<K, V>(m: map<K, V>, key: K, value: V)
    ensures m + map[key := value] == m[key := value]
  {
  }

  lemma LayerIsOwned<K, V>(h: Heap<K, V>, o: Owner)
    requires Valid(h) && o in h.cells
    ensures h.cells[o].current in h.layerCount && h.layerCount[h.cells[o].current] > 0
  {
    LiveRefs(h, o);
  }

  /** The map of a pile of layers, the most recent first. */
  function Stacked<K, V>(layers: seq<map<K, V>>): map<K, V> {
    if layers == [] then map[] else Stacked(layers[1..]) + layers[0]
  }

  lemma {:induction false} StackedUnder<K, V>(layers: seq<map<K, V>>, layer: map<K, V>)
    ensures Stacked(layers + [layer]) == layer + Stacked(layers)
    decreases |layers|
  {
    if layers == [] {
      assert (layers + [layer])[1..] == [];
    } else {
      assert (layers + [layer])[1..] == layers[1..] + [layer];
      StackedUnder(layers[1..], layer);
      PlusAssociates(layer, Stacked(layers[1..]), layers[0]);
    }
  }

  /** The bindings of a layer, in whatever order its map gives them. */
  method Elements<K(==), V>(layer: map<K, V>) returns (pairs: seq<(K, V)>)
    ensures FromPairs(pairs) == layer && |pairs| == |layer|
  {
    pairs := [];
    var rest := layer.Keys;
    while rest != {}
      invariant rest <= layer.Keys && |pairs| + |rest| == |layer.Keys|
      invariant FromPairs(pairs) == layer - rest
      decreases rest
    {
      var k :| k in rest;
      OnePair(layer, rest, pairs, k);
      pairs, rest := pairs + [(k, layer[k])], rest - {k};
    }
    assert layer - {} == layer && |layer.Keys| == |layer|;
  }

  lemma OnePair<K, V>(layer: map<K, V>, rest: set<K>, pairs: seq<(K, V)>, k: K)
    requires k in rest && k in layer && FromPairs(pairs) == layer - rest
    ensures FromPairs(pairs + [(k, layer[k])]) == layer - (rest - {k})
  {
    assert (pairs + [(k, layer[k])])[..|pairs|] == pairs;
    assert (layer - rest)[k := layer[k]] == layer - (rest - {k});
  }
}
