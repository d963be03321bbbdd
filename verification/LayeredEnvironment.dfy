/**
 The environment that shares its layers between clones and copies on write (parser/src/environment.rs).

 The heap of reference-counted cells is explicit. An environment, whether held by a handle or pushed
 down under another one, owns its current layer and the environment below it; a layer may be changed
 in place only while its count is one.
 */
module LayeredEnvironment {
  import opened Types
  import opened ReferenceCounts

  type LayerId = nat
  type NodeId = nat

  /** What holds an environment: a variable of the program, or a reference-counted cell. */
  datatype Owner = Handle(name: nat) | Node(id: NodeId)

  datatype Env = Env(current: LayerId, previous: Option<NodeId>)

  type Cells = map<Owner, Env>

  datatype Heap<K, V> = Heap(
    layers: map<LayerId, map<K, V>>,
    layerCount: Counts,
    cells: Cells,
    nodeCount: Counts,
    nextLayer: LayerId,
    nextNode: NodeId)

  function LayerRefs(cells: Cells): Refs<Owner> {
    map o <- cells :: Some(cells[o].current)
  }

  function NodeRefs(cells: Cells): Refs<Owner> {
    map o <- cells :: cells[o].previous
  }

  /** The structure of the heap, counts aside: no dangling reference, no cycle, no empty pushed layer. */
  ghost predicate WellLinked<K, V>(h: Heap<K, V>) {
    && (forall o {:trigger h.cells[o].current} | o in h.cells :: h.cells[o].current in h.layers)
    && (forall o {:trigger h.cells[o].previous} | o in h.cells && h.cells[o].previous.Some? ::
          Node(h.cells[o].previous.value) in h.cells && (o.Node? ==> h.cells[o].previous.value < o.id))
    && (forall o {:trigger h.cells[o].current} | o in h.cells && o.Node? :: |h.layers[h.cells[o].current]| > 0)
    && (forall l <- h.layers :: l < h.nextLayer)
    && (forall o <- h.cells :: o.Node? ==> o.id < h.nextNode)
  }

  ghost predicate LayersExact<K, V>(h: Heap<K, V>, held: Option<LayerId>) {
    h.layerCount.Keys == h.layers.Keys && Exact(h.layerCount, LayerRefs(h.cells), held)
  }

  ghost predicate NodesExact<K, V>(h: Heap<K, V>, held: Option<NodeId>) {
    && (forall n: nat :: n in h.nodeCount <==> Node(n) in h.cells)
    && Exact(h.nodeCount, NodeRefs(h.cells), held)
  }

  ghost predicate Valid<K, V>(h: Heap<K, V>) {
    WellLinked(h) && LayersExact(h, None) && NodesExact(h, None)
  }

  /** The map an environment stands for: more recent layers hide older ones. */
  ghost function View<K, V>(h: Heap<K, V>, o: Owner): map<K, V>
    requires WellLinked(h) && o in h.cells
    decreases o.Handle?, if o.Node? then o.id + 1 else 0, 0
  {
    Below(h, h.cells[o].previous) + h.layers[h.cells[o].current]
  }

  ghost function Below<K, V>(h: Heap<K, V>, previous: Option<NodeId>): map<K, V>
    requires WellLinked(h) && (previous.Some? ==> Node(previous.value) in h.cells)
    decreases false, if previous.Some? then previous.value + 1 else 0, 1
  {
    if previous.None? then map[] else View(h, Node(previous.value))
  }

  // Environments that a change does not concern

  ghost predicate SameAt<K, V>(h: Heap<K, V>, h': Heap<K, V>, o: Owner)
    requires o in h.cells && WellLinked(h)
  {
    o in h'.cells && h'.cells[o] == h.cells[o] &&
    h.cells[o].current in h'.layers && h'.layers[h.cells[o].current] == h.layers[h.cells[o].current]
  }

  lemma {:induction false} ViewFrame<K, V>(h: Heap<K, V>, h': Heap<K, V>, o: Owner)
    requires WellLinked(h) && WellLinked(h') && o in h.cells && SameAt(h, h', o)
    requires forall n <- h.cells :: n.Node? && n in h'.cells ==> SameAt(h, h', n)
    ensures View(h', o) == View(h, o)
    decreases o.Handle?, if o.Node? then o.id else 0
  {
    var previous := h.cells[o].previous;
    if previous.Some? {
      ViewFrame(h, h', Node(previous.value));
    }
  }

  /** Every handle but `name` is still there and stands for the same map. */
  ghost predicate OthersKeep<K, V>(h: Heap<K, V>, h': Heap<K, V>, name: nat) {
    && WellLinked(h) && WellLinked(h')
    && (forall o <- h.cells :: o.Handle? && o != Handle(name) ==> o in h'.cells && View(h', o) == View(h, o))
    && (forall o <- h'.cells :: o.Handle? && o != Handle(name) ==> o in h.cells)
  }

  lemma Untouched<K, V>(h: Heap<K, V>, h': Heap<K, V>, name: nat)
    requires WellLinked(h) && WellLinked(h')
    requires forall o <- h.cells :: o != Handle(name) && (o.Handle? || o in h'.cells) ==> SameAt(h, h', o)
    requires forall o <- h'.cells :: o.Handle? && o != Handle(name) ==> o in h.cells
    ensures OthersKeep(h, h', name)
    ensures forall o <- h.cells :: o.Node? && o in h'.cells ==> View(h', o) == View(h, o)
  {
    hide View;
    forall o <- h.cells | o != Handle(name) && (o.Handle? || o in h'.cells) ensures View(h', o) == View(h, o) {
      ViewFrame(h, h', o);
    }
  }

  lemma RefsAfterSet(cells: Cells, o: Owner, e: Env)
    ensures LayerRefs(cells[o := e]) == LayerRefs(cells)[o := Some(e.current)]
    ensures NodeRefs(cells[o := e]) == NodeRefs(cells)[o := e.previous]
  {
  }

  lemma RefsAfterRemove(cells: Cells, o: Owner)
    ensures LayerRefs(cells - {o}) == LayerRefs(cells) - {o} && NodeRefs(cells - {o}) == NodeRefs(cells) - {o}
  {
  }

  // A new environment, with one layer

  function HeapNew<K, V>(h: Heap<K, V>, name: nat, layer: map<K, V>): Heap<K, V> {
    h.(layers := h.layers[h.nextLayer := layer], layerCount := h.layerCount[h.nextLayer := 1],
       cells := h.cells[Handle(name) := Env(h.nextLayer, None)], nextLayer := h.nextLayer + 1)
  }

  lemma NextLayerIsFree<K, V>(h: Heap<K, V>)
    requires Valid(h)
    ensures h.nextLayer !in h.layers
  {
  }

  lemma NewLayersExact<K, V>(h: Heap<K, V>, name: nat, layer: map<K, V>)
    requires Valid(h) && Handle(name) !in h.cells
    ensures LayersExact(HeapNew(h, name, layer), None)
  {
    hide WellLinked, Exact, NodesExact;
    NextLayerIsFree(h);
    Make(h.layerCount, LayerRefs(h.cells), h.nextLayer);
    Give(h.layerCount[h.nextLayer := 1], LayerRefs(h.cells), Handle(name), Some(h.nextLayer));
    RefsAfterSet(h.cells, Handle(name), Env(h.nextLayer, None));
  }

  lemma NewNodesExact<K, V>(h: Heap<K, V>, name: nat, layer: map<K, V>)
    requires Valid(h) && Handle(name) !in h.cells
    ensures NodesExact(HeapNew(h, name, layer), None)
  {
    hide WellLinked, Exact, LayersExact;
    Give(h.nodeCount, NodeRefs(h.cells), Handle(name), None);
    RefsAfterSet(h.cells, Handle(name), Env(h.nextLayer, None));
  }

  lemma NewLinked<K, V>(h: Heap<K, V>, name: nat, layer: map<K, V>)
    requires WellLinked(h) && Handle(name) !in h.cells
    ensures WellLinked(HeapNew(h, name, layer))
    ensures forall o <- h.cells :: SameAt(h, HeapNew(h, name, layer), o)
  {
  }

  lemma NewHandle<K, V>(h: Heap<K, V>, name: nat, layer: map<K, V>)
    requires Valid(h) && Handle(name) !in h.cells
    ensures Valid(HeapNew(h, name, layer)) && OthersKeep(h, HeapNew(h, name, layer), name)
    ensures View(HeapNew(h, name, layer), Handle(name)) == layer
  {
    hide WellLinked, LayersExact, NodesExact, View, SameAt, OthersKeep;
    NewLayersExact(h, name, layer);
    NewNodesExact(h, name, layer);
    NewLinked(h, name, layer);
    Untouched(h, HeapNew(h, name, layer), name);
    ViewOf(HeapNew(h, name, layer), Handle(name));
    assert map[] + layer == layer;
  }

  lemma ViewOf<K, V>(h: Heap<K, V>, o: Owner)
    requires WellLinked(h) && o in h.cells
    ensures View(h, o) == Below(h, h.cells[o].previous) + h.layers[h.cells[o].current]
  {
  }

  lemma BelowKept<K, V>(h: Heap<K, V>, h': Heap<K, V>, previous: Option<NodeId>)
    requires WellLinked(h) && WellLinked(h')
    requires previous.Some? ==> Node(previous.value) in h.cells && Node(previous.value) in h'.cells
    requires forall o <- h.cells :: o.Node? && o in h'.cells ==> View(h', o) == View(h, o)
    ensures Below(h', previous) == Below(h, previous)
  {
    hide View;
  }

  // A clone

  function HeapClone<K, V>(h: Heap<K, V>, from: nat, to: nat): Heap<K, V>
    requires Handle(from) in h.cells && h.cells[Handle(from)].current in h.layerCount
    requires h.cells[Handle(from)].previous.Some? ==> h.cells[Handle(from)].previous.value in h.nodeCount
  {
    var e := h.cells[Handle(from)];
    h.(cells := h.cells[Handle(to) := e], layerCount := Incremented(h.layerCount, Some(e.current)),
       nodeCount := Incremented(h.nodeCount, e.previous))
  }

  /** Environments only refer to live cells. */
  lemma LiveRefs<K, V>(h: Heap<K, V>, o: Owner)
    requires Valid(h) && o in h.cells
    ensures h.cells[o].current in h.layers && h.cells[o].current in h.layerCount
    ensures h.cells[o].previous.Some? ==>
            h.cells[o].previous.value in h.nodeCount && Node(h.cells[o].previous.value) in h.cells
  {
    assert LayerRefs(h.cells)[o] == Some(h.cells[o].current);
    assert NodeRefs(h.cells)[o] == h.cells[o].previous;
  }

  lemma CloneLayersExact<K, V>(h: Heap<K, V>, from: nat, to: nat)
    requires LayersExact(h, None) && Handle(from) in h.cells && Handle(to) !in h.cells
    requires h.cells[Handle(from)].current in h.layerCount
    requires h.cells[Handle(from)].previous.Some? ==> h.cells[Handle(from)].previous.value in h.nodeCount
    ensures LayersExact(HeapClone(h, from, to), None)
  {
    hide Exact, Incremented;
    var e := h.cells[Handle(from)];
    Share(h.layerCount, LayerRefs(h.cells), Handle(to), Some(e.current));
    IncrementedKeys(h.layerCount, Some(e.current));
    RefsAfterSet(h.cells, Handle(to), e);
  }

  lemma CloneNodesExact<K, V>(h: Heap<K, V>, from: nat, to: nat)
    requires NodesExact(h, None) && Handle(from) in h.cells && Handle(to) !in h.cells
    requires h.cells[Handle(from)].current in h.layerCount
    requires h.cells[Handle(from)].previous.Some? ==> h.cells[Handle(from)].previous.value in h.nodeCount
    ensures NodesExact(HeapClone(h, from, to), None)
  {
    hide Exact, Incremented;
    var e := h.cells[Handle(from)];
    Share(h.nodeCount, NodeRefs(h.cells), Handle(to), e.previous);
    IncrementedKeys(h.nodeCount, e.previous);
    RefsAfterSet(h.cells, Handle(to), e);
  }

  lemma IncrementedKeys(counts: Counts, x: Option<nat>)
    requires x.Some? ==> x.value in counts
    ensures Incremented(counts, x).Keys == counts.Keys
  {
  }

  lemma CloneLinked<K, V>(h: Heap<K, V>, from: nat, to: nat)
    requires Valid(h) && Handle(from) in h.cells && Handle(to) !in h.cells
    requires h.cells[Handle(from)].current in h.layerCount
    requires h.cells[Handle(from)].previous.Some? ==> h.cells[Handle(from)].previous.value in h.nodeCount
    ensures WellLinked(HeapClone(h, from, to))
    ensures forall o <- h.cells :: SameAt(h, HeapClone(h, from, to), o)
  {
    hide LayersExact, NodesExact;
  }

  lemma CloneHandle<K, V>(h: Heap<K, V>, from: nat, to: nat)
    requires Valid(h) && Handle(from) in h.cells && Handle(to) !in h.cells
    ensures h.cells[Handle(from)].current in h.layerCount
    ensures h.cells[Handle(from)].previous.Some? ==> h.cells[Handle(from)].previous.value in h.nodeCount
    ensures Valid(HeapClone(h, from, to)) && OthersKeep(h, HeapClone(h, from, to), to)
    ensures View(HeapClone(h, from, to), Handle(to)) == View(h, Handle(from))
  {
    LiveRefs(h, Handle(from));
    hide WellLinked, LayersExact, NodesExact, View, SameAt, OthersKeep, Below;
    CloneLayersExact(h, from, to);
    CloneNodesExact(h, from, to);
    CloneLinked(h, from, to);
    var h' := HeapClone(h, from, to);
    Untouched(h, h', to);
    ViewOf(h, Handle(from));
    ViewOf(h', Handle(to));
    BelowKept(h, h', h.cells[Handle(from)].previous);
  }

  // Changing a layer in place, when its count allows it

  function HeapChange<K, V>(h: Heap<K, V>, name: nat, layer: map<K, V>): Heap<K, V>
    requires Handle(name) in h.cells && h.cells[Handle(name)].current in h.layers
  {
    var l := h.cells[Handle(name)].current;
    h.(layers := h.layers[l := h.layers[l] + layer])
  }

  /** A layer whose count is one belongs to one environment only. */
  lemma SoleOwner<K, V>(h: Heap<K, V>, o: Owner)
    requires LayersExact(h, None) && o in h.cells && h.cells[o].current in h.layerCount
    requires h.layerCount[h.cells[o].current] == 1
    ensures forall p <- h.cells :: p != o ==> h.cells[p].current != h.cells[o].current
  {
    var l := h.cells[o].current;
    SingleOwner(h.layerCount, LayerRefs(h.cells), o, l);
    hide Exact;
    forall p <- h.cells | h.cells[p].current == l ensures p == o {
      assert p in Owners(LayerRefs(h.cells), l);
    }
  }

  lemma ChangeLinked<K, V>(h: Heap<K, V>, name: nat, layer: map<K, V>)
    requires WellLinked(h) && Handle(name) in h.cells && h.cells[Handle(name)].current in h.layers
    requires forall p <- h.cells :: p != Handle(name) ==> h.cells[p].current != h.cells[Handle(name)].current
    ensures WellLinked(HeapChange(h, name, layer))
    ensures forall o <- h.cells :: o != Handle(name) ==> SameAt(h, HeapChange(h, name, layer), o)
  {
  }

  lemma ChangeExact<K, V>(h: Heap<K, V>, name: nat, layer: map<K, V>)
    requires LayersExact(h, None) && NodesExact(h, None) && Handle(name) in h.cells
    requires h.cells[Handle(name)].current in h.layers
    ensures LayersExact(HeapChange(h, name, layer), None) && NodesExact(HeapChange(h, name, layer), None)
  {
    hide Exact;
  }

  lemma ChangeInPlace<K, V>(h: Heap<K, V>, name: nat, layer: map<K, V>)
    requires Valid(h) && Handle(name) in h.cells && h.cells[Handle(name)].current in h.layers
    requires h.cells[Handle(name)].current in h.layerCount && h.layerCount[h.cells[Handle(name)].current] == 1
    ensures Valid(HeapChange(h, name, layer)) && OthersKeep(h, HeapChange(h, name, layer), name)
    ensures View(HeapChange(h, name, layer), Handle(name)) == View(h, Handle(name)) + layer
  {
    hide WellLinked, LayersExact, NodesExact, View, SameAt, OthersKeep, Below;
    LiveRefs(h, Handle(name));
    SoleOwner(h, Handle(name));
    ChangeLinked(h, name, layer);
    ChangeExact(h, name, layer);
    var e, h' := h.cells[Handle(name)], HeapChange(h, name, layer);
    Untouched(h, h', name);
    ViewOf(h, Handle(name));
    ViewOf(h', Handle(name));
    BelowKept(h, h', e.previous);
    PlusAssociates(Below(h, e.previous), h.layers[e.current], layer);
  }

  lemma PlusEmpty<K, V>(a: map<K, V>, b: map<K, V>)
    requires |b| == 0
    ensures a + b == a
  {
  }

  lemma PlusAssociates<K, V>(a: map<K, V>, b: map<K, V>, c: map<K, V>)
    ensures a + (b + c) == a + b + c
  {
  }

  // A new layer over one that is shared

  /** The old layer moves into a new node, which takes over the reference to the node below. */
  function HeapPush<K, V>(h: Heap<K, V>, name: nat, layer: map<K, V>): Heap<K, V>
    requires Handle(name) in h.cells
  {
    var e := h.cells[Handle(name)];
    h.(layers := h.layers[h.nextLayer := layer], layerCount := h.layerCount[h.nextLayer := 1],
       nextLayer := h.nextLayer + 1,
       cells := (h.cells - {Handle(name)})[Node(h.nextNode) := e][Handle(name) := Env(h.nextLayer, Some(h.nextNode))],
       nodeCount := h.nodeCount[h.nextNode := 1], nextNode := h.nextNode + 1)
  }

  lemma PushLayersExact<K, V>(h: Heap<K, V>, name: nat, layer: map<K, V>)
    requires LayersExact(h, None) && Handle(name) in h.cells && h.nextLayer !in h.layers && Node(h.nextNode) !in h.cells
    ensures LayersExact(HeapPush(h, name, layer), None)
  {
    hide Exact;
    var me, node, e := Handle(name), Node(h.nextNode), h.cells[Handle(name)];
    var cells1 := h.cells - {me};
    var cells2 := cells1[node := e];
    RefsAfterRemove(h.cells, me);
    RefsAfterSet(cells1, node, e);
    RefsAfterSet(cells2, me, Env(h.nextLayer, Some(h.nextNode)));
    Take(h.layerCount, LayerRefs(h.cells), me);
    Give(h.layerCount, LayerRefs(cells1), node, Some(e.current));
    Make(h.layerCount, LayerRefs(cells2), h.nextLayer);
    Give(h.layerCount[h.nextLayer := 1], LayerRefs(cells2), me, Some(h.nextLayer));
  }

  lemma PushNodesExact<K, V>(h: Heap<K, V>, name: nat, layer: map<K, V>)
    requires NodesExact(h, None) && Handle(name) in h.cells && Node(h.nextNode) !in h.cells
    ensures NodesExact(HeapPush(h, name, layer), None)
  {
    hide Exact;
    var me, node, e := Handle(name), Node(h.nextNode), h.cells[Handle(name)];
    var cells1 := h.cells - {me};
    var cells2 := cells1[node := e];
    RefsAfterRemove(h.cells, me);
    RefsAfterSet(cells1, node, e);
    RefsAfterSet(cells2, me, Env(h.nextLayer, Some(h.nextNode)));
    Take(h.nodeCount, NodeRefs(h.cells), me);
    Give(h.nodeCount, NodeRefs(cells1), node, e.previous);
    Make(h.nodeCount, NodeRefs(cells2), h.nextNode);
    Give(h.nodeCount[h.nextNode := 1], NodeRefs(cells2), me, Some(h.nextNode));
  }

  lemma PushLinked<K, V>(h: Heap<K, V>, name: nat, layer: map<K, V>)
    requires WellLinked(h) && Handle(name) in h.cells && h.cells[Handle(name)].current in h.layers
    requires |h.layers[h.cells[Handle(name)].current]| > 0
    ensures h.nextLayer !in h.layers && Node(h.nextNode) !in h.cells && WellLinked(HeapPush(h, name, layer))
    ensures forall o <- h.cells :: o != Handle(name) ==> SameAt(h, HeapPush(h, name, layer), o)
  {
  }

  lemma PushLayer<K, V>(h: Heap<K, V>, name: nat, layer: map<K, V>)
    requires Valid(h) && Handle(name) in h.cells && h.cells[Handle(name)].current in h.layers
    requires |h.layers[h.cells[Handle(name)].current]| > 0
    ensures Valid(HeapPush(h, name, layer)) && OthersKeep(h, HeapPush(h, name, layer), name)
    ensures View(HeapPush(h, name, layer), Handle(name)) == View(h, Handle(name)) + layer
  {
    hide WellLinked, LayersExact, NodesExact, View, SameAt, OthersKeep, Below;
    LiveRefs(h, Handle(name));
    PushLinked(h, name, layer);
    PushLayersExact(h, name, layer);
    PushNodesExact(h, name, layer);
    Untouched(h, HeapPush(h, name, layer), name);
    PushView(h, name, layer);
  }

  lemma PushView<K, V>(h: Heap<K, V>, name: nat, layer: map<K, V>)
    requires WellLinked(h) && Handle(name) in h.cells && h.cells[Handle(name)].current in h.layers
    requires h.cells[Handle(name)].previous.Some? ==> Node(h.cells[Handle(name)].previous.value) in h.cells
    requires h.nextLayer !in h.layers && Node(h.nextNode) !in h.cells && WellLinked(HeapPush(h, name, layer))
    requires forall o <- h.cells ::
               o.Node? && o in HeapPush(h, name, layer).cells ==> View(HeapPush(h, name, layer), o) == View(h, o)
    ensures View(HeapPush(h, name, layer), Handle(name)) == View(h, Handle(name)) + layer
  {
    hide WellLinked, View;
    var e, h' := h.cells[Handle(name)], HeapPush(h, name, layer);
    ViewOf(h, Handle(name));
    ViewOf(h', Handle(name));
    ViewOf(h', Node(h.nextNode));
    BelowKept(h, h', e.previous);
  }

  /** An old layer that is empty is not pushed down: its reference is dropped. */
  function HeapReplace<K, V>(h: Heap<K, V>, name: nat, layer: map<K, V>): Heap<K, V>
    requires Handle(name) in h.cells && h.cells[Handle(name)].current in h.layerCount
  {
    var e := h.cells[Handle(name)];
    h.(layers := h.layers[h.nextLayer := layer],
       layerCount := Decremented(h.layerCount, e.current)[h.nextLayer := 1], nextLayer := h.nextLayer + 1,
       cells := (h.cells - {Handle(name)})[Handle(name) := Env(h.nextLayer, e.previous)])
  }

  lemma ReplaceLayersExact<K, V>(h: Heap<K, V>, name: nat, layer: map<K, V>)
    requires LayersExact(h, None) && Handle(name) in h.cells && h.nextLayer !in h.layers
    requires h.cells[Handle(name)].current in h.layerCount && h.layerCount[h.cells[Handle(name)].current] > 1
    ensures LayersExact(HeapReplace(h, name, layer), None)
  {
    hide Exact;
    var me, e := Handle(name), h.cells[Handle(name)];
    var cells1 := h.cells - {me};
    RefsAfterRemove(h.cells, me);
    RefsAfterSet(cells1, me, Env(h.nextLayer, e.previous));
    Take(h.layerCount, LayerRefs(h.cells), me);
    Release(h.layerCount, LayerRefs(cells1), e.current);
    var counts := Decremented(h.layerCount, e.current);
    Make(counts, LayerRefs(cells1), h.nextLayer);
    Give(counts[h.nextLayer := 1], LayerRefs(cells1), me, Some(h.nextLayer));
  }

  lemma ReplaceNodesExact<K, V>(h: Heap<K, V>, name: nat, layer: map<K, V>)
    requires NodesExact(h, None) && Handle(name) in h.cells && h.cells[Handle(name)].current in h.layerCount
    ensures NodesExact(HeapReplace(h, name, layer), None)
  {
    hide Exact, Decremented;
    var me, e := Handle(name), h.cells[Handle(name)];
    var cells1 := h.cells - {me};
    RefsAfterRemove(h.cells, me);
    RefsAfterSet(cells1, me, Env(h.nextLayer, e.previous));
    Take(h.nodeCount, NodeRefs(h.cells), me);
    Give(h.nodeCount, NodeRefs(cells1), me, e.previous);
  }

  lemma ReplaceLinked<K, V>(h: Heap<K, V>, name: nat, layer: map<K, V>)
    requires WellLinked(h) && Handle(name) in h.cells && h.cells[Handle(name)].current in h.layerCount
    ensures h.nextLayer !in h.layers && WellLinked(HeapReplace(h, name, layer))
    ensures forall o <- h.cells :: o != Handle(name) ==> SameAt(h, HeapReplace(h, name, layer), o)
  {
  }

  lemma ReplaceLayer<K, V>(h: Heap<K, V>, name: nat, layer: map<K, V>)
    requires Valid(h) && Handle(name) in h.cells && h.cells[Handle(name)].current in h.layers
    requires h.cells[Handle(name)].current in h.layerCount && h.layerCount[h.cells[Handle(name)].current] > 1
    requires |h.layers[h.cells[Handle(name)].current]| == 0
    ensures Valid(HeapReplace(h, name, layer)) && OthersKeep(h, HeapReplace(h, name, layer), name)
    ensures View(HeapReplace(h, name, layer), Handle(name)) == View(h, Handle(name)) + layer
  {
    hide WellLinked, LayersExact, NodesExact, View, SameAt, OthersKeep, Below;
    LiveRefs(h, Handle(name));
    ReplaceLinked(h, name, layer);
    ReplaceLayersExact(h, name, layer);
    ReplaceNodesExact(h, name, layer);
    var e, h' := h.cells[Handle(name)], HeapReplace(h, name, layer);
    Untouched(h, h', name);
    ViewOf(h, Handle(name));
    ViewOf(h', Handle(name));
    BelowKept(h, h', e.previous);
    PlusEmpty(Below(h, e.previous), h.layers[e.current]);
  }
}
