/** The intermediate representation (python/sdpstudio_core/ir.py): frozen configurations, execution
    modes and the graph view handed to the backends. */
module Lowering {
  import opened Sorting
  import opened Digraph
  import opened Documents
  import opened Graph
  import opened Validation

  // ---- Freezing configurations ----

  /** A hashable value: a JSON scalar or a tuple. */
  datatype Frozen = Atom(value: Json) | Tuple(items: seq<Frozen>)

  function Freeze(v: Json): Frozen
    decreases v, 1, 0
  {
    match v
    case Dict(fields) =>
      Tuple([Atom(Str("__dict__")), Tuple(FreezeFields(v, SortedKeys(fields.Keys)))])
    case List(items) => Tuple([Atom(Str("__list__")), Tuple(FreezeItems(v, items))])
    case _ => Atom(v)
  }

  function FreezeFields(v: Json, keys: seq<string>): seq<Frozen>
    requires v.Dict? && forall k :: k in keys ==> k in v.fields
    decreases v, 0, |keys|
  {
    if keys == [] then []
    else
      [Tuple([Atom(Str(keys[0])), Freeze(v.fields[keys[0]])])] + FreezeFields(v, keys[1..])
  }

  function FreezeItems(v: Json, items: seq<Json>): seq<Frozen>
    requires v.List? && forall x :: x in items ==> x in v.items
    decreases v, 0, |items|
  {
    if items == [] then []
    else
      assert items[0] in v.items;
      [Freeze(items[0])] + FreezeItems(v, items[1..])
  }

  predicate Tagged(f: Frozen, tag: string) {
    f.Tuple? && |f.items| == 2 && f.items[0] == Atom(Str(tag)) && f.items[1].Tuple?
  }

  predicate IsPair(f: Frozen) { f.Tuple? && |f.items| == 2 && f.items[0].Atom? && f.items[0].value.Str? }

  /** `_thaw`; None where the result would not be a JSON value (an untagged tuple stays a tuple). */
  function Thaw(f: Frozen): Option<Json>
    decreases f, 1, 0
  {
    match f
    case Atom(value) => Some(value)
    case Tuple(_) =>
      if Tagged(f, "__dict__") then
        var fields := ThawPairs(f, f.items[1].items);
        if fields.None? then None else Some(Dict(fields.value))
      else if Tagged(f, "__list__") then
        var items := ThawItems(f, f.items[1].items);
        if items.None? then None else Some(List(items.value))
      else None
  }

  function ThawPairs(f: Frozen, pairs: seq<Frozen>): Option<map<string, Json>>
    requires f.Tuple? && |f.items| == 2 && f.items[1].Tuple? && forall p :: p in pairs ==> p in f.items[1].items
    decreases f, 0, |pairs|
  {
    if pairs == [] then Some(map[])
    else
      var last := pairs[|pairs| - 1];
      if !IsPair(last) then None else
      var rest := ThawPairs(f, pairs[..|pairs| - 1]);
      assert last in f.items[1].items && f.items[1] in f.items && last.items[1] in last.items;
      var child := Thaw(last.items[1]);
      if rest.None? || child.None? then None else Some(rest.value[last.items[0].value.s := child.value])
  }

  function ThawItems(f: Frozen, items: seq<Frozen>): Option<seq<Json>>
    requires f.Tuple? && |f.items| == 2 && f.items[1].Tuple? && forall p :: p in items ==> p in f.items[1].items
    decreases f, 0, |items|
  {
    if items == [] then Some([])
    else
      assert items[0] in f.items[1].items && f.items[1] in f.items;
      var head := Thaw(items[0]);
      var rest := ThawItems(f, items[1..]);
      if head.None? || rest.None? then None else Some([head.value] + rest.value)
  }

  lemma {:induction false} FreezeFieldsShape(v: Json, keys: seq<string>)
    requires v.Dict? && forall k :: k in keys ==> k in v.fields
    ensures |FreezeFields(v, keys)| == |keys|
    ensures forall i :: 0 <= i < |keys| ==> FreezeFields(v, keys)[i] == Tuple([Atom(Str(keys[i])), Freeze(v.fields[keys[i]])])
  {
    if keys != [] { FreezeFieldsShape(v, keys[1..]); }
  }

  lemma {:induction false} FreezeItemsShape(v: Json, items: seq<Json>)
    requires v.List? && forall x :: x in items ==> x in v.items
    ensures |FreezeItems(v, items)| == |items|
    ensures forall i :: 0 <= i < |items| ==> FreezeItems(v, items)[i] == Freeze(items[i])
  {
    if items != [] { FreezeItemsShape(v, items[1..]); }
  }

  /** Thawing a frozen value gives it back. */
  lemma {:induction false} ThawFreeze(v: Json)
    ensures Thaw(Freeze(v)) == Some(v)
    decreases v, 2, 0
  {
    match v
    case Dict(_) => ThawDict(v);
    case List(items) =>
      FreezeItemsShape(v, items);
      ThawList(v, 0);
      assert FreezeItems(v, items)[0..] == FreezeItems(v, items) && items[0..] == items;
    case _ =>
  }

  lemma {:induction false} ThawDict(v: Json)
    requires v.Dict?
    ensures Thaw(Freeze(v)) == Some(v)
    decreases v, 1, 0
  {
    var keys := SortedKeys(v.fields.Keys);
    FreezeFieldsShape(v, keys);
    var pairs := FreezeFields(v, keys);
    ThawFields(v, Freeze(v), keys, pairs, |keys|);
    assert pairs[..|keys|] == pairs && keys[..|keys|] == keys;
    DictThaws(Freeze(v), pairs, Restricted(v.fields, keys));
    RestrictedToAll(v.fields, keys);
  }

  lemma DictThaws(f: Frozen, pairs: seq<Frozen>, m: map<string, Json>)
    requires f == Tuple([Atom(Str("__dict__")), Tuple(pairs)]) && ThawPairs(f, pairs) == Some(m)
    ensures Thaw(f) == Some(Dict(m))
  {
    assert Tagged(f, "__dict__");
  }

  lemma RestrictedToAll(m: map<string, Json>, keys: seq<string>)
    requires forall k :: k in keys <==> k in m
    ensures Restricted(m, keys) == m
  {
  }

  ghost function Restricted(m: map<string, Json>, keys: seq<string>): map<string, Json> {
    map k | k in m && k in keys :: m[k]
  }

  lemma ThawPairsLast(f: Frozen, pairs: seq<Frozen>, k: string, frozen: Frozen, child: Json, m: map<string, Json>)
    requires f.Tuple? && |f.items| == 2 && f.items[1].Tuple? && forall p :: p in pairs ==> p in f.items[1].items
    requires pairs != [] && pairs[|pairs| - 1] == Tuple([Atom(Str(k)), frozen]) && Thaw(frozen) == Some(child)
    requires ThawPairs(f, pairs[..|pairs| - 1]) == Some(m)
    ensures ThawPairs(f, pairs) == Some(m[k := child])
  {
  }

  lemma {:induction false} ThawFields(v: Json, f: Frozen, keys: seq<string>, pairs: seq<Frozen>, i: nat)
    requires v.Dict? && (forall k :: k in keys ==> k in v.fields) && i <= |keys| == |pairs|
    requires f == Tuple([Atom(Str("__dict__")), Tuple(pairs)])
    requires forall j :: 0 <= j < |keys| ==> pairs[j] == Tuple([Atom(Str(keys[j])), Freeze(v.fields[keys[j]])])
    ensures ThawPairs(f, pairs[..i]) == Some(Restricted(v.fields, keys[..i]))
    decreases v, 0, i
  {
    if i > 0 {
      var k := keys[i - 1];
      assert k in keys;
      ThawFields(v, f, keys, pairs, i - 1);
      ThawFreeze(v.fields[k]);
      assert pairs[..i][..i - 1] == pairs[..i - 1] && pairs[..i][i - 1] == pairs[i - 1];
      ThawPairsLast(f, pairs[..i], k, Freeze(v.fields[k]), v.fields[k], Restricted(v.fields, keys[..i - 1]));
      assert keys[..i] == keys[..i - 1] + [k];
      assert Restricted(v.fields, keys[..i]) == Restricted(v.fields, keys[..i - 1])[k := v.fields[k]];
    } else {
      assert pairs[..0] == [] && Restricted(v.fields, keys[..0]) == map[];
    }
  }

  lemma {:induction false} ThawList(v: Json, i: nat)
    requires v.List? && i <= |v.items| && |FreezeItems(v, v.items)| == |v.items|
    ensures ThawItems(Freeze(v), FreezeItems(v, v.items)[i..]) == Some(v.items[i..])
    decreases v, 0, |v.items| - i
  {
    var frozen := FreezeItems(v, v.items);
    if i < |v.items| {
      FreezeItemsShape(v, v.items);
      assert v.items[i] in v.items;
      ThawFreeze(v.items[i]);
      ThawList(v, i + 1);
      assert frozen[i..][1..] == frozen[i + 1..] && frozen[i..][0] == Freeze(v.items[i]);
      assert [v.items[i]] + v.items[i + 1..] == v.items[i..];
    } else {
      assert frozen[i..] == [] && v.items[i..] == [];
    }
  }

  /** Configurations with the same frozen form are equal: the frozen form is canonical. */
  lemma FreezeIsInjective(a: Json, b: Json)
    requires Freeze(a) == Freeze(b)
    ensures a == b
  {
    ThawFreeze(a);
    ThawFreeze(b);
  }

  // ---- Execution modes ----

  /** The test of the mode loop. */
  predicate StreamingSource(n: Node) {
    n.kind.Source? && (n.kind.op == "kafka" || Flag(n.config, "streaming"))
  }

  /** A Kafka source, or a source set to stream. */
  predicate StartsStream(n: Node) { n.kind == Source("kafka") || (n.kind.Source? && Flag(n.config, "streaming")) }

  /** A node streams when it is a streaming source or has one upstream. */
  ghost predicate Streams(d: Document, id: string) {
    exists s :: s in d.Ids() && StartsStream(d.At(s)) && Feeds(d.Arcs(), s, id)
  }

  ghost predicate StreamingParent(d: Document, modes: map<string, bool>, id: string) {
    exists e :: e in d.edges && e.dst.node == id && e.src.node in modes && modes[e.src.node]
  }

  /** The rule of the loop: a source decides for itself, another node follows its parents. */
  ghost predicate ModeRule(d: Document, modes: map<string, bool>, id: string) {
    id in modes && id in d.Ids() &&
    modes[id] == if d.KindAt(id).Source? then StreamingSource(d.At(id)) else StreamingParent(d, modes, id)
  }

  method AnyStreaming(modes: map<string, bool>, es: seq<Edge>) returns (any: bool)
    ensures any <==> exists e :: e in es && e.src.node in modes && modes[e.src.node]
  {
    any := false;
    for i := 0 to |es|
      invariant any <==> exists e :: e in es[..i] && e.src.node in modes && modes[e.src.node]
    {
      assert es[..i + 1] == es[..i] + [es[i]];
      if es[i].src.node in modes && modes[es[i].src.node] { any := true; }
    }
    assert es[..|es|] == es;
  }

  /** modes holds the modes of the first i nodes of the order. */
  ghost predicate ModesSoFar(d: Document, i: nat, modes: map<string, bool>)
    requires d.UniqueIds() && i <= |Order(d)|
  {
    modes.Keys == Members(Order(d)[..i]) && forall id :: id in Order(d)[..i] ==> id in d.Ids() && ModeRule(d, modes, id)
  }

  lemma ModesGrow(d: Document, i: nat, modes: map<string, bool>, mode: bool)
    requires d.UniqueIds() && i < |Order(d)| && ModesSoFar(d, i, modes) && Order(d)[i] in d.Ids()
    requires var id := Order(d)[i]; mode <==> if d.KindAt(id).Source? then StreamingSource(d.At(id)) else StreamingParent(d, modes, id)
    ensures ModesSoFar(d, i + 1, modes[Order(d)[i] := mode])
  {
    var id := Order(d)[i];
    OrderFacts(d);
    assert Order(d)[..i + 1] == Order(d)[..i] + [id];
    forall x | x in Order(d)[..i + 1] ensures x in d.Ids() && ModeRule(d, modes[id := mode], x) {
      ModeStable(d, modes, modes[id := mode], i, x);
    }
  }

  /** The mode loop shared by `lower_pipeline` and `_mode_map`. */
  method InferModes(d: Document, order: seq<string>) returns (modes: map<string, bool>)
    requires d.UniqueIds() && order == Order(d)
    ensures modes.Keys == Members(order) && forall id :: id in order ==> ModeRule(d, modes, id)
  {
    OrderFacts(d);
    var index := NodeMap(d.nodes);
    NodeMapIsAt(d);
    modes := map[];
    for i := 0 to |order|
      invariant ModesSoFar(d, i, modes)
    {
      var id := order[i];
      assert id in order;
      IncomingMembers(d, id);
      var any := AnyStreaming(modes, Incoming(d, id));
      var mode := if index[id].kind.Source? then StreamingSource(index[id]) else any;
      ModesGrow(d, i, modes, mode);
      modes := modes[id := mode];
    }
    assert order[..|order|] == order;
  }

  lemma ModeStable(d: Document, before: map<string, bool>, modes: map<string, bool>, i: nat, x: string)
    requires d.UniqueIds() && i < |Order(d)| && x in Order(d)[..i + 1]
    requires Order(d)[i] in modes
    requires before.Keys == Members(Order(d)[..i]) && modes == before[Order(d)[i] := modes[Order(d)[i]]]
    requires x in Order(d)[..i] ==> ModeRule(d, before, x)
    requires x in d.Ids()
    requires x == Order(d)[i] ==>
               (modes[x] <==> if d.KindAt(x).Source? then StreamingSource(d.At(x)) else StreamingParent(d, before, x))
    ensures ModeRule(d, modes, x)
  {
    OrderFacts(d);
    var order := Order(d);
    var j :| 0 <= j <= i && order[j] == x;
    assert x in order && order[i] in order;
    forall e | e in d.edges && e.dst.node == x ensures e.src.node != order[i] {
      ArcMembers(d, e.src.node, x);
      assert order[i] !in order[..j];
    }
    assert StreamingParent(d, modes, x) <==> StreamingParent(d, before, x);
  }

  ghost predicate SourcesAreRoots(d: Document) {
    forall e :: e in d.edges && e.dst.node in d.Ids() ==> !d.KindAt(e.dst.node).Source?
  }

  lemma WellFormedSourcesAreRoots(d: Document)
    requires WellFormed(d)
    ensures SourcesAreRoots(d)
  {
    forall e | e in d.edges && e.dst.node in d.Ids() ensures !d.KindAt(e.dst.node).Source? {
      assert EdgeOk(d, e);
    }
  }

  /** Mode inference is reachability from a streaming source. */
  lemma {:induction false} ModesAreReachability(d: Document, modes: map<string, bool>, k: nat)
    requires d.UniqueIds() && SourcesAreRoots(d) && k < |Order(d)|
    requires modes.Keys == Members(Order(d)) && forall id :: id in Order(d) ==> ModeRule(d, modes, id)
    ensures modes[Order(d)[k]] <==> Streams(d, Order(d)[k])
    decreases k
  {
    OrderFacts(d);
    var order := Order(d);
    var id := order[k];
    assert ModeRule(d, modes, id);
    if modes[id] && !d.KindAt(id).Source? {
      var e :| e in d.edges && e.dst.node == id && e.src.node in modes && modes[e.src.node];
      ArcMembers(d, e.src.node, id);
      var j :| 0 <= j < k && order[j] == e.src.node;
      ModesAreReachability(d, modes, j);
      var s :| s in d.Ids() && StartsStream(d.At(s)) && Feeds(d.Arcs(), s, e.src.node);
      ReachesThenStep(d.Arcs(), s, e.src.node, id);
    } else if modes[id] {
      assert Feeds(d.Arcs(), id, id);
    }
    if Streams(d, id) {
      var s :| s in d.Ids() && StartsStream(d.At(s)) && Feeds(d.Arcs(), s, id);
      if s != id {
        var _, last := ReachesEnds(d.Arcs(), s, id);
        ArcMembers(d, last, id);
        var e :| e in d.edges && e.src.node == last && e.dst.node == id;
        var j :| 0 <= j < k && order[j] == last;
        ModesAreReachability(d, modes, j);
      }
    }
  }

  // ---- Lowering and the graph view ----

  datatype IRNode = IRNode(id: string, operator: Kind, config: Frozen, streaming: bool)

  datatype Flow = Flow(id: string, fromNode: string, fromPort: Port, toNode: string, toPort: Port)

  datatype Pipeline = Pipeline(nodes: seq<IRNode>, flows: seq<Flow>)

  function FlowOf(e: Edge): Flow { Flow(e.id, e.src.node, e.src.port, e.dst.node, e.dst.port) }

  function EdgeOf(f: Flow): Edge { Edge(f.id, PortRef(f.fromNode, f.fromPort), PortRef(f.toNode, f.toPort)) }

  function LoweredNode(n: Node, streaming: bool): IRNode {
    IRNode(n.id, n.kind, Freeze(Dict(n.config)), streaming)
  }

  function ThawConfig(f: Frozen): Config {
    var v := Thaw(f);
    if v.Some? && v.value.Dict? then v.value.fields else map[]
  }

  /** `graph_view`. */
  function GraphView(p: Pipeline): Document {
    Document(seq(|p.nodes|, i requires 0 <= i < |p.nodes| =>
                   Node(p.nodes[i].id, p.nodes[i].operator, ThawConfig(p.nodes[i].config))),
             seq(|p.flows|, i requires 0 <= i < |p.flows| => EdgeOf(p.flows[i])))
  }

  function FlowsOf(es: seq<Edge>): seq<Flow> {
    seq(|es|, i requires 0 <= i < |es| => FlowOf(es[i]))
  }

  /** The nodes of the order, frozen, each with its mode. */
  ghost predicate LowersNodes(d: Document, nodes: seq<IRNode>) {
    && |nodes| == |Order(d)|
    && forall i :: 0 <= i < |nodes| ==>
         && Order(d)[i] in d.Ids()
         && nodes[i] == LoweredNode(d.At(Order(d)[i]), nodes[i].streaming)
         && (SourcesAreRoots(d) ==> (nodes[i].streaming <==> Streams(d, Order(d)[i])))
  }

  method LowerEach(index: map<string, Node>, modes: map<string, bool>, order: seq<string>) returns (nodes: seq<IRNode>)
    requires forall id :: id in order ==> id in index && id in modes
    ensures |nodes| == |order|
    ensures forall k :: 0 <= k < |order| ==> nodes[k] == LoweredNode(index[order[k]], modes[order[k]])
  {
    nodes := [];
    for i := 0 to |order|
      invariant |nodes| == i
      invariant forall k :: 0 <= k < i ==> nodes[k] == LoweredNode(index[order[k]], modes[order[k]])
    {
      nodes := nodes + [LoweredNode(index[order[i]], modes[order[i]])];
    }
  }

  method LowerNodes(d: Document, order: seq<string>) returns (nodes: seq<IRNode>)
    requires d.UniqueIds() && order == Order(d)
    ensures LowersNodes(d, nodes)
  {
    OrderFacts(d);
    var index := NodeMap(d.nodes);
    NodeMapIsAt(d);
    var modes := InferModes(d, order);
    nodes := LowerEach(index, modes, order);
    EachLowered(d, modes, nodes);
  }

  lemma EachLowered(d: Document, modes: map<string, bool>, nodes: seq<IRNode>)
    requires d.UniqueIds() && modes.Keys == Members(Order(d)) && forall id :: id in Order(d) ==> ModeRule(d, modes, id)
    requires |nodes| == |Order(d)| && forall id :: id in Order(d) ==> id in d.Ids()
    requires forall k :: 0 <= k < |nodes| ==> nodes[k] == LoweredNode(d.At(Order(d)[k]), modes[Order(d)[k]])
    ensures LowersNodes(d, nodes)
  {
    if SourcesAreRoots(d) {
      forall i | 0 <= i < |nodes| ensures nodes[i].streaming <==> Streams(d, Order(d)[i]) {
        ModesAreReachability(d, modes, i);
      }
    }
  }

  lemma FlowsAreEdges(es: seq<Edge>)
    ensures forall e :: e in es ==> Flow(e.id, e.src.node, e.src.port, e.dst.node, e.dst.port) in FlowsOf(Sort(ById, es))
    ensures var flows := FlowsOf(Sort(ById, es));
            |flows| == |es| && forall i, j :: 0 <= i < j < |flows| ==> TextLeq(flows[i].id, flows[j].id)
  {
    ByIdPreorder();
    SortIsSorted(ById, es);
    var sorted := Sort(ById, es);
    assert |multiset(sorted)| == |multiset(es)|;
    forall e | e in es ensures FlowOf(e) in FlowsOf(sorted) {
      assert e in multiset(es);
      var i :| 0 <= i < |sorted| && sorted[i] == e;
      assert FlowsOf(sorted)[i] == FlowOf(e);
    }
    forall i, j | 0 <= i < j < |sorted| ensures TextLeq(FlowsOf(sorted)[i].id, FlowsOf(sorted)[j].id) {
      assert ById(sorted[i], sorted[j]);
    }
  }

  /** `lower_pipeline`. The edges are sorted by id. */
  method LowerPipeline(d: Document, order: seq<string>) returns (p: Pipeline)
    requires d.UniqueIds() && order == Order(d)
    ensures LowersNodes(d, p.nodes) && p.flows == FlowsOf(Sort(ById, d.edges))
    ensures forall e :: e in d.edges ==> Flow(e.id, e.src.node, e.src.port, e.dst.node, e.dst.port) in p.flows
    ensures |p.flows| == |d.edges| && forall i, j :: 0 <= i < j < |p.flows| ==> TextLeq(p.flows[i].id, p.flows[j].id)
  {
    FlowsAreEdges(d.edges);
    var nodes := LowerNodes(d, order);
    p := Pipeline(nodes, FlowsOf(Sort(ById, d.edges)));
  }

  lemma ViewNodes(d: Document, p: Pipeline)
    requires d.UniqueIds() && LowersNodes(d, p.nodes)
    ensures |GraphView(p).nodes| == |Order(d)|
    ensures forall i :: 0 <= i < |Order(d)| ==> Order(d)[i] in d.Ids() && GraphView(p).nodes[i] == d.At(Order(d)[i])
  {
    forall i | 0 <= i < |Order(d)| ensures GraphView(p).nodes[i] == d.At(Order(d)[i]) {
      ThawFreeze(Dict(d.At(Order(d)[i]).config));
      assert d.Has(Order(d)[i], d.At(Order(d)[i]));
    }
  }

  lemma ViewEdges(d: Document, p: Pipeline)
    requires p.flows == FlowsOf(Sort(ById, d.edges))
    ensures GraphView(p).edges == Sort(ById, d.edges)
    ensures multiset(GraphView(p).edges) == multiset(d.edges)
  {
    var es := Sort(ById, d.edges);
    ByIdPreorder();
    SortIsSorted(ById, d.edges);
    assert forall i :: 0 <= i < |es| ==> EdgeOf(FlowOf(es[i])) == es[i];
  }

  /** Lowering loses nothing: on an acyclic document the graph view has the same nodes, with equal
      configurations, and the same edges, hence the same topological order. */
  lemma LoweringKeepsGraph(d: Document, p: Pipeline)
    requires d.UniqueIds() && Acyclic(d.Arcs())
    requires LowersNodes(d, p.nodes) && p.flows == FlowsOf(Sort(ById, d.edges))
    ensures SameGraph(d, GraphView(p)) && Order(GraphView(p)) == Order(d)
    ensures forall id :: id in d.Ids() ==> (Streams(GraphView(p), id) <==> Streams(d, id))
  {
    var v := GraphView(p);
    ViewNodes(d, p);
    ViewEdges(d, p);
    ShortOrderMeansCycle(d);
    OrderFacts(d);
    forall n ensures multiset(v.nodes)[n] == multiset(d.nodes)[n] {
      ViewNodeCounts(d, v.nodes, n);
    }
    MultisetExtensional(multiset(v.nodes), multiset(d.nodes));
    OrderIgnoresListing(d, v);
    SameGraphMembers(d, v);
    SameGraphUnique(d, v);
    forall id | id in d.Ids() ensures v.At(id) == d.At(id) { SameNode(d, v, id); }
  }

  lemma ViewNodeCounts(d: Document, nodes: seq<Node>, n: Node)
    requires d.UniqueIds() && |nodes| == |Order(d)|
    requires forall x :: x in d.Ids() <==> x in Order(d)
    requires Distinct(Order(d))
    requires forall i :: 0 <= i < |Order(d)| ==> Order(d)[i] in d.Ids() && nodes[i] == d.At(Order(d)[i])
    ensures multiset(nodes)[n] == multiset(d.nodes)[n]
  {
    forall i, j | 0 <= i < j < |nodes| ensures nodes[i] != nodes[j] {
      assert d.Has(Order(d)[i], nodes[i]) && d.Has(Order(d)[j], nodes[j]);
    }
    assert Distinct(d.nodes);
    OnePlace(nodes, n);
    OnePlace(d.nodes, n);
    if n in d.nodes {
      AtUnique(d, n);
      var i :| 0 <= i < |Order(d)| && Order(d)[i] == n.id;
      assert nodes[i] == n;
    }
    if n in nodes {
      var i :| 0 <= i < |nodes| && nodes[i] == n;
      assert d.Has(Order(d)[i], n);
    }
    assert n in nodes <==> n in multiset(nodes);
    assert n in d.nodes <==> n in multiset(d.nodes);
  }

  /** `_mode_map` on the lowered view and the modes of `lower_pipeline` are the same map. */
  lemma ModeMapsAgree(d: Document, p: Pipeline, modes: map<string, bool>, viewModes: map<string, bool>)
    requires d.UniqueIds() && Acyclic(d.Arcs()) && SourcesAreRoots(d)
    requires LowersNodes(d, p.nodes) && p.flows == FlowsOf(Sort(ById, d.edges))
    requires modes.Keys == Members(Order(d)) && forall id :: id in Order(d) ==> ModeRule(d, modes, id)
    requires viewModes.Keys == Members(Order(GraphView(p)))
    requires forall id :: id in Order(GraphView(p)) ==> ModeRule(GraphView(p), viewModes, id)
    ensures modes == viewModes
  {
    var v := GraphView(p);
    LoweringKeepsGraph(d, p);
    SameGraphUnique(d, v);
    RootsInView(d, v);
    OrderFacts(d);
    SameModes(d, v, modes, viewModes);
  }

  lemma MapsEqual<K, V>(a: map<K, V>, b: map<K, V>)
    requires a.Keys == b.Keys && forall k :: k in a ==> a[k] == b[k]
    ensures a == b
  {
  }

  lemma RootsInView(d: Document, v: Document)
    requires d.UniqueIds() && v.UniqueIds() && SourcesAreRoots(d) && SameGraph(d, v)
    ensures SourcesAreRoots(v)
  {
    SameGraphMembers(d, v);
    forall e | e in v.edges && e.dst.node in v.Ids() ensures !v.KindAt(e.dst.node).Source? { SameNode(d, v, e.dst.node); }
  }

  lemma SameModes(d: Document, v: Document, modes: map<string, bool>, viewModes: map<string, bool>)
    requires d.UniqueIds() && v.UniqueIds() && SourcesAreRoots(d) && SourcesAreRoots(v) && Order(v) == Order(d)
    requires forall id :: id in d.Ids() ==> (Streams(v, id) <==> Streams(d, id))
    requires modes.Keys == Members(Order(d)) && forall id :: id in Order(d) ==> ModeRule(d, modes, id)
    requires viewModes.Keys == Members(Order(v)) && forall id :: id in Order(v) ==> ModeRule(v, viewModes, id)
    ensures modes == viewModes
  {
    forall id | id in modes ensures modes[id] == viewModes[id] {
      assert id in Members(Order(d));
      var k :| 0 <= k < |Order(d)| && Order(d)[k] == id;
      SameMode(d, v, modes, viewModes, k);
    }
    MapsEqual(modes, viewModes);
  }

  lemma SameMode(d: Document, v: Document, modes: map<string, bool>, viewModes: map<string, bool>, k: nat)
    requires d.UniqueIds() && v.UniqueIds() && SourcesAreRoots(d) && SourcesAreRoots(v) && Order(v) == Order(d) && k < |Order(d)|
    requires forall id :: id in d.Ids() ==> (Streams(v, id) <==> Streams(d, id))
    requires modes.Keys == Members(Order(d)) && forall id :: id in Order(d) ==> ModeRule(d, modes, id)
    requires viewModes.Keys == Members(Order(v)) && forall id :: id in Order(v) ==> ModeRule(v, viewModes, id)
    ensures modes[Order(d)[k]] == viewModes[Order(d)[k]]
  {
    OrderFacts(d);
    ModesAreReachability(d, modes, k);
    ModesAreReachability(v, viewModes, k);
  }
}
