/** What a pipeline denotes: one dataframe per node (two for a quarantine split), tied together by
    one equation per node over uninterpreted operators. Every emitted form is compared with it. */
module Meaning {
  import opened Sorting
  import opened Digraph
  import opened Documents
  import opened Graph
  import opened Validation

  /** An operator's dataframe from its type, configuration and inputs, for one output port. */
  type Operators<!V(!new)> = (Kind, Config, map<Port, V>, Port) -> V

  /** A dataframe for each node output. */
  type Frames<V> = map<PortRef, V>

  function OutPorts(kind: Kind): set<Port> {
    if kind.Split? then {Accepted, Quarantine} else {Out}
  }

  /** The ports whose dataframe an operator transforms; a quality check only annotates its input. */
  function DataPorts(kind: Kind): set<Port> {
    if kind.Combine? then {Left, Right} else {In}
  }

  ghost predicate Connects(d: Document, e: Edge, id: string, port: Port) {
    e in d.edges && e.dst == PortRef(id, port)
  }

  ghost predicate Connected(d: Document, id: string, port: Port) {
    exists e :: Connects(d, e, id, port)
  }

  ghost function InEdge(d: Document, id: string, port: Port): (e: Edge)
    requires Connected(d, id, port)
    ensures Connects(d, e, id, port)
  {
    var e :| Connects(d, e, id, port);
    e
  }

  /** The node output an edge reads. Only a split has more than one. */
  ghost function ReadKey(d: Document, e: Edge): PortRef
    requires e.src.node in d.Ids()
  {
    if d.KindAt(e.src.node).Split? then e.src else PortRef(e.src.node, Out)
  }

  ghost predicate Readable<V>(d: Document, n: Node, m: Frames<V>)
    requires d.Closed()
  {
    forall p :: p in DataPorts(n.kind) && Connected(d, n.id, p) ==> ReadKey(d, InEdge(d, n.id, p)) in m
  }

  ghost function Inputs<V>(d: Document, n: Node, m: Frames<V>): map<Port, V>
    requires d.Closed() && Readable(d, n, m)
  {
    map p | p in DataPorts(n.kind) && Connected(d, n.id, p) :: m[ReadKey(d, InEdge(d, n.id, p))]
  }

  /** A declared dataset or sink holds what its input carries; any other node applies its operator. */
  ghost predicate Equation<V(!new)>(d: Document, op: Operators<V>, m: Frames<V>, n: Node)
    requires d.Closed()
  {
    && Readable(d, n, m)
    && forall p :: p in OutPorts(n.kind) ==>
         && PortRef(n.id, p) in m
         && (if n.kind.IsDefinition()
             then Connected(d, n.id, In) ==> m[PortRef(n.id, p)] == m[ReadKey(d, InEdge(d, n.id, In))]
             else m[PortRef(n.id, p)] == op(n.kind, n.config, Inputs(d, n, m), p))
  }

  ghost predicate IsMeaning<V(!new)>(d: Document, op: Operators<V>, m: Frames<V>)
    requires d.Closed()
  {
    forall n :: n in d.nodes ==> Equation(d, op, m, n)
  }

  // ---- Facts about well-formed documents ----

  lemma WellFormedIsClosed(d: Document)
    requires WellFormed(d)
    ensures d.Closed()
  {
    forall e | e in d.edges ensures e.src.node in d.Ids() && e.dst.node in d.Ids() { assert EdgeOk(d, e); }
  }

  lemma PortEdgesMembers(d: Document, id: string, port: Port)
    ensures forall e :: e in PortEdges(d, id, port) <==> Connects(d, e, id, port)
    ensures |PortEdges(d, id, port)| == 0 <==> !Connected(d, id, port)
  {
    IncomingMembers(d, id);
    FilterMembers(AtPort(port), Incoming(d, id));
    var es := PortEdges(d, id, port);
    if |es| > 0 { assert es[0] in es; }
  }

  lemma EdgePorts(d: Document, e: Edge)
    requires WellFormed(d) && e in d.edges
    ensures e.src.node in d.Ids() && e.dst.node in d.Ids()
    ensures e.src.port in OutputPorts(d.KindAt(e.src.node))
    ensures e.dst.port in InputPorts(d.KindAt(e.dst.node))
  {
    assert EdgeOk(d, e);
  }

  /** At most one edge enters a port. */
  lemma OneEdgePerPort(d: Document, a: Edge, b: Edge)
    requires WellFormed(d) && a in d.edges && b in d.edges && a.dst == b.dst
    ensures a == b
  {
    EdgePorts(d, a);
    var n := d.At(a.dst.node);
    assert d.Has(a.dst.node, n) && InputsOk(d, n);
    assert PortConnected(d, n, a.dst.port);
    PortEdgesMembers(d, n.id, a.dst.port);
    assert a in PortEdges(d, n.id, a.dst.port) && b in PortEdges(d, n.id, a.dst.port);
  }

  lemma RequiredInput(d: Document, n: Node, port: Port)
    requires WellFormed(d) && n in d.nodes && port in InputPorts(n.kind) && !Optional(port)
    ensures Connected(d, n.id, port)
  {
    assert InputsOk(d, n) && PortConnected(d, n, port);
    PortEdgesMembers(d, n.id, port);
  }

  /** An edge reads an output its source really has. */
  lemma ReadKeyIsOutput(d: Document, e: Edge)
    requires WellFormed(d) && e in d.edges
    ensures e.src.node in d.Ids()
    ensures ReadKey(d, e).node == e.src.node && ReadKey(d, e).port in OutPorts(d.KindAt(e.src.node))
    ensures e.src.port in OutPorts(d.KindAt(e.src.node))
  {
    EdgePorts(d, e);
  }

  lemma InEdgeIs(d: Document, e: Edge)
    requires WellFormed(d) && e in d.edges
    ensures Connected(d, e.dst.node, e.dst.port) && InEdge(d, e.dst.node, e.dst.port) == e
  {
    assert Connects(d, e, e.dst.node, e.dst.port);
    OneEdgePerPort(d, e, InEdge(d, e.dst.node, e.dst.port));
  }

  lemma ParentBefore(d: Document, e: Edge, k: nat)
    requires d.UniqueIds() && WellFormed(d) && k < |Order(d)| && e in d.edges && e.dst.node == Order(d)[k]
    ensures e.src.node in Order(d)[..k]
  {
    OrderFacts(d);
    EdgePorts(d, e);
    ArcMembers(d, e.src.node, e.dst.node);
  }

  /** A dataset or sink has one input, "in", and nothing else enters it. */
  lemma DefinitionInput(d: Document, n: Node)
    requires d.UniqueIds() && WellFormed(d) && n in d.nodes && n.kind.IsDefinition()
    ensures Connected(d, n.id, In)
    ensures forall e :: e in d.edges && e.dst.node == n.id ==> e == InEdge(d, n.id, In)
  {
    RequiredInput(d, n, In);
    forall e | e in d.edges && e.dst.node == n.id ensures e == InEdge(d, n.id, In) {
      AtUnique(d, n);
      EdgePorts(d, e);
      InEdgeIs(d, e);
    }
  }

  /** What processing order[k] may rely on: its inputs have been dealt with. */
  ghost predicate StepReady(d: Document, done: seq<string>, id: string)
    requires d.Closed()
  {
    && id in d.Ids() && id !in done
    && (forall e :: e in d.edges && e.dst.node == id ==>
          && e.src.node in done && ReadKey(d, e).node == e.src.node
          && ReadKey(d, e).port in OutPorts(d.KindAt(e.src.node)))
    && (d.KindAt(id).IsDefinition() ==> Connected(d, id, In))
  }

  lemma OrderStep(d: Document, k: nat)
    requires d.UniqueIds() && WellFormed(d) && d.Closed() && k < |Order(d)|
    ensures StepReady(d, Order(d)[..k], Order(d)[k])
    ensures Order(d)[..k + 1] == Order(d)[..k] + [Order(d)[k]]
  {
    OrderFacts(d);
    var n := d.At(Order(d)[k]);
    assert d.Has(Order(d)[k], n);
    forall e | e in d.edges && e.dst.node == n.id
      ensures e.src.node in Order(d)[..k] && ReadKey(d, e).node == e.src.node
      ensures ReadKey(d, e).port in OutPorts(d.KindAt(e.src.node))
    {
      ParentBefore(d, e, k);
      ReadKeyIsOutput(d, e);
    }
    if n.kind.IsDefinition() { DefinitionInput(d, n); }
  }

  // ---- The equations have exactly one solution ----

  ghost predicate AgreeOn<V>(d: Document, m: Frames<V>, m': Frames<V>, ids: set<string>) {
    forall id, p :: id in ids && id in d.Ids() && p in OutPorts(d.KindAt(id)) ==>
      PortRef(id, p) in m && PortRef(id, p) in m' && m[PortRef(id, p)] == m'[PortRef(id, p)]
  }

  /** Two interpretations of the operators agree on the operator and configuration of a node. */
  ghost predicate SameOperator<V(!new)>(op: Operators<V>, op': Operators<V>, n: Node) {
    forall inputs, p :: op(n.kind, n.config, inputs, p) == op'(n.kind, n.config, inputs, p)
  }

  /** They agree on all operators in a set of nodes. */
  ghost predicate OperatorsAgree<V(!new)>(d: Document, op: Operators<V>, op': Operators<V>, within: set<string>) {
    forall n :: n in d.nodes && n.id in within && !n.kind.IsDefinition() ==> SameOperator(op, op', n)
  }

  ghost predicate ParentClosed(d: Document, within: set<string>) {
    forall e :: e in d.edges && e.dst.node in within ==> e.src.node in within
  }

  lemma InputsAgree<V(!new)>(d: Document, n: Node, m: Frames<V>, m': Frames<V>, ids: set<string>)
    requires WellFormed(d) && d.Closed() && AgreeOn(d, m, m', ids)
    requires forall e :: e in d.edges && e.dst.node == n.id ==> e.src.node in ids
    ensures Readable(d, n, m) && Readable(d, n, m') && Inputs(d, n, m) == Inputs(d, n, m')
    ensures forall p :: Connected(d, n.id, p) ==>
              && ReadKey(d, InEdge(d, n.id, p)) in m && ReadKey(d, InEdge(d, n.id, p)) in m'
              && m[ReadKey(d, InEdge(d, n.id, p))] == m'[ReadKey(d, InEdge(d, n.id, p))]
  {
    forall p | Connected(d, n.id, p)
      ensures ReadKey(d, InEdge(d, n.id, p)) in m && ReadKey(d, InEdge(d, n.id, p)) in m'
      ensures m[ReadKey(d, InEdge(d, n.id, p))] == m'[ReadKey(d, InEdge(d, n.id, p))]
    {
      ReadKeyIsOutput(d, InEdge(d, n.id, p));
    }
  }

  lemma NodeAgrees<V(!new)>(d: Document, op: Operators<V>, op': Operators<V>, m: Frames<V>, m': Frames<V>, n: Node, ids: set<string>)
    requires d.UniqueIds() && WellFormed(d) && d.Closed() && n in d.nodes && (n.kind.IsDefinition() || SameOperator(op, op', n))
    requires Equation(d, op, m, n) && Equation(d, op', m', n) && AgreeOn(d, m, m', ids)
    requires forall e :: e in d.edges && e.dst.node == n.id ==> e.src.node in ids
    ensures forall p :: p in OutPorts(n.kind) ==>
              && PortRef(n.id, p) in m && PortRef(n.id, p) in m' && m[PortRef(n.id, p)] == m'[PortRef(n.id, p)]
  {
    InputsAgree(d, n, m, m', ids);
    if n.kind.IsDefinition() { DefinitionInput(d, n); }
  }

  lemma {:induction false} MeaningAgreesUpTo<V(!new)>(d: Document, op: Operators<V>, op': Operators<V>, m: Frames<V>, m': Frames<V>,
                                                      within: set<string>, k: nat)
    requires d.UniqueIds() && WellFormed(d) && d.Closed() && IsMeaning(d, op, m) && IsMeaning(d, op', m')
    requires ParentClosed(d, within) && OperatorsAgree(d, op, op', within) && k <= |Order(d)|
    ensures AgreeOn(d, m, m', Members(Order(d)[..k]) * within)
  {
    if k > 0 {
      var j := k - 1;
      MeaningAgreesUpTo(d, op, op', m, m', within, j);
      OrderStep(d, j);
      var id := Order(d)[j];
      assert d.Has(id, d.At(id));
      assert Order(d)[..k] == Order(d)[..j] + [id];
      if id in within { NodeAgrees(d, op, op', m, m', d.At(id), Members(Order(d)[..j]) * within); }
    }
  }

  /** Solutions for two interpretations agree on every node of a set that holds its inputs and on whose
      operators the interpretations agree. */
  lemma MeaningsAgreeWithin<V(!new)>(d: Document, op: Operators<V>, op': Operators<V>, m: Frames<V>, m': Frames<V>, within: set<string>)
    requires d.UniqueIds() && WellFormed(d) && d.Closed() && IsMeaning(d, op, m) && IsMeaning(d, op', m')
    requires ParentClosed(d, within) && OperatorsAgree(d, op, op', within)
    ensures forall n, p :: n in d.nodes && n.id in within && p in OutPorts(n.kind) ==> m[PortRef(n.id, p)] == m'[PortRef(n.id, p)]
  {
    MeaningAgreesUpTo(d, op, op', m, m', within, |Order(d)|);
    ShortOrderMeansCycle(d);
    assert Order(d)[..|Order(d)|] == Order(d);
    forall n, p | n in d.nodes && n.id in within && p in OutPorts(n.kind) ensures m[PortRef(n.id, p)] == m'[PortRef(n.id, p)] {
      AtUnique(d, n);
      assert n.id in Members(Order(d)) * within;
    }
  }

  /** On a well-formed document two solutions of the equations agree on every node output. */
  lemma MeaningIsUnique<V(!new)>(d: Document, op: Operators<V>, m: Frames<V>, m': Frames<V>)
    requires d.UniqueIds() && WellFormed(d) && d.Closed() && IsMeaning(d, op, m) && IsMeaning(d, op, m')
    ensures forall n, p :: n in d.nodes && p in OutPorts(n.kind) ==> m[PortRef(n.id, p)] == m'[PortRef(n.id, p)]
  {
    forall n | n in d.nodes ensures SameOperator(op, op, n) {}
    MeaningsAgreeWithin(d, op, op, m, m', d.Ids());
  }

  ghost predicate Extends<V>(m: Frames<V>, m': Frames<V>) {
    forall k :: k in m ==> k in m' && m'[k] == m[k]
  }

  lemma InputsStable<V(!new)>(d: Document, n: Node, m: Frames<V>, m': Frames<V>)
    requires d.Closed() && Readable(d, n, m) && Extends(m, m')
    ensures Readable(d, n, m') && Inputs(d, n, m') == Inputs(d, n, m)
  {
  }

  lemma EquationStable<V(!new)>(d: Document, op: Operators<V>, m: Frames<V>, m': Frames<V>, n: Node)
    requires d.Closed() && Equation(d, op, m, n) && Extends(m, m')
    ensures Equation(d, op, m', n)
  {
    InputsStable(d, n, m, m');
  }

  lemma SolveNode<V(!new)>(d: Document, op: Operators<V>, m: Frames<V>, n: Node) returns (m': Frames<V>)
    requires d.Closed() && (n.kind.IsDefinition() ==> Connected(d, n.id, In))
    requires forall p :: PortRef(n.id, p) !in m
    requires forall e :: e in d.edges && e.dst.node == n.id ==> ReadKey(d, e) in m
    ensures Extends(m, m') && Equation(d, op, m', n)
    ensures forall k :: k in m' <==> k in m || (k.node == n.id && k.port in OutPorts(n.kind))
  {
    assert Readable(d, n, m);
    if n.kind.IsDefinition() {
      m' := m[PortRef(n.id, Out) := m[ReadKey(d, InEdge(d, n.id, In))]];
    } else {
      var values := map p | p in OutPorts(n.kind) :: op(n.kind, n.config, Inputs(d, n, m), p);
      m' := m + map p | p in OutPorts(n.kind) :: PortRef(n.id, p) := values[p];
    }
    InputsStable(d, n, m, m');
  }

  ghost predicate Solved<V(!new)>(d: Document, op: Operators<V>, m: Frames<V>, ids: seq<string>)
    requires d.Closed()
  {
    && (forall id :: id in ids ==> id in d.Ids() && Equation(d, op, m, d.At(id)))
    && (forall k :: k in m <==> k.node in ids && k.node in d.Ids() && k.port in OutPorts(d.KindAt(k.node)))
  }

  lemma SolveStep<V(!new)>(d: Document, op: Operators<V>, m: Frames<V>, done: seq<string>, id: string)
    returns (m': Frames<V>)
    requires d.Closed() && StepReady(d, done, id) && Solved(d, op, m, done)
    ensures Solved(d, op, m', done + [id])
  {
    m' := SolveNode(d, op, m, d.At(id));
    forall x | x in done ensures Equation(d, op, m', d.At(x)) {
      EquationStable(d, op, m, m', d.At(x));
    }
  }

  /** Every well-formed document has a meaning: solve the equations in topological order. */
  lemma MeaningExists<V(!new)>(d: Document, op: Operators<V>) returns (m: Frames<V>)
    requires d.UniqueIds() && WellFormed(d) && d.Closed()
    ensures IsMeaning(d, op, m)
  {
    m := map[];
    var k := 0;
    while k < |Order(d)|
      invariant 0 <= k <= |Order(d)| && Solved(d, op, m, Order(d)[..k])
    {
      OrderStep(d, k);
      m := SolveStep(d, op, m, Order(d)[..k], Order(d)[k]);
      k := k + 1;
    }
    ShortOrderMeansCycle(d);
    assert Order(d)[..|Order(d)|] == Order(d);
    forall n | n in d.nodes ensures Equation(d, op, m, n) { AtUnique(d, n); }
  }
}
