/** Deterministic compilation: the generated module depends on which nodes and edges a well-formed
    document has, not on the order in which it lists them. */
module PythonDeterminism {
  import opened Sorting
  import opened Digraph
  import opened Documents
  import opened Graph
  import opened Validation
  import opened Meaning
  import opened Scopes
  import opened PythonNames
  import opened PythonProgram
  import opened SourceMap
  import opened PythonBackend
  import opened PythonEmitter

  lemma SameNodes(d: Document, d': Document)
    requires d.UniqueIds() && SameGraph(d, d')
    ensures d.Ids() == d'.Ids() && NodeMap(d.nodes) == NodeMap(d'.nodes)
    ensures forall id :: id in d.Ids() ==> d.At(id) == d'.At(id)
  {
    SameGraphMembers(d, d');
    SameGraphUnique(d, d');
    forall id | id in d.Ids() ensures d.At(id) == d'.At(id) { SameNode(d, d', id); }
    NodeMapIsAt(d);
    NodeMapIsAt(d');
  }

  lemma WellFormedIgnoresListing(d: Document, d': Document)
    requires d.UniqueIds() && SameGraph(d, d') && WellFormed(d)
    ensures WellFormed(d')
  {
    SameGraphMembers(d, d');
    SameNodes(d, d');
    forall n | n in d'.nodes ensures NodeOk(n) {}
    forall e | e in d'.edges ensures EdgeOk(d', e) { assert EdgeOk(d, e); }
    forall n | n in d'.nodes ensures InputsOk(d', n) {
      assert InputsOk(d, n);
      forall p | p in InputPorts(n.kind) ensures PortConnected(d', n, p) {
        assert PortConnected(d, n, p);
        FilterPermutes(IntoNode(n.id), d.edges, d'.edges);
        FilterPermutes(AtPort(p), Incoming(d, n.id), Incoming(d', n.id));
        var a, b := PortEdges(d, n.id, p), PortEdges(d', n.id, p);
        assert |a| == |multiset(a)| == |multiset(b)| == |b|;
      }
    }
  }

  lemma ParentsIgnoreListing(name: Naming, d: Document, d': Document, id: string)
    requires d.UniqueIds() && SameGraph(d, d')
    ensures ParentsAt(name, d, id) == ParentsAt(name, d', id)
  {
    SameNodes(d, d');
    FilterPermutes(IntoNode(id), d.edges, d'.edges);
    IncomingMembers(d, id);
    ByPortPreorder();
    var es := Incoming(d, id);
    forall a, b | a in es && b in es && ByPort(a, b) && ByPort(b, a) ensures a == b {
      if a.dst.port.Text() == b.dst.port.Text() {
        TextAntisymmetric(a.id, b.id);
      } else {
        TextAntisymmetric(a.dst.port.Text(), b.dst.port.Text());
      }
      EdgeUnique(d, a, b);
    }
    SortForgetsOrder(ByPort, es, Incoming(d', id));
  }

  lemma ExpressionsIgnoreListing(name: Naming, d: Document, d': Document, emits: Emitters)
    requires d.UniqueIds() && SameGraph(d, d')
    ensures Expressions(name, d, emits) == Expressions(name, d', emits)
    ensures forall id :: id in d.Ids() ==>
              id in d'.Ids() && OutcomeAt(name, d, id, emits) == OutcomeAt(name, d', id, emits)
  {
    SameNodes(d, d');
    forall id | id in d.Ids() ensures OutcomeAt(name, d, id, emits) == OutcomeAt(name, d', id, emits) {
      ParentsIgnoreListing(name, d, d', id);
    }
  }

  lemma ScopesIgnoreListing(d: Document, d': Document, id: string)
    requires d.UniqueIds() && SameGraph(d, d')
    ensures DefinitionScope(d, id) == DefinitionScope(d', id)
    ensures ScopeOrder(d, DefinitionScope(d, id)) == ScopeOrder(d', DefinitionScope(d', id))
  {
    SameNodes(d, d');
    SameGraphMembers(d, d');
    OrderIgnoresListing(d, d');
    forall a ensures a in OpenArcs(d) <==> a in OpenArcs(d') { ArcMembers(d, a.0, a.1); }
    assert OpenArcs(d) == OpenArcs(d');
    assert Sources(d, id) == Sources(d', id);
  }

  lemma {:induction false} PartsIgnoreListing(name: Naming, d: Document, d': Document, ids: seq<string>, style: Style,
                                              exprs: map<string, Expr>)
    requires d.Ids() == d'.Ids() && forall id :: id in d.Ids() ==> d.At(id) == d'.At(id)
    ensures Parts(name, d, ids, style, exprs) == Parts(name, d', ids, style, exprs)
  {
    if ids != [] { PartsIgnoreListing(name, d, d', ids[..|ids| - 1], style, exprs); }
  }

  lemma ReturnIgnoresListing(name: Naming, d: Document, d': Document, id: string)
    requires d.UniqueIds() && SameGraph(d, d') && WellFormed(d) && IsOutput(d, id)
    ensures ReturnLines(name, d, id) == ReturnLines(name, d', id)
  {
    SameNodes(d, d');
    SameGraphMembers(d, d');
    IncomingMembers(d, id);
    IncomingMembers(d', id);
    DefinitionScopeReady(d, id);
    assert Incoming(d, id)[0] in Incoming(d', id);
    assert d.Has(id, d.At(id));
    DefinitionInput(d, d.At(id));
    assert Incoming(d', id)[0] in Incoming(d', id);
  }

  lemma DefinitionIgnoresListing(name: Naming, d: Document, d': Document, id: string, style: Style, exprs: map<string, Expr>)
    requires d.UniqueIds() && SameGraph(d, d') && WellFormed(d) && IsOutput(d, id)
    ensures IsOutput(d', id) && DefinitionOf(name, d, id, style, exprs) == DefinitionOf(name, d', id, style, exprs)
  {
    SameNodes(d, d');
    ScopesIgnoreListing(d, d', id);
    ReturnIgnoresListing(name, d, d', id);
    PartsIgnoreListing(name, d, d', ScopeOrder(d, DefinitionScope(d, id)), style, exprs);
  }

  lemma {:induction false} DefinitionsIgnoreListing(name: Naming, d: Document, d': Document, ids: seq<string>, style: Style,
                                                    exprs: map<string, Expr>)
    requires d.UniqueIds() && SameGraph(d, d') && WellFormed(d)
    ensures Definitions(name, d, ids, style, exprs) == Definitions(name, d', ids, style, exprs)
  {
    if ids != [] {
      DefinitionsIgnoreListing(name, d, d', ids[..|ids| - 1], style, exprs);
      SameNodes(d, d');
      var id := ids[|ids| - 1];
      if IsOutput(d, id) { DefinitionIgnoresListing(name, d, d', id, style, exprs); }
    }
  }

  lemma OutputsIgnoreListing(name: Naming, d: Document, d': Document, emits: Emitters)
    requires d.UniqueIds() && SameGraph(d, d') && WellFormed(d) && Order(d) == Order(d')
    ensures OutputsPrint(name, d, Order(d), emits) <==> OutputsPrint(name, d', Order(d'), emits)
    ensures OutputsCrash(name, d, Order(d), emits) <==> OutputsCrash(name, d', Order(d'), emits)
  {
    SameNodes(d, d');
    ExpressionsIgnoreListing(name, d, d', emits);
    forall id | IsOutput(d, id)
      ensures DefinitionPrints(name, d, id, emits) <==> DefinitionPrints(name, d', id, emits)
      ensures DefinitionCrashes(name, d, id, emits) <==> DefinitionCrashes(name, d', id, emits)
    {
      ScopesIgnoreListing(d, d', id);
    }
  }

  /** Permuting the lists of a document changes no generated definition, hence neither the generated
      text nor its source map, and not whether generation succeeds. */
  lemma CompilationIgnoresListing(name: Naming, d: Document, d': Document, style: Style, emits: Emitters)
    requires d.UniqueIds() && SameGraph(d, d') && WellFormed(d)
    ensures Order(d) == Order(d') && Expressions(name, d, emits) == Expressions(name, d', emits)
    ensures Definitions(name, d, Order(d), style, Expressions(name, d, emits))
            == Definitions(name, d', Order(d'), style, Expressions(name, d', emits))
    ensures OutputsPrint(name, d, Order(d), emits) <==> OutputsPrint(name, d', Order(d'), emits)
    ensures OutputsCrash(name, d, Order(d), emits) <==> OutputsCrash(name, d', Order(d'), emits)
  {
    OrderIgnoresListing(d, d');
    ExpressionsIgnoreListing(name, d, d', emits);
    DefinitionsIgnoreListing(name, d, d', Order(d), style, Expressions(name, d, emits));
    OutputsIgnoreListing(name, d, d', emits);
  }
}
