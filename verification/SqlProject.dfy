/** The loop of `generate_sql_project` (python/sdpstudio_codegen/sql_backend.py), and how its views compare
    with the tables the Python module defines. */
module SqlProject {
  import opened Sorting
  import opened Digraph
  import opened Documents
  import opened Graph
  import opened Validation
  import opened Meaning
  import opened Lowering
  import opened PythonNames
  import opened PythonProgram
  import opened SourceMap
  import opened PythonBackend
  import opened PythonEmitter
  import opened PythonDeterminism
  import opened PythonProject
  import opened PythonCorrectness
  import opened SqlBackend

  /** `CREATE OR REPLACE <declaration> <name> AS <query>`. */
  datatype Statement = Statement(node: string, declaration: string, name: string, query: Query)

  function Declaration(kind: Kind): string {
    if kind == Dataset("materialized_view") then "MATERIALIZED VIEW"
    else if kind == Dataset("streaming_table") then "STREAMING TABLE"
    else "TEMPORARY VIEW"
  }

  /** What the text of a declaration declares. */
  function DeclaredBySql(text: string): Kind {
    match text
    case "MATERIALIZED VIEW" => Dataset("materialized_view")
    case "STREAMING TABLE" => Dataset("streaming_table")
    case "TEMPORARY VIEW" => Dataset("temporary_view")
    case _ => Unknown(text)
  }

  /** A dataset is declared as what it is; SQL has no change data capture, whose flows become temporary views. */
  ghost predicate DeclaresAs(s: Statement, kind: Kind) {
    DeclaredBySql(s.declaration) == if kind == Dataset("auto_cdc_scd1") then Dataset("temporary_view") else kind
  }

  lemma DeclarationFits(kind: Kind, s: Statement)
    requires kind.Dataset? && Required(kind).Some? && s.declaration == Declaration(kind)
    ensures DeclaresAs(s, kind)
  {
  }

  // ---- The queries do not depend on the listing ----

  lemma InEdgeIgnoresListing(d: Document, d': Document, id: string, p: Port)
    requires d.UniqueIds() && SameGraph(d, d') && WellFormed(d)
    ensures Connected(d, id, p) <==> Connected(d', id, p)
    ensures Connected(d, id, p) ==> InEdge(d, id, p) == InEdge(d', id, p)
  {
    SameGraphMembers(d, d');
    if Connected(d, id, p) {
      assert Connects(d', InEdge(d, id, p), id, p);
      InEdgeIs(d, InEdge(d', id, p));
    }
    if Connected(d', id, p) { assert Connects(d, InEdge(d', id, p), id, p); }
  }

  lemma ParentNodesIgnoreListing(d: Document, d': Document, id: string)
    requires d.UniqueIds() && SameGraph(d, d') && WellFormed(d) && WellFormed(d') && d.Closed() && d'.Closed()
    requires id in d.Ids() && id in d'.Ids()
    ensures ParentNodes(Incoming(d, id)) == ParentNodes(Incoming(d', id))
  {
    ParentsAre(d, id);
    ParentsAre(d', id);
    var a, b := ParentNodes(Incoming(d, id)), ParentNodes(Incoming(d', id));
    forall p ensures p in a <==> p in b
             ensures p in a ==> a[p] == b[p]
    {
      InEdgeIgnoresListing(d, d', id, p);
    }
    EqualMaps(a, b);
  }

  lemma EqualMaps<K, V>(a: map<K, V>, b: map<K, V>)
    requires forall k :: k in a <==> k in b
    requires forall k :: k in a ==> a[k] == b[k]
    ensures a == b
  {
  }

  lemma FirstEdgeIgnoresListing(d: Document, d': Document, n: Node)
    requires d.UniqueIds() && SameGraph(d, d') && WellFormed(d) && d.Closed() && n in d.nodes && n.id in d.Ids()
    requires !IsReader(n.kind) && !n.kind.Combine? && |ParentNodes(Incoming(d, n.id))| == 1
    ensures Incoming(d, n.id) != [] && Incoming(d', n.id) != [] && Incoming(d, n.id)[0] == Incoming(d', n.id)[0]
  {
    OneInput(d, n);
    SameGraphMembers(d, d');
    IncomingMembers(d, n.id);
    IncomingMembers(d', n.id);
    var es, es' := Incoming(d, n.id), Incoming(d', n.id);
    assert es[0] in es && es[0] in es' && es'[0] in es' && es'[0] in es;
    InEdgeIs(d, es'[0]);
  }

  ghost predicate SameExpression(d: Document, d': Document, index: map<string, Node>, id: string, active: set<string>, port: Port,
                                 rules: SqlRules)
  {
    && d.Closed() && d'.Closed() && index.Keys == d.Ids() == d'.Ids() && id in d.Ids()
    && Expression(d, index, id, active, port, rules) == Expression(d', index, id, active, port, rules)
  }

  lemma JoinUnfolds(d: Document, d': Document, index: map<string, Node>, id: string, active: set<string>, port: Port,
                    parents: map<Port, string>, rules: SqlRules)
    requires d.Closed() && d'.Closed() && index.Keys == d.Ids() == d'.Ids() && id in d.Ids() && id !in active
    requires Joins(index[id].kind) && ParentNodes(Incoming(d, id)) == parents == ParentNodes(Incoming(d', id))
    requires Left in parents && Right in parents ==>
               && SameExpression(d, d', index, parents[Left], active + {id}, Left, rules)
               && SameExpression(d, d', index, parents[Right], active + {id}, Right, rules)
    ensures SameExpression(d, d', index, id, active, port, rules)
  {
  }

  lemma UnaryUnfolds(d: Document, d': Document, index: map<string, Node>, id: string, active: set<string>, port: Port, rules: SqlRules)
    requires d.Closed() && d'.Closed() && index.Keys == d.Ids() == d'.Ids() && id in d.Ids() && id !in active
    requires !Joins(index[id].kind) && ParentNodes(Incoming(d, id)) == ParentNodes(Incoming(d', id))
    requires !IsReader(index[id].kind) && |ParentNodes(Incoming(d, id))| == 1 ==>
               && Incoming(d, id) != [] && Incoming(d', id) != [] && Incoming(d, id)[0] == Incoming(d', id)[0]
               && var e := Incoming(d, id)[0];
                  SameExpression(d, d', index, e.src.node, active + {id}, e.src.port, rules)
    ensures SameExpression(d, d', index, id, active, port, rules)
  {
  }

  /** On a well-formed document the queries do not depend on the order of the lists. */
  lemma {:induction false} ExpressionIgnoresListing(d: Document, d': Document, index: map<string, Node>, id: string,
                                                    active: set<string>, port: Port, rules: SqlRules)
    requires d.UniqueIds() && SameGraph(d, d') && WellFormed(d) && WellFormed(d') && d.Closed() && d'.Closed()
    requires index == NodeMap(d.nodes) && index.Keys == d.Ids() == d'.Ids() && id in d.Ids()
    ensures SameExpression(d, d', index, id, active, port, rules)
    decreases index.Keys - active
  {
    NodeMapIsAt(d);
    var n := d.At(id);
    assert d.Has(id, n);
    ParentNodesIgnoreListing(d, d', id);
    ParentsExist(d, id);
    var parents := ParentNodes(Incoming(d, id));
    if id in active {
    } else if Joins(n.kind) {
      if Left in parents && Right in parents {
        ExpressionIgnoresListing(d, d', index, parents[Left], active + {id}, Left, rules);
        ExpressionIgnoresListing(d, d', index, parents[Right], active + {id}, Right, rules);
      }
      JoinUnfolds(d, d', index, id, active, port, parents, rules);
    } else {
      if !IsReader(n.kind) && |parents| == 1 {
        NoLoneCombine(d, n);
        FirstEdgeIgnoresListing(d, d', n);
        var e := Incoming(d, id)[0];
        assert e in Incoming(d, id);
        ExpressionIgnoresListing(d, d', index, e.src.node, active + {id}, e.src.port, rules);
      }
      UnaryUnfolds(d, d', index, id, active, port, rules);
    }
  }

  // ---- The statements ----

  /** The query of a dataset: what its one input carries. */
  ghost function QueryOf(d: Document, id: string, rules: SqlRules): Result<Query, SqlError>
    requires d.UniqueIds() && d.Closed() && Connected(d, id, In)
  {
    NodeMapIsAt(d);
    Expression(d, NodeMap(d.nodes), InEdge(d, id, In).src.node, {}, InEdge(d, id, In).src.port, rules)
  }

  ghost predicate IsDataset(d: Document, id: string) { id in d.Ids() && d.KindAt(id).Dataset? }

  /** Everything upstream of the dataset is supported and its statement parses. */
  ghost predicate Expressible(d: Document, id: string, rules: SqlRules)
    requires d.UniqueIds() && d.Closed()
  {
    && Connected(d, id, In) && SqlReady(d, InEdge(d, id, In).src.node, InEdge(d, id, In).src.port, rules)
    && (QueryOf(d, id, rules).Success? ==> rules.whole(QueryOf(d, id, rules).value).Prints?)
  }

  /** Printing the statement of the dataset raises something that is not caught. */
  ghost predicate Raises(d: Document, id: string, rules: SqlRules)
    requires d.UniqueIds() && d.Closed()
  {
    && IsDataset(d, id) && Connected(d, id, In)
    && match QueryOf(d, id, rules)
       case Failure(e) => e.Raised?
       case Success(q) => rules.whole(q).OtherError?
  }

  /** It comes from the final parse or from a node upstream whose printing raises. */
  lemma RaisesIsUpstream(d: Document, id: string, rules: SqlRules)
    requires d.UniqueIds() && WellFormed(d) && d.Closed() && Raises(d, id, rules)
    ensures || (QueryOf(d, id, rules).Success? && rules.whole(QueryOf(d, id, rules).value).OtherError?)
            || exists u :: NodeRaises(d, u, rules) && Feeds(d.Arcs(), u, InEdge(d, id, In).src.node)
  {
    NodeMapIsAt(d);
    if QueryOf(d, id, rules).Failure? {
      var e := InEdge(d, id, In);
      RaisedIsUpstream(d, NodeMap(d.nodes), e.src.node, {}, e.src.port, rules, QueryOf(d, id, rules).error.node);
    }
  }

  lemma QueryExists(d: Document, id: string, rules: SqlRules)
    requires d.UniqueIds() && WellFormed(d) && d.Closed() && IsDataset(d, id)
    ensures Connected(d, id, In)
    ensures Expressible(d, id, rules) <==> QueryOf(d, id, rules).Success? && rules.whole(QueryOf(d, id, rules).value).Prints?
  {
    NodeMapIsAt(d);
    assert d.Has(id, d.At(id));
    DefinitionInput(d, d.At(id));
    var e := InEdge(d, id, In);
    AcceptsExactly(d, NodeMap(d.nodes), e.src.node, {}, e.src.port, rules);
  }

  ghost predicate IsStatement(d: Document, ident: string -> string, id: string, rules: SqlRules, s: Statement)
    requires d.UniqueIds() && d.Closed()
  {
    && IsDataset(d, id) && Connected(d, id, In) && QueryOf(d, id, rules).Success?
    && s.node == id && s.name == ident(OutputName(d.At(id))) && s.query == QueryOf(d, id, rules).value
    && DeclaresAs(s, d.KindAt(id))
  }

  /** The statements of the datasets among ids, in their order. */
  ghost predicate AreStatements(d: Document, ident: string -> string, ids: seq<string>, rules: SqlRules, ss: seq<Statement>)
    requires d.UniqueIds() && d.Closed()
  {
    if ids == [] then ss == []
    else
      var id := ids[|ids| - 1];
      if !IsDataset(d, id) then AreStatements(d, ident, ids[..|ids| - 1], rules, ss)
      else
        && ss != [] && IsStatement(d, ident, id, rules, ss[|ss| - 1])
        && AreStatements(d, ident, ids[..|ids| - 1], rules, ss[..|ss| - 1])
  }

  datatype Script = Script(statements: seq<Statement>) | Rejected | Escaped

  ghost predicate AllExpressible(d: Document, ids: seq<string>, rules: SqlRules)
    requires d.UniqueIds() && d.Closed()
  {
    forall id :: id in ids && IsDataset(d, id) ==> Expressible(d, id, rules)
  }

  /** A dataset of a well-formed document has one incoming edge. */
  lemma DatasetHasOneEdge(d: Document, id: string)
    requires d.UniqueIds() && WellFormed(d) && IsDataset(d, id)
    ensures Connected(d, id, In) && Incoming(d, id) == [InEdge(d, id, In)]
  {
    var n := d.At(id);
    assert d.Has(id, n);
    DefinitionInput(d, n);
    IncomingMembers(d, id);
    assert InputsOk(d, n) && PortConnected(d, n, In);
    forall e | e in Incoming(d, id) ensures AtPort(In)(e) {}
    FilterKeeps(AtPort(In), Incoming(d, id));
    assert InEdge(d, id, In) in Incoming(d, id);
    assert Incoming(d, id)[0] in Incoming(d, id);
  }

  /** The statement for one dataset. */
  method EmitStatement(d: Document, index: map<string, Node>, ident: string -> string, id: string, rules: SqlRules)
    returns (r: Result<Statement, SqlError>)
    requires d.UniqueIds() && WellFormed(d) && d.Closed() && Indexes(d, index) && IsDataset(d, id)
    ensures r.Success? <==> Expressible(d, id, rules)
    ensures r.Failure? && r.error.Raised? <==> Raises(d, id, rules)
    ensures r.Success? ==> IsStatement(d, ident, id, rules, r.value)
  {
    var incoming := Incoming(d, id);
    DatasetHasOneEdge(d, id);
    QueryExists(d, id, rules);
    if |incoming| != 1 { return Failure(Unsupported(id)); }
    assert incoming[0] in incoming && incoming[0].src.node in index;
    var query := Expression(d, index, incoming[0].src.node, {}, incoming[0].src.port, rules);
    match query
    case Failure(e) => r := Failure(e);
    case Success(q) =>
      match rules.whole(q)
      case ValueError => r := Failure(Unsupported(id));
      case OtherError => r := Failure(Raised(id));
      case Prints =>
        r := Success(Statement(id, Declaration(index[id].kind), ident(OutputName(index[id])), q));
        assert d.Has(id, d.At(id)) && NodeOk(d.At(id));
        DeclarationFits(index[id].kind, r.value);
  }

  /** What the loop over the order has built after ids. */
  ghost predicate ScriptSoFar(d: Document, ident: string -> string, ids: seq<string>, rules: SqlRules, refused: seq<string>,
                              ss: seq<Statement>)
    requires d.UniqueIds() && d.Closed()
  {
    && (forall id :: id in ids ==> !Raises(d, id, rules))
    && (refused == [] <==> AllExpressible(d, ids, rules))
    && (refused == [] ==> AreStatements(d, ident, ids, rules, ss))
  }

  lemma ScriptGrows(d: Document, ident: string -> string, ids: seq<string>, i: nat, rules: SqlRules, refused: seq<string>,
                    ss: seq<Statement>)
    requires d.UniqueIds() && d.Closed() && i < |ids| && ScriptSoFar(d, ident, ids[..i], rules, refused, ss)
    ensures !IsDataset(d, ids[i]) ==> ScriptSoFar(d, ident, ids[..i + 1], rules, refused, ss)
    ensures IsDataset(d, ids[i]) && !Expressible(d, ids[i], rules) && !Raises(d, ids[i], rules) ==>
            ScriptSoFar(d, ident, ids[..i + 1], rules, refused + [ids[i]], ss)
    ensures IsDataset(d, ids[i]) && Expressible(d, ids[i], rules) && !Raises(d, ids[i], rules) ==>
            forall s :: IsStatement(d, ident, ids[i], rules, s) ==> ScriptSoFar(d, ident, ids[..i + 1], rules, refused, ss + [s])
  {
    var next := ids[..i + 1];
    assert next == ids[..i] + [ids[i]] && next[..i] == ids[..i];
    assert AllExpressible(d, next, rules) <==>
           AllExpressible(d, ids[..i], rules) && (IsDataset(d, ids[i]) ==> Expressible(d, ids[i], rules));
    forall s | IsDataset(d, ids[i]) && IsStatement(d, ident, ids[i], rules, s) && refused == []
      ensures Expressible(d, ids[i], rules) ==> AreStatements(d, ident, next, rules, ss + [s])
    {
      assert (ss + [s])[..|ss|] == ss;
    }
  }

  lemma RaisesStays(d: Document, ids: seq<string>, id: string, rules: SqlRules)
    requires d.UniqueIds() && WellFormed(d) && d.Closed() && id in ids && Raises(d, id, rules)
    ensures !AllExpressible(d, ids, rules)
  {
    QueryExists(d, id, rules);
  }

  method EmitScript(d: Document, ident: string -> string, order: seq<string>, rules: SqlRules) returns (r: Script)
    requires d.UniqueIds() && WellFormed(d) && d.Closed() && order == Order(d)
    ensures r.Escaped? <==> exists id :: id in order && Raises(d, id, rules)
    ensures r.Script? <==> AllExpressible(d, order, rules)
    ensures r.Script? ==> AreStatements(d, ident, order, rules, r.statements)
  {
    var index := NodeMap(d.nodes);
    NodeMapIsAt(d);
    OrderFacts(d);
    var statements, refused := [], [];
    for i := 0 to |order|
      invariant ScriptSoFar(d, ident, order[..i], rules, refused, statements)
    {
      var id := order[i];
      assert id in order;
      ScriptGrows(d, ident, order, i, rules, refused, statements);
      if index[id].kind.Dataset? {
        var one := EmitStatement(d, index, ident, id, rules);
        if one.Failure? && one.error.Raised? {
          RaisesStays(d, order, id, rules);
          return Escaped;
        } else if one.Failure? {
          refused := refused + [id];
        } else {
          statements := statements + [one.value];
        }
      }
    }
    assert order[..|order|] == order;
    r := if refused == [] then Script(statements) else Rejected;
  }

  lemma {:induction false} StatementsIgnoreListing(d: Document, v: Document, ident: string -> string, ids: seq<string>,
                                                   rules: SqlRules, ss: seq<Statement>)
    requires d.UniqueIds() && v.UniqueIds() && d.Closed() && v.Closed() && WellFormed(d) && SameGraph(d, v)
    ensures AreStatements(v, ident, ids, rules, ss) <==> AreStatements(d, ident, ids, rules, ss)
  {
    if ids != [] {
      var id := ids[|ids| - 1];
      SameNodes(d, v);
      if IsDataset(d, id) {
        DatasetIgnoresListing(d, v, id, rules);
        if ss != [] { StatementsIgnoreListing(d, v, ident, ids[..|ids| - 1], rules, ss[..|ss| - 1]); }
      } else {
        StatementsIgnoreListing(d, v, ident, ids[..|ids| - 1], rules, ss);
      }
    }
  }

  lemma DatasetIgnoresListing(d: Document, v: Document, id: string, rules: SqlRules)
    requires d.UniqueIds() && v.UniqueIds() && d.Closed() && v.Closed() && WellFormed(d) && SameGraph(d, v) && IsDataset(d, id)
    ensures IsDataset(v, id) && Connected(d, id, In) && Connected(v, id, In)
    ensures QueryOf(v, id, rules) == QueryOf(d, id, rules)
    ensures Expressible(v, id, rules) <==> Expressible(d, id, rules)
  {
    SameGraphMembers(d, v);
    SameNodes(d, v);
    WellFormedIgnoresListing(d, v);
    NodeMapIsAt(d);
    QueryExists(d, id, rules);
    QueryExists(v, id, rules);
    InEdgeIs(d, InEdge(v, id, In));
    var e := InEdge(d, id, In);
    ExpressionIgnoresListing(d, v, NodeMap(d.nodes), e.src.node, {}, e.src.port, rules);
  }

  /** `generate_sql_project`. A script is generated exactly for the well-formed documents whose splits
      are supported and whose datasets are all built from supported nodes that print. An exception escapes
      from the validation, or when printing a dataset raises something other than a ValueError. */
  method GenerateSql(d: Document, ident: string -> string, rules: SqlRules) returns (r: Script)
    requires d.UniqueIds()
    ensures r.Script? <==>
            && WellFormed(d) && (forall n :: n in d.nodes ==> SplitSuited(n)) && d.Closed() && AllExpressible(d, Order(d), rules)
    ensures r.Script? ==> d.Closed() && AreStatements(d, ident, Order(d), rules, r.statements)
    ensures r.Escaped? <==>
            || (exists e :: e in d.edges && e.src.node in Order(d) && e.dst.node !in d.Ids())
            || (WellFormed(d) && (forall n :: n in d.nodes ==> SplitSuited(n)) && d.Closed()
                && exists id :: id in Order(d) && Raises(d, id, rules))
  {
    if WellFormed(d) { WellFormedIsClosed(d); }
    var checked := ValidateGraph(d);
    if checked.Failure? { return Escaped; }
    var order := TopologicalOrder(d);
    var p := LowerPipeline(d, order.value);
    var view := GraphView(p);
    if checked.value != [] { return Rejected; }
    ViewIsUsable(d, p);
    var splits := SplitsSupported(view.nodes);
    forall n | n in d.nodes ensures SplitSupported(n) <==> SplitSuited(n) { SplitSuitedExactly(n); }
    if !splits { return Rejected; }
    var viewOrder := TopologicalOrder(view);
    r := EmitScript(view, ident, viewOrder.value, rules);
    ViewScript(d, view, ident, rules);
  }

  lemma ViewIsUsable(d: Document, p: Pipeline)
    requires d.UniqueIds() && WellFormed(d) && LowersNodes(d, p.nodes) && p.flows == FlowsOf(Sort(ById, d.edges))
    ensures var v := GraphView(p);
            && SameGraph(d, v) && Order(v) == Order(d) && v.UniqueIds() && WellFormed(v) && v.Closed()
            && (forall n :: n in v.nodes <==> n in d.nodes)
            && (forall e :: e in v.edges && e.src.node in Order(v) ==> e.dst.node in v.Ids())
  {
    var v := GraphView(p);
    LoweringKeepsGraph(d, p);
    SameGraphMembers(d, v);
    SameGraphUnique(d, v);
    WellFormedIgnoresListing(d, v);
    WellFormedIsClosed(v);
  }

  lemma ViewDatasets(d: Document, v: Document, rules: SqlRules)
    requires d.UniqueIds() && v.UniqueIds() && d.Closed() && v.Closed() && WellFormed(d) && SameGraph(d, v)
    ensures forall id :: IsDataset(v, id) <==> IsDataset(d, id)
    ensures forall id :: Raises(v, id, rules) <==> Raises(d, id, rules)
    ensures forall id :: IsDataset(d, id) ==> (Expressible(v, id, rules) <==> Expressible(d, id, rules))
  {
    SameNodes(d, v);
    forall id
      ensures Raises(v, id, rules) <==> Raises(d, id, rules)
      ensures IsDataset(d, id) ==> (Expressible(v, id, rules) <==> Expressible(d, id, rules))
    {
      if IsDataset(d, id) { DatasetIgnoresListing(d, v, id, rules); }
    }
  }

  lemma ViewScript(d: Document, v: Document, ident: string -> string, rules: SqlRules)
    requires d.UniqueIds() && v.UniqueIds() && d.Closed() && v.Closed() && WellFormed(d) && SameGraph(d, v) && Order(v) == Order(d)
    ensures AllExpressible(v, Order(v), rules) <==> AllExpressible(d, Order(d), rules)
    ensures forall id :: Raises(v, id, rules) <==> Raises(d, id, rules)
    ensures forall ss :: AreStatements(v, ident, Order(v), rules, ss) <==> AreStatements(d, ident, Order(d), rules, ss)
  {
    ViewDatasets(d, v, rules);
    forall ss ensures AreStatements(v, ident, Order(v), rules, ss) <==> AreStatements(d, ident, Order(d), rules, ss) {
      StatementsIgnoreListing(d, v, ident, Order(d), rules, ss);
    }
  }

  // ---- Running the script ----

  /** What the catalog holds under a name: how it is declared, and its dataframe. */
  datatype View<V> = View(kind: Kind, frame: V)

  /** Each statement replaces the view of its name. */
  function RunScript<V(!new)>(op: Operators<V>, ss: seq<Statement>, store: map<string, View<V>>): map<string, View<V>> {
    if ss == [] then store
    else
      var s := ss[|ss| - 1];
      RunScript(op, ss[..|ss| - 1], store)[s.name := View(DeclaredBySql(s.declaration), Value(op, s.query))]
  }

  /** The last dataset among ids whose view is called t. */
  ghost function LastNamed(d: Document, ident: string -> string, ids: seq<string>, t: string): Option<string> {
    if ids == [] then None
    else
      var id := ids[|ids| - 1];
      if IsDataset(d, id) && ident(OutputName(d.At(id))) == t then Some(id)
      else LastNamed(d, ident, ids[..|ids| - 1], t)
  }

  ghost predicate ViewHolds<V(!new)>(d: Document, ident: string -> string, m: Frames<V>, ids: seq<string>, t: string,
                                     before: map<string, View<V>>, after: map<string, View<V>>) {
    match LastNamed(d, ident, ids, t)
    case None => (t in after <==> t in before) && (t in before ==> after[t] == before[t])
    case Some(id) =>
      && IsDataset(d, id) && t in after && PortRef(id, Out) in m && after[t].frame == m[PortRef(id, Out)]
      && after[t].kind == if d.KindAt(id) == Dataset("auto_cdc_scd1") then Dataset("temporary_view") else d.KindAt(id)
  }

  lemma StatementMeans<V(!new)>(d: Document, op: Operators<V>, m: Frames<V>, ident: string -> string, id: string,
                                rules: SqlRules, s: Statement)
    requires d.UniqueIds() && WellFormed(d) && d.Closed() && IsMeaning(d, op, m) && IsStatement(d, ident, id, rules, s)
    ensures PortRef(id, Out) in m && Value(op, s.query) == m[PortRef(id, Out)]
  {
    NodeMapIsAt(d);
    var n := d.At(id);
    assert d.Has(id, n) && Equation(d, op, m, n);
    DefinitionInput(d, n);
    var e := InEdge(d, id, In);
    ServedIsRead(d, e);
    assert d.Has(e.src.node, d.At(e.src.node));
    ExpressionMeans(d, op, m, NodeMap(d.nodes), e.src.node, {}, e.src.port, rules);
  }

  /** After the script every view holds the denotation of the last dataset of its name and is declared as its
      operator, a change data capture flow as a temporary view; nothing else changed. */
  lemma {:induction false} ScriptMeans<V(!new)>(d: Document, op: Operators<V>, m: Frames<V>, ident: string -> string, ids: seq<string>,
                                                rules: SqlRules, ss: seq<Statement>, before: map<string, View<V>>,
                                                t: string)
    requires d.UniqueIds() && WellFormed(d) && d.Closed() && IsMeaning(d, op, m) && AreStatements(d, ident, ids, rules, ss)
    ensures ViewHolds(d, ident, m, ids, t, before, RunScript(op, ss, before))
  {
    if ids != [] {
      var id := ids[|ids| - 1];
      if IsDataset(d, id) {
        ScriptMeans(d, op, m, ident, ids[..|ids| - 1], rules, ss[..|ss| - 1], before, t);
        StatementMeans(d, op, m, ident, id, rules, ss[|ss| - 1]);
      } else {
        ScriptMeans(d, op, m, ident, ids[..|ids| - 1], rules, ss, before, t);
      }
    }
  }

  ghost predicate SameView(ident: string -> string, a: Node, b: Node) {
    a.kind.Dataset? && b.kind.Dataset? && ident(OutputName(a)) == ident(OutputName(b))
  }

  ghost predicate ViewsApart(d: Document, ident: string -> string) {
    forall a, b :: a in d.nodes && b in d.nodes && SameView(ident, a, b) ==> a == b
  }

  lemma {:induction false} LastIsOnly(d: Document, ident: string -> string, ids: seq<string>, n: Node)
    requires d.UniqueIds() && ViewsApart(d, ident) && n in d.nodes && n.kind.Dataset? && n.id in ids
    ensures LastNamed(d, ident, ids, ident(OutputName(n))) == Some(n.id)
  {
    AtUnique(d, n);
    var id := ids[|ids| - 1];
    if IsDataset(d, id) { assert d.Has(id, d.At(id)); }
    if !(IsDataset(d, id) && ident(OutputName(d.At(id))) == ident(OutputName(n))) {
      SplitLast(ids);
      LastIsOnly(d, ident, ids[..|ids| - 1], n);
    }
  }

  /** A node and everything upstream of it. */
  ghost function Upstream(d: Document, id: string): set<string> { set u | u in d.Ids() && Feeds(d.Arcs(), u, id) }

  lemma UpstreamClosed(d: Document, id: string)
    requires d.Closed()
    ensures ParentClosed(d, Upstream(d, id))
  {
    forall e | e in d.edges && e.dst.node in Upstream(d, id) ensures e.src.node in Upstream(d, id) {
      ArcMembers(d, e.src.node, e.dst.node);
      if e.dst.node == id { StepReaches(d.Arcs(), e.src.node, id); } else { StepThenReaches(d.Arcs(), e.src.node, e.dst.node, id); }
    }
  }

  /** What the script leaves under the view of a dataset. */
  lemma SqlHolds<V(!new)>(d: Document, sql: Operators<V>, m: Frames<V>, ident: string -> string, rules: SqlRules, ss: seq<Statement>,
                          views: map<string, View<V>>, n: Node)
    requires d.UniqueIds() && WellFormed(d) && d.Closed() && IsMeaning(d, sql, m) && n in d.nodes && n.kind.Dataset?
    requires AreStatements(d, ident, Order(d), rules, ss) && ViewsApart(d, ident)
    ensures var after := RunScript(sql, ss, views);
            && ident(OutputName(n)) in after && PortRef(n.id, Out) in m && after[ident(OutputName(n))].frame == m[PortRef(n.id, Out)]
  {
    ShortOrderMeansCycle(d);
    AtUnique(d, n);
    assert n.id in Order(d);
    LastIsOnly(d, ident, Order(d), n);
    ScriptMeans(d, sql, m, ident, Order(d), rules, ss, views, ident(OutputName(n)));
  }

  /** What the module leaves under the name of a dataset. */
  lemma PythonHolds<V(!new)>(d: Document, python: Operators<V>, m: Frames<V>, prologue: seq<Line>, style: Style, emits: Emitters,
                             st: Machine<V>, n: Node)
    requires d.UniqueIds() && d.Closed() && IsMeaning(d, python, m) && n in d.nodes && n.kind.Dataset?
    requires Generates(d, emits) && TextNames(d) && ShortIdsApart(d) && AllText(prologue)
    requires forall id, e :: IsOutput(d, id) ==> !UsesAccepted(d, id, e)
    ensures var defs := Definitions(Var, d, Order(d), style, Expressions(Var, d, emits));
            var r := Run(python, prologue + ModuleText(defs), st);
            && r.Some? && OutputName(n) in r.value.tables && PortRef(n.id, Out) in m
            && r.value.tables[OutputName(n)] == m[PortRef(n.id, Out)]
  {
    GeneratedModuleMeans(d, python, m, prologue, style, emits, st);
  }

  /** Interpretations that agree upstream of a node give it one denotation. */
  lemma OneDenotation<V(!new)>(d: Document, op: Operators<V>, op': Operators<V>, m: Frames<V>, m': Frames<V>, n: Node)
    requires d.UniqueIds() && WellFormed(d) && d.Closed() && IsMeaning(d, op, m) && IsMeaning(d, op', m')
    requires n in d.nodes && n.kind.Dataset? && OperatorsAgree(d, op, op', Upstream(d, n.id))
    ensures m[PortRef(n.id, Out)] == m'[PortRef(n.id, Out)]
  {
    UpstreamClosed(d, n.id);
    MeaningsAgreeWithin(d, op, op', m, m', Upstream(d, n.id));
    assert Feeds(d.Arcs(), n.id, n.id) && n.id in Upstream(d, n.id);
  }

  /** The backends agree: on a document both accept, the SQL view of a dataset holds what the Python module
      stores for it, when the operators of SQL and of Python agree on every node upstream. */
  lemma SqlAgreesWithPython<V(!new)>(d: Document, python: Operators<V>, sql: Operators<V>, m: Frames<V>, m': Frames<V>,
                                     ident: string -> string, rules: SqlRules, ss: seq<Statement>, views: map<string, View<V>>,
                                     prologue: seq<Line>, style: Style, emits: Emitters, st: Machine<V>, n: Node)
    requires d.UniqueIds() && d.Closed() && IsMeaning(d, python, m) && IsMeaning(d, sql, m') && n in d.nodes && n.kind.Dataset?
    requires OperatorsAgree(d, python, sql, Upstream(d, n.id))
    requires Generates(d, emits) && TextNames(d) && ShortIdsApart(d) && AllText(prologue)
    requires forall id, e :: IsOutput(d, id) ==> !UsesAccepted(d, id, e)
    requires AreStatements(d, ident, Order(d), rules, ss) && ViewsApart(d, ident)
    ensures var defs := Definitions(Var, d, Order(d), style, Expressions(Var, d, emits));
            var tables, after := Run(python, prologue + ModuleText(defs), st), RunScript(sql, ss, views);
            && tables.Some? && OutputName(n) in tables.value.tables && ident(OutputName(n)) in after
            && after[ident(OutputName(n))].frame == tables.value.tables[OutputName(n)]
  {
    PythonHolds(d, python, m, prologue, style, emits, st, n);
    OneDenotation(d, python, sql, m, m', n);
    SqlHolds(d, sql, m', ident, rules, ss, views, n);
  }

  // ---- View names ----

  function StripUnderscores(s: string): string
    decreases |s|
  {
    if s != "" && s[0] == '_' then StripUnderscores(s[1..])
    else if s != "" && s[|s| - 1] == '_' then StripUnderscores(s[..|s| - 1])
    else s
  }

  /** `_ident`. */
  function SqlIdent(value: string): string {
    var stripped := StripUnderscores(Collapse(value, false));
    var name := if stripped == "" then "dataset" else stripped;
    if IsDigit(name[0]) then "dataset_" + name else name
  }

  lemma {:induction false} StrippedIsWord(s: string)
    requires forall i :: 0 <= i < |s| ==> IsWord(s[i])
    ensures forall i :: 0 <= i < |StripUnderscores(s)| ==> IsWord(StripUnderscores(s)[i])
    ensures StripUnderscores(s) != "" ==> StripUnderscores(s)[0] != '_' && StripUnderscores(s)[|StripUnderscores(s)| - 1] != '_'
    decreases |s|
  {
    if s != "" && s[0] == '_' { StrippedIsWord(s[1..]); } else if s != "" && s[|s| - 1] == '_' { StrippedIsWord(s[..|s| - 1]); }
  }

  /** `_ident` returns word characters without a leading digit and without an underscore at either end, and returns
      such names unchanged. */
  predicate IsViewName(s: string) {
    s != "" && !IsDigit(s[0]) && s[0] != '_' && s[|s| - 1] != '_' && forall i :: 0 <= i < |s| ==> IsWord(s[i])
  }

  lemma SqlIdentIsValid(value: string)
    ensures IsViewName(SqlIdent(value))
    ensures IsViewName(value) ==> SqlIdent(value) == value
  {
    CollapseIsWord(value, false);
    StrippedIsWord(Collapse(value, false));
    NamedIsValid(StripUnderscores(Collapse(value, false)));
    if IsViewName(value) { PlainWordStays(value, false); }
  }

  lemma NamedIsValid(stripped: string)
    requires forall i :: 0 <= i < |stripped| ==> IsWord(stripped[i])
    requires stripped != "" ==> stripped[0] != '_' && stripped[|stripped| - 1] != '_'
    ensures var name := if stripped == "" then "dataset" else stripped;
            IsViewName(if IsDigit(name[0]) then "dataset_" + name else name)
  {
  }

  /** ViewsApart is a real condition: names the Python generator accepts side by side can share a view,
      and then the later dataset replaces the earlier one. */
  lemma ViewNamesCollide()
    ensures Identifier("_a") != Identifier("a") && SqlIdent("_a") == SqlIdent("a")
  {
    PlainWordStays("_a", false);
    PlainWordStays("a", false);
    var x, y := "_a", "a";
    assert x[0] == '_' && x[1..] == y && |x| == 2 && |y| == 1;
    assert StripRight("_a") == "_a" && StripRight("a") == "a";
    assert StripUnderscores("a") == "a";
    assert StripUnderscores("_a") == StripUnderscores(x[1..]);
  }
}
