/** `generate_sql_project` (python/sdpstudio_codegen/sql_backend.py): one nested query per dataset, built
    by inlining everything upstream. */
module SqlBackend {
  import opened Sorting
  import opened Digraph
  import opened Documents
  import opened Graph
  import opened Validation
  import opened Meaning
  import opened PythonBackend

  /** A query, nested as it is printed. */
  datatype Query =
    | Scan(kind: Kind, config: Config)
    | Unary(kind: Kind, config: Config, port: Port, input: Query)
    | Binary(kind: Kind, config: Config, left: Query, right: Query)

  function Value<V(!new)>(op: Operators<V>, q: Query): V {
    match q
    case Scan(kind, config) => op(kind, config, map[], Out)
    case Unary(kind, config, port, input) => op(kind, config, map[In := Value(op, input)], port)
    case Binary(kind, config, left, right) =>
      op(kind, config, map[Left := Value(op, left), Right := Value(op, right)], Out)
  }

  /** Cycle and Unsupported are ValueErrors; Raised is any other exception. */
  datatype SqlError = Cycle(node: string) | Unsupported(node: string) | Raised(node: string)

  /** own: how formatting a node's literals and parsing them, with the query of its input if it has one, into
      the statement reacts; whole: how the final parse of a statement reacts. */
  datatype SqlRules = SqlRules(own: (Kind, Config, Option<Query>) -> Reaction, whole: Query -> Reaction)

  predicate Reads(kind: Kind) { kind.ComponentInput? || (kind.Source? && kind.op in {"table", "sql_query"}) }

  predicate Joins(kind: Kind) { kind.Combine? && kind.op in {"join", "intersect", "except"} }

  predicate Transforms(kind: Kind) {
    match kind
    case Quality(_) => true
    case Split => true
    case Utility(op) => op in {"group", "note", "component_output"}
    case Transform(op) =>
      op in {"filter", "select", "derive", "sql_project", "distinct", "deduplicate_event_time", "reorder", "replace",
             "build_struct", "build_map", "build_array", "limit", "posexplode", "aggregate"}
    case _ => false
  }

  /** `{edge.to.port: edge.from_.node}`. */
  function ParentNodes(es: seq<Edge>): map<Port, string> {
    if es == [] then map[] else ParentNodes(es[..|es| - 1])[es[|es| - 1].dst.port := es[|es| - 1].src.node]
  }

  /** The output of a split that a consumer asking for port gets; a join asks for its own port name. */
  predicate SplitServes(port: Port) { port in {Accepted, Quarantine, In, Out} }

  function Served(kind: Kind, port: Port): Port {
    if !kind.Split? then Out else if port == Quarantine then Quarantine else Accepted
  }

  /** What `_transform` makes of a node and its input. */
  function Wrap(n: Node, port: Port, input: Query, rules: SqlRules): Result<Query, SqlError> {
    if !Transforms(n.kind) || (n.kind.Split? && !SplitServes(port)) then Failure(Unsupported(n.id))
    else
      match rules.own(n.kind, n.config, Some(input))
      case ValueError => Failure(Unsupported(n.id))
      case OtherError => Failure(Raised(n.id))
      case Prints => Success(Unary(n.kind, n.config, Served(n.kind, port), input))
  }

  /** What `_source` makes of a reader. */
  function Scanned(n: Node, rules: SqlRules): Result<Query, SqlError> {
    if !Reads(n.kind) then Failure(Unsupported(n.id))
    else
      match rules.own(n.kind, n.config, None)
      case ValueError => Failure(Unsupported(n.id))
      case OtherError => Failure(Raised(n.id))
      case Prints => Success(Scan(n.kind, n.config))
  }

  lemma {:induction false} ParentNodesFrom(es: seq<Edge>)
    ensures forall p :: p in ParentNodes(es) <==> exists e :: e in es && e.dst.port == p
    ensures forall p :: p in ParentNodes(es) ==> exists e :: e in es && e.dst.port == p && e.src.node == ParentNodes(es)[p]
  {
    if es != [] {
      ParentNodesFrom(es[..|es| - 1]);
      SplitLast(es);
    }
  }

  lemma ParentsExist(d: Document, id: string)
    requires d.Closed() && id in d.Ids()
    ensures forall p :: p in ParentNodes(Incoming(d, id)) ==>
              ParentNodes(Incoming(d, id))[p] in d.Ids() && (ParentNodes(Incoming(d, id))[p], id) in d.Arcs()
    ensures |ParentNodes(Incoming(d, id))| == 1 ==> Incoming(d, id) != []
    ensures forall e :: e in Incoming(d, id) ==> e.src.node in d.Ids() && (e.src.node, id) in d.Arcs()
  {
    var parents := ParentNodes(Incoming(d, id));
    ParentNodesFrom(Incoming(d, id));
    IncomingMembers(d, id);
    forall e | e in Incoming(d, id) ensures (e.src.node, id) in d.Arcs() { ArcMembers(d, e.src.node, id); }
    forall p | p in parents ensures parents[p] in d.Ids() && (parents[p], id) in d.Arcs() {
      var e :| e in Incoming(d, id) && e.dst.port == p && e.src.node == parents[p];
    }
  }

  /** `_expression`. active holds the nodes being expanded; every call grows it, so the recursion ends on
      any closed graph, cyclic or not. */
  function Expression(d: Document, index: map<string, Node>, id: string, active: set<string>, port: Port,
                      rules: SqlRules): Result<Query, SqlError>
    requires d.Closed() && index.Keys == d.Ids() && id in d.Ids()
    decreases index.Keys - active
  {
    if id in active then Failure(Cycle(id))
    else
      var n := index[id];
      var es := Incoming(d, id);
      var parents := ParentNodes(es);
      ParentsExist(d, id);
      if IsReader(n.kind) then Scanned(n, rules)
      else if Joins(n.kind) then
        if Left !in parents || Right !in parents then Failure(Unsupported(id))
        else
          var left := Expression(d, index, parents[Left], active + {id}, Left, rules);
          if left.Failure? then left
          else
            var right := Expression(d, index, parents[Right], active + {id}, Right, rules);
            if right.Failure? then right else Success(Binary(n.kind, n.config, left.value, right.value))
      else if |parents| != 1 then Failure(Unsupported(id))
      else
        assert es[0] in es;
        var input := Expression(d, index, es[0].src.node, active + {id}, es[0].src.port, rules);
        if input.Failure? then input else Wrap(n, port, input.value, rules)
  }

  // ---- Cycles ----

  /** The nodes being expanded are all downstream of id. */
  ghost predicate Below(d: Document, id: string, active: set<string>) {
    forall a :: a in active ==> Reaches(d.Arcs(), id, a)
  }

  lemma BelowParent(d: Document, u: string, id: string, active: set<string>)
    requires Below(d, id, active) && (u, id) in d.Arcs()
    ensures Below(d, u, active + {id})
  {
    forall a | a in active + {id} ensures Reaches(d.Arcs(), u, a) { StepThenReaches(d.Arcs(), u, id, a); }
  }

  /** The cycle error names a node that is its own ancestor, and an ancestor of the node asked for. */
  lemma {:induction false} CycleErrorIsCycle(d: Document, index: map<string, Node>, id: string, active: set<string>, port: Port,
                                             rules: SqlRules, c: string)
    requires d.Closed() && index.Keys == d.Ids() && id in d.Ids() && Below(d, id, active)
    requires Expression(d, index, id, active, port, rules) == Failure(Cycle(c))
    ensures OnCycle(d.Arcs(), c) && Feeds(d.Arcs(), c, id)
    decreases index.Keys - active
  {
    if id !in active {
      var es := Incoming(d, id);
      var parents := ParentNodes(es);
      ParentsExist(d, id);
      if Joins(index[id].kind) {
        var left := Expression(d, index, parents[Left], active + {id}, Left, rules);
        var u := if left.Failure? then parents[Left] else parents[Right];
        BelowParent(d, u, id, active);
        CycleErrorIsCycle(d, index, u, active + {id}, if left.Failure? then Left else Right, rules, c);
        ReachesThenStep(d.Arcs(), c, u, id);
      } else {
        assert es[0] in es;
        BelowParent(d, es[0].src.node, id, active);
        CycleErrorIsCycle(d, index, es[0].src.node, active + {id}, es[0].src.port, rules, c);
        ReachesThenStep(d.Arcs(), c, es[0].src.node, id);
      }
    }
  }

  // ---- Queries do not depend on the path ----

  ghost predicate SameQuery(d: Document, index: map<string, Node>, id: string, active: set<string>, active': set<string>, port: Port,
                            rules: SqlRules)
    requires d.Closed() && index.Keys == d.Ids() && id in d.Ids()
  {
    Expression(d, index, id, active, port, rules) == Expression(d, index, id, active', port, rules)
  }

  /** On an acyclic graph a query does not depend on the path that leads to it. */
  lemma {:induction false} PathIgnored(d: Document, index: map<string, Node>, id: string, active: set<string>, active': set<string>,
                                       port: Port, rules: SqlRules)
    requires d.Closed() && Acyclic(d.Arcs()) && index.Keys == d.Ids() && id in d.Ids()
    requires Below(d, id, active) && Below(d, id, active')
    ensures SameQuery(d, index, id, active, active', port, rules)
    decreases index.Keys - active
  {
    assert !OnCycle(d.Arcs(), id) && id !in active && id !in active';
    var es := Incoming(d, id);
    var parents := ParentNodes(es);
    ParentsExist(d, id);
    if Joins(index[id].kind) {
      if Left in parents && Right in parents {
        ParentPathIgnored(d, index, id, parents[Left], active, active', Left, rules);
        ParentPathIgnored(d, index, id, parents[Right], active, active', Right, rules);
      }
      JoinPathIgnored(d, index, id, active, active', port, parents, rules);
    } else if !IsReader(index[id].kind) {
      if |parents| == 1 {
        assert es[0] in es;
        ParentPathIgnored(d, index, id, es[0].src.node, active, active', es[0].src.port, rules);
      }
      UnaryPathIgnored(d, index, id, active, active', port, rules);
    }
  }

  lemma JoinPathIgnored(d: Document, index: map<string, Node>, id: string, active: set<string>, active': set<string>, port: Port,
                        parents: map<Port, string>, rules: SqlRules)
    requires d.Closed() && index.Keys == d.Ids() && id in d.Ids() && id !in active && id !in active'
    requires Joins(index[id].kind) && parents == ParentNodes(Incoming(d, id)) && forall p :: p in parents ==> parents[p] in d.Ids()
    requires Left in parents && Right in parents ==>
               && SameQuery(d, index, parents[Left], active + {id}, active' + {id}, Left, rules)
               && SameQuery(d, index, parents[Right], active + {id}, active' + {id}, Right, rules)
    ensures SameQuery(d, index, id, active, active', port, rules)
  {
  }

  lemma UnaryPathIgnored(d: Document, index: map<string, Node>, id: string, active: set<string>, active': set<string>, port: Port,
                         rules: SqlRules)
    requires d.Closed() && index.Keys == d.Ids() && id in d.Ids() && id !in active && id !in active'
    requires !Joins(index[id].kind) && !IsReader(index[id].kind)
    requires |ParentNodes(Incoming(d, id))| == 1 ==>
               && Incoming(d, id) != [] && Incoming(d, id)[0].src.node in d.Ids()
               && SameQuery(d, index, Incoming(d, id)[0].src.node, active + {id}, active' + {id}, Incoming(d, id)[0].src.port, rules)
    ensures SameQuery(d, index, id, active, active', port, rules)
  {
  }

  lemma {:induction false} ParentPathIgnored(d: Document, index: map<string, Node>, id: string, u: string, active: set<string>,
                                             active': set<string>, port: Port, rules: SqlRules)
    requires d.Closed() && Acyclic(d.Arcs()) && index.Keys == d.Ids() && id in d.Ids() && u in d.Ids() && (u, id) in d.Arcs()
    requires Below(d, id, active) && Below(d, id, active') && id !in active
    ensures SameQuery(d, index, u, active + {id}, active' + {id}, port, rules)
    decreases index.Keys - active, 0
  {
    BelowParent(d, u, id, active);
    BelowParent(d, u, id, active');
    PathIgnored(d, index, u, active + {id}, active' + {id}, port, rules);
  }

  // ---- Other exceptions ----

  /** The query of an output. */
  ghost function QueryAt(d: Document, id: string, port: Port, rules: SqlRules): Result<Query, SqlError>
    requires d.UniqueIds() && d.Closed() && id in d.Ids()
  {
    NodeMapIsAt(d);
    Expression(d, NodeMap(d.nodes), id, {}, port, rules)
  }

  /** Printing node u, once its input has a query, raises something other than a ValueError. */
  ghost predicate NodeRaises(d: Document, u: string, rules: SqlRules)
    requires d.UniqueIds() && d.Closed()
  {
    u in d.Ids() &&
    if IsReader(d.KindAt(u)) then rules.own(d.KindAt(u), d.At(u).config, None).OtherError?
    else
      && Incoming(d, u) != []
      && var e := Incoming(d, u)[0];
         && e.src.node in d.Ids() && QueryAt(d, e.src.node, e.src.port, rules).Success?
         && rules.own(d.KindAt(u), d.At(u).config, Some(QueryAt(d, e.src.node, e.src.port, rules).value)).OtherError?
  }

  /** The other exceptions come from printing a node upstream. */
  lemma {:induction false} RaisedIsUpstream(d: Document, index: map<string, Node>, id: string, active: set<string>, port: Port,
                                            rules: SqlRules, u: string)
    requires d.UniqueIds() && d.Closed() && Acyclic(d.Arcs()) && index == NodeMap(d.nodes) && index.Keys == d.Ids() && id in d.Ids()
    requires Below(d, id, active) && Expression(d, index, id, active, port, rules) == Failure(Raised(u))
    ensures NodeRaises(d, u, rules) && Feeds(d.Arcs(), u, id)
    decreases index.Keys - active
  {
    NodeMapIsAt(d);
    assert d.Has(id, d.At(id)) && id !in active;
    var es := Incoming(d, id);
    var parents := ParentNodes(es);
    ParentsExist(d, id);
    if IsReader(index[id].kind) {
    } else if Joins(index[id].kind) {
      var side := JoinFails(d, index, id, active, port, rules);
      RaisedByParent(d, index, id, parents[side], active, side, rules, u);
    } else {
      RaisedAtUnary(d, index, id, active, port, rules, u);
    }
  }

  lemma {:induction false} RaisedAtUnary(d: Document, index: map<string, Node>, id: string, active: set<string>, port: Port,
                                         rules: SqlRules, u: string)
    requires d.UniqueIds() && d.Closed() && Acyclic(d.Arcs()) && index == NodeMap(d.nodes) && index.Keys == d.Ids() && id in d.Ids()
    requires Below(d, id, active) && id !in active && !IsReader(index[id].kind) && !Joins(index[id].kind)
    requires Expression(d, index, id, active, port, rules) == Failure(Raised(u))
    ensures NodeRaises(d, u, rules) && Feeds(d.Arcs(), u, id)
    decreases index.Keys - active, 1
  {
    var es := Incoming(d, id);
    ParentsExist(d, id);
    assert es[0] in es;
    if Expression(d, index, es[0].src.node, active + {id}, es[0].src.port, rules).Failure? {
      RaisedByParent(d, index, id, es[0].src.node, active, es[0].src.port, rules, u);
    } else {
      RaisedHere(d, index, id, active, port, rules, u);
    }
  }

  /** When both inputs of a join are connected, its error is that of one of them. */
  lemma JoinFails(d: Document, index: map<string, Node>, id: string, active: set<string>, port: Port, rules: SqlRules)
    returns (side: Port)
    requires d.Closed() && index.Keys == d.Ids() && id in d.Ids() && id !in active && Joins(index[id].kind)
    requires Expression(d, index, id, active, port, rules).Failure? && Expression(d, index, id, active, port, rules).error.Raised?
    ensures var parents := ParentNodes(Incoming(d, id));
            && side in parents && parents[side] in d.Ids()
            && Expression(d, index, parents[side], active + {id}, side, rules) == Expression(d, index, id, active, port, rules)
  {
    var parents := ParentNodes(Incoming(d, id));
    ParentsExist(d, id);
    side := if Expression(d, index, parents[Left], active + {id}, Left, rules).Failure? then Left else Right;
  }

  lemma RaisedHere(d: Document, index: map<string, Node>, id: string, active: set<string>, port: Port, rules: SqlRules, u: string)
    requires d.UniqueIds() && d.Closed() && Acyclic(d.Arcs()) && index == NodeMap(d.nodes) && index.Keys == d.Ids() && id in d.Ids()
    requires Below(d, id, active) && id !in active && !IsReader(index[id].kind) && !Joins(index[id].kind)
    requires Incoming(d, id) != [] && Incoming(d, id)[0].src.node in d.Ids()
    requires Expression(d, index, Incoming(d, id)[0].src.node, active + {id}, Incoming(d, id)[0].src.port, rules).Success?
    requires Expression(d, index, id, active, port, rules) == Failure(Raised(u))
    ensures NodeRaises(d, u, rules) && u == id
  {
    NodeMapIsAt(d);
    InputQuery(d, index, id, active, Incoming(d, id)[0], rules);
  }

  /** The query of an input is that of its output. */
  lemma InputQuery(d: Document, index: map<string, Node>, id: string, active: set<string>, e: Edge, rules: SqlRules)
    requires d.UniqueIds() && d.Closed() && Acyclic(d.Arcs()) && index == NodeMap(d.nodes) && index.Keys == d.Ids() && id in d.Ids()
    requires Below(d, id, active) && e in Incoming(d, id)
    ensures e.src.node in d.Ids()
    ensures Expression(d, index, e.src.node, active + {id}, e.src.port, rules) == QueryAt(d, e.src.node, e.src.port, rules)
  {
    ParentsExist(d, id);
    BelowParent(d, e.src.node, id, active);
    PathIgnored(d, index, e.src.node, active + {id}, {}, e.src.port, rules);
  }

  lemma {:induction false} RaisedByParent(d: Document, index: map<string, Node>, id: string, parent: string, active: set<string>,
                                          port: Port, rules: SqlRules, u: string)
    requires d.UniqueIds() && d.Closed() && Acyclic(d.Arcs()) && index == NodeMap(d.nodes) && index.Keys == d.Ids() && id in d.Ids()
    requires parent in d.Ids() && (parent, id) in d.Arcs() && Below(d, id, active) && id !in active
    requires Expression(d, index, parent, active + {id}, port, rules) == Failure(Raised(u))
    ensures NodeRaises(d, u, rules) && Feeds(d.Arcs(), u, id)
    decreases index.Keys - active, 0
  {
    BelowParent(d, parent, id, active);
    RaisedIsUpstream(d, index, parent, active + {id}, port, rules, u);
    ReachesThenStep(d.Arcs(), u, parent, id);
  }

  // ---- Meaning ----

  /** With one edge per port, the parents of a node are the sources of its edges. */
  lemma ParentsAre(d: Document, id: string)
    requires WellFormed(d) && d.Closed() && id in d.Ids()
    ensures forall p :: p in ParentNodes(Incoming(d, id)) <==> Connected(d, id, p)
    ensures forall p :: Connected(d, id, p) ==> ParentNodes(Incoming(d, id))[p] == InEdge(d, id, p).src.node
  {
    var es := Incoming(d, id);
    ParentNodesFrom(es);
    IncomingMembers(d, id);
    forall p ensures p in ParentNodes(es) <==> Connected(d, id, p) {
      if p in ParentNodes(es) {
        var e :| e in es && e.dst.port == p;
        assert Connects(d, e, id, p);
      }
      if Connected(d, id, p) { assert InEdge(d, id, p) in es; }
    }
    forall p | Connected(d, id, p) ensures ParentNodes(es)[p] == InEdge(d, id, p).src.node {
      var e :| e in es && e.dst.port == p && e.src.node == ParentNodes(es)[p];
      InEdgeIs(d, e);
    }
  }

  lemma UsesIn(kind: Kind, port: Port)
    requires port in InputPorts(kind) && !kind.Combine?
    ensures In in InputPorts(kind)
  {
  }

  /** A transforming node with one connected port has one edge, into "in". */
  lemma OneInput(d: Document, n: Node)
    requires d.UniqueIds() && WellFormed(d) && d.Closed() && n in d.nodes && n.id in d.Ids() && !IsReader(n.kind) && !n.kind.Combine?
    requires |ParentNodes(Incoming(d, n.id))| == 1
    ensures Connected(d, n.id, In) && Incoming(d, n.id) != [] && Incoming(d, n.id)[0] == InEdge(d, n.id, In)
    ensures forall p :: Connected(d, n.id, p) ==> p == In
  {
    ParentsAre(d, n.id);
    ParentsExist(d, n.id);
    IncomingMembers(d, n.id);
    AtUnique(d, n);
    var e := Incoming(d, n.id)[0];
    assert e in Incoming(d, n.id);
    InEdgeIs(d, e);
    EdgePorts(d, e);
    UsesIn(n.kind, e.dst.port);
    RequiredInput(d, n, In);
    var keys := ParentNodes(Incoming(d, n.id)).Keys;
    assert |keys| == 1 && In in keys;
    forall p | Connected(d, n.id, p) ensures p == In { OnlyOne(keys, p, In); }
  }

  lemma OnlyOne<T>(s: set<T>, x: T, y: T)
    requires |s| == 1 && x in s && y in s
    ensures x == y
  {
    assert |s - {x}| == 0;
  }

  /** A combining node has two connected ports. */
  lemma NoLoneCombine(d: Document, n: Node)
    requires d.UniqueIds() && WellFormed(d) && d.Closed() && n in d.nodes && n.id in d.Ids() && |ParentNodes(Incoming(d, n.id))| == 1
    ensures !n.kind.Combine?
  {
    if n.kind.Combine? {
      RequiredInput(d, n, Left);
      RequiredInput(d, n, Right);
      ParentsAre(d, n.id);
      OnlyOne(ParentNodes(Incoming(d, n.id)).Keys, Left, Right);
    }
  }

  /** The output a request for port gets. */
  function ServedRef(n: Node, port: Port): PortRef { PortRef(n.id, Served(n.kind, port)) }

  lemma ServedIsRead(d: Document, e: Edge)
    requires WellFormed(d) && d.Closed() && e in d.edges
    ensures ReadKey(d, e) == PortRef(e.src.node, Served(d.KindAt(e.src.node), e.src.port))
  {
    EdgePorts(d, e);
  }

  /** Joining asks a split for "left" or "right", which it does not serve. */
  lemma JoinedIsNoSplit(d: Document, index: map<string, Node>, id: string, active: set<string>, port: Port, rules: SqlRules)
    requires d.Closed() && index.Keys == d.Ids() && id in d.Ids() && (port == Left || port == Right)
    requires Expression(d, index, id, active, port, rules).Success?
    ensures !index[id].kind.Split?
  {
  }

  lemma UnaryMeans<V(!new)>(d: Document, op: Operators<V>, m: Frames<V>, n: Node, port: Port, input: Query, rules: SqlRules)
    requires d.UniqueIds() && WellFormed(d) && d.Closed() && n in d.nodes && n.id in d.Ids() && Equation(d, op, m, n)
    requires !IsReader(n.kind) && !n.kind.Combine? && |ParentNodes(Incoming(d, n.id))| == 1 && Connected(d, n.id, In)
    requires Wrap(n, port, input, rules).Success?
    requires ReadKey(d, InEdge(d, n.id, In)) in m && Value(op, input) == m[ReadKey(d, InEdge(d, n.id, In))]
    ensures ServedRef(n, port) in m && Value(op, Wrap(n, port, input, rules).value) == m[ServedRef(n, port)]
  {
    OneInput(d, n);
    assert Inputs(d, n, m) == map[In := Value(op, input)];
    assert Served(n.kind, port) in OutPorts(n.kind);
  }

  lemma BinaryMeans<V(!new)>(d: Document, op: Operators<V>, m: Frames<V>, n: Node, left: Query, right: Query)
    requires d.Closed() && n in d.nodes && Equation(d, op, m, n) && n.kind.Combine?
    requires Connected(d, n.id, Left) && Connected(d, n.id, Right)
    requires ReadKey(d, InEdge(d, n.id, Left)) in m && Value(op, left) == m[ReadKey(d, InEdge(d, n.id, Left))]
    requires ReadKey(d, InEdge(d, n.id, Right)) in m && Value(op, right) == m[ReadKey(d, InEdge(d, n.id, Right))]
    ensures PortRef(n.id, Out) in m && Value(op, Binary(n.kind, n.config, left, right)) == m[PortRef(n.id, Out)]
  {
    assert Inputs(d, n, m) == map[Left := Value(op, left), Right := Value(op, right)];
  }

  /** A query the backend accepts denotes what the graph says the node's output is. */
  lemma {:induction false} ExpressionMeans<V(!new)>(d: Document, op: Operators<V>, m: Frames<V>, index: map<string, Node>,
                                                    id: string, active: set<string>, port: Port, rules: SqlRules)
    requires d.UniqueIds() && WellFormed(d) && d.Closed() && IsMeaning(d, op, m)
    requires index == NodeMap(d.nodes) && index.Keys == d.Ids() && id in d.Ids()
    requires Expression(d, index, id, active, port, rules).Success?
    ensures var ref := ServedRef(d.At(id), port);
            ref in m && Value(op, Expression(d, index, id, active, port, rules).value) == m[ref]
    decreases index.Keys - active
  {
    NodeMapIsAt(d);
    var n := d.At(id);
    assert d.Has(id, n) && Equation(d, op, m, n);
    if IsReader(n.kind) {
      ScanMeans(d, op, m, n, rules);
    } else if Joins(n.kind) {
      CombinedMeans(d, op, m, index, n, active, port, rules);
    } else {
      WrapMeans(d, op, m, index, n, active, port, rules);
    }
  }

  lemma ScanMeans<V(!new)>(d: Document, op: Operators<V>, m: Frames<V>, n: Node, rules: SqlRules)
    requires WellFormed(d) && d.Closed() && n in d.nodes && n.id in d.Ids() && d.At(n.id) == n && Equation(d, op, m, n)
    requires IsReader(n.kind) && Scanned(n, rules).Success?
    ensures PortRef(n.id, Out) in m && Value(op, Scanned(n, rules).value) == m[PortRef(n.id, Out)]
  {
    ReaderHasNoInputs(d, n);
    assert Out in OutPorts(n.kind) && Inputs(d, n, m) == map[];
  }

  lemma {:induction false} CombinedMeans<V(!new)>(d: Document, op: Operators<V>, m: Frames<V>, index: map<string, Node>, n: Node,
                                                  active: set<string>, port: Port, rules: SqlRules)
    requires d.UniqueIds() && WellFormed(d) && d.Closed() && IsMeaning(d, op, m)
    requires index == NodeMap(d.nodes) && index.Keys == d.Ids() && n in d.nodes && n.id in d.Ids() && n.id !in active
    requires index[n.id] == n && Joins(n.kind) && Expression(d, index, n.id, active, port, rules).Success?
    ensures ServedRef(n, port) in m && Value(op, Expression(d, index, n.id, active, port, rules).value) == m[ServedRef(n, port)]
    decreases index.Keys - active, 1
  {
    JoinExpression(d, index, n, active, port, rules);
    JoinMeans(d, op, m, index, n, active, rules, Left);
    JoinMeans(d, op, m, index, n, active, rules, Right);
    assert Equation(d, op, m, n);
    BinaryMeans(d, op, m, n, Expression(d, index, InEdge(d, n.id, Left).src.node, active + {n.id}, Left, rules).value,
                Expression(d, index, InEdge(d, n.id, Right).src.node, active + {n.id}, Right, rules).value);
  }

  lemma {:induction false} WrapMeans<V(!new)>(d: Document, op: Operators<V>, m: Frames<V>, index: map<string, Node>, n: Node,
                                              active: set<string>, port: Port, rules: SqlRules)
    requires d.UniqueIds() && WellFormed(d) && d.Closed() && IsMeaning(d, op, m)
    requires index == NodeMap(d.nodes) && index.Keys == d.Ids() && n in d.nodes && n.id in d.Ids() && n.id !in active
    requires index[n.id] == n && !IsReader(n.kind) && !Joins(n.kind)
    requires Expression(d, index, n.id, active, port, rules).Success?
    ensures ServedRef(n, port) in m && Value(op, Expression(d, index, n.id, active, port, rules).value) == m[ServedRef(n, port)]
    decreases index.Keys - active, 0
  {
    UnaryExpression(d, index, n, active, port, rules);
    var e := InEdge(d, n.id, In);
    ServedIsRead(d, e);
    NodeMapIsAt(d);
    assert d.Has(e.src.node, d.At(e.src.node));
    ExpressionMeans(d, op, m, index, e.src.node, active + {n.id}, e.src.port, rules);
    assert Equation(d, op, m, n);
    UnaryMeans(d, op, m, n, port, Expression(d, index, e.src.node, active + {n.id}, e.src.port, rules).value, rules);
  }

  /** A joining node has a query when both its inputs have one. */
  lemma JoinExpression(d: Document, index: map<string, Node>, n: Node, active: set<string>, port: Port, rules: SqlRules)
    requires WellFormed(d) && d.Closed() && index.Keys == d.Ids() && n in d.nodes && n.id in d.Ids() && n.id !in active
    requires index[n.id] == n && Joins(n.kind)
    ensures Connected(d, n.id, Left) && Connected(d, n.id, Right)
    ensures InEdge(d, n.id, Left).src.node in d.Ids() && InEdge(d, n.id, Right).src.node in d.Ids()
    ensures var left := Expression(d, index, InEdge(d, n.id, Left).src.node, active + {n.id}, Left, rules);
            var right := Expression(d, index, InEdge(d, n.id, Right).src.node, active + {n.id}, Right, rules);
            Expression(d, index, n.id, active, port, rules) ==
            if left.Failure? then left else if right.Failure? then right
            else Success(Binary(n.kind, n.config, left.value, right.value))
  {
    RequiredInput(d, n, Left);
    RequiredInput(d, n, Right);
    ParentsAre(d, n.id);
    ParentsExist(d, n.id);
  }

  /** A transforming node that has a query has one input, whose query it wraps. */
  lemma UnaryExpression(d: Document, index: map<string, Node>, n: Node, active: set<string>, port: Port, rules: SqlRules)
    requires d.UniqueIds() && WellFormed(d) && d.Closed() && index.Keys == d.Ids() && n in d.nodes && n.id in d.Ids() && n.id !in active
    requires index[n.id] == n && !IsReader(n.kind) && !Joins(n.kind)
    requires Expression(d, index, n.id, active, port, rules).Success?
    ensures !n.kind.Combine? && |ParentNodes(Incoming(d, n.id))| == 1 && Connected(d, n.id, In)
    ensures var e := InEdge(d, n.id, In);
            && e.src.node in d.Ids()
            && var input := Expression(d, index, e.src.node, active + {n.id}, e.src.port, rules);
               input.Success? && Expression(d, index, n.id, active, port, rules) == Wrap(n, port, input.value, rules)
  {
    ParentsExist(d, n.id);
    NoLoneCombine(d, n);
    OneInput(d, n);
  }

  lemma {:induction false} JoinMeans<V(!new)>(d: Document, op: Operators<V>, m: Frames<V>, index: map<string, Node>, n: Node,
                                              active: set<string>, rules: SqlRules, side: Port)
    requires d.UniqueIds() && WellFormed(d) && d.Closed() && IsMeaning(d, op, m)
    requires index == NodeMap(d.nodes) && index.Keys == d.Ids() && n.id in d.Ids() && n.id !in active
    requires (side == Left || side == Right) && Connected(d, n.id, side)
    requires Expression(d, index, InEdge(d, n.id, side).src.node, active + {n.id}, side, rules).Success?
    ensures var e := InEdge(d, n.id, side);
            ReadKey(d, e) in m && Value(op, Expression(d, index, e.src.node, active + {n.id}, side, rules).value) == m[ReadKey(d, e)]
    decreases index.Keys - active, 0
  {
    var e := InEdge(d, n.id, side);
    JoinedIsNoSplit(d, index, e.src.node, active + {n.id}, side, rules);
    NodeMapIsAt(d);
    assert d.Has(e.src.node, d.At(e.src.node));
    ExpressionMeans(d, op, m, index, e.src.node, active + {n.id}, side, rules);
  }

  // ---- Which nodes have a query ----

  /** The literals of a transforming node print, given the query of its input. */
  ghost predicate InputPrints(d: Document, n: Node, rules: SqlRules)
    requires d.UniqueIds() && d.Closed() && Connected(d, n.id, In)
  {
    var e := InEdge(d, n.id, In);
    var q := QueryAt(d, e.src.node, e.src.port, rules);
    q.Success? ==> rules.own(n.kind, n.config, Some(q.value)).Prints?
  }

  /** A node the backend can express, given queries for its inputs. */
  ghost predicate SqlNode(d: Document, u: string, rules: SqlRules)
    requires d.UniqueIds() && d.Closed()
  {
    u in d.Ids() &&
    var n := d.At(u);
    if IsReader(n.kind) then Reads(n.kind) && rules.own(n.kind, n.config, None).Prints?
    else if Joins(n.kind) then
      forall e :: e in d.edges && e.dst.node == u && e.src.node in d.Ids() ==> !d.KindAt(e.src.node).Split?
    else
      && Transforms(n.kind) && Connected(d, u, In) && InputPrints(d, n, rules)
      && forall p :: Connected(d, u, p) ==> p == In
  }

  /** Everything upstream of id, datasets included, can be expressed. */
  ghost predicate SqlUpstream(d: Document, id: string, rules: SqlRules)
    requires d.UniqueIds() && d.Closed()
  {
    forall u :: u in d.Ids() && Feeds(d.Arcs(), u, id) ==> SqlNode(d, u, rules)
  }

  ghost predicate SqlReady(d: Document, id: string, port: Port, rules: SqlRules)
    requires d.UniqueIds() && d.Closed()
  {
    id in d.Ids() && (d.KindAt(id).Split? ==> port == Accepted || port == Quarantine || port == In || port == Out) && SqlUpstream(d, id, rules)
  }

  lemma UpstreamSplits(d: Document, id: string, rules: SqlRules)
    requires d.UniqueIds() && d.Closed() && id in d.Ids()
    ensures SqlUpstream(d, id, rules) <==>
            && SqlNode(d, id, rules)
            && forall e :: e in d.edges && e.dst.node == id ==> SqlUpstream(d, e.src.node, rules)
  {
    assert Feeds(d.Arcs(), id, id);
    if SqlUpstream(d, id, rules) {
      forall e, u | e in d.edges && e.dst.node == id && u in d.Ids() && Feeds(d.Arcs(), u, e.src.node)
        ensures SqlNode(d, u, rules)
      {
        ArcMembers(d, e.src.node, id);
        ReachesThenStep(d.Arcs(), u, e.src.node, id);
      }
    }
    if SqlNode(d, id, rules) && forall e :: e in d.edges && e.dst.node == id ==> SqlUpstream(d, e.src.node, rules) {
      forall u | u in d.Ids() && Feeds(d.Arcs(), u, id) ensures SqlNode(d, u, rules) {
        if u != id {
          var _, last := ReachesEnds(d.Arcs(), u, id);
          ArcMembers(d, last, id);
          var e :| e in d.edges && e.src.node == last && e.dst.node == id;
          assert SqlUpstream(d, e.src.node, rules);
        }
      }
    }
  }

  lemma ReaderReady(d: Document, n: Node, rules: SqlRules)
    requires d.UniqueIds() && WellFormed(d) && d.Closed() && n.id in d.Ids() && d.At(n.id) == n && IsReader(n.kind)
    ensures SqlUpstream(d, n.id, rules) <==> Reads(n.kind) && rules.own(n.kind, n.config, None).Prints?
  {
    UpstreamSplits(d, n.id, rules);
    forall e | e in d.edges ensures e.dst.node != n.id { EdgePorts(d, e); }
  }

  lemma JoinReady(d: Document, n: Node, rules: SqlRules)
    requires d.UniqueIds() && WellFormed(d) && d.Closed() && n in d.nodes && n.id in d.Ids() && d.At(n.id) == n && Joins(n.kind)
    ensures Connected(d, n.id, Left) && Connected(d, n.id, Right)
    ensures SqlUpstream(d, n.id, rules) <==>
            SqlReady(d, InEdge(d, n.id, Left).src.node, Left, rules) && SqlReady(d, InEdge(d, n.id, Right).src.node, Right, rules)
  {
    JoinEdges(d, n);
    UpstreamSplits(d, n.id, rules);
    var l, r := InEdge(d, n.id, Left), InEdge(d, n.id, Right);
    assert SqlNode(d, n.id, rules) <==> !d.KindAt(l.src.node).Split? && !d.KindAt(r.src.node).Split?;
  }

  lemma JoinEdges(d: Document, n: Node)
    requires d.UniqueIds() && WellFormed(d) && d.Closed() && n in d.nodes && n.id in d.Ids() && d.At(n.id) == n && Joins(n.kind)
    ensures Connected(d, n.id, Left) && Connected(d, n.id, Right)
    ensures forall e :: e in d.edges && e.dst.node == n.id <==> e == InEdge(d, n.id, Left) || e == InEdge(d, n.id, Right)
  {
    RequiredInput(d, n, Left);
    RequiredInput(d, n, Right);
    forall e | e in d.edges && e.dst.node == n.id ensures e == InEdge(d, n.id, Left) || e == InEdge(d, n.id, Right) {
      EdgePorts(d, e);
      InEdgeIs(d, e);
    }
  }

  lemma JoinConnected(d: Document, n: Node)
    requires d.UniqueIds() && WellFormed(d) && d.Closed() && n in d.nodes && n.id in d.Ids() && d.At(n.id) == n && Joins(n.kind)
    ensures Connected(d, n.id, Left) && Connected(d, n.id, Right)
  {
    JoinEdges(d, n);
  }

  lemma LoneInput(d: Document, n: Node)
    requires d.UniqueIds() && WellFormed(d) && d.Closed() && n in d.nodes && n.id in d.Ids()
    requires !IsReader(n.kind) && !n.kind.Combine? && Connected(d, n.id, In)
    ensures |ParentNodes(Incoming(d, n.id))| == 1 <==> forall p :: Connected(d, n.id, p) ==> p == In
    ensures |ParentNodes(Incoming(d, n.id))| == 1 ==> forall e :: e in d.edges && e.dst.node == n.id ==> e == InEdge(d, n.id, In)
  {
    ParentsAre(d, n.id);
    var parents := ParentNodes(Incoming(d, n.id));
    assert |parents| == |parents.Keys|;
    if forall p :: Connected(d, n.id, p) ==> p == In { assert parents.Keys == {In}; }
    if |parents| == 1 {
      OneInput(d, n);
      forall e | e in d.edges && e.dst.node == n.id ensures e == InEdge(d, n.id, In) { InEdgeIs(d, e); }
    }
  }

  lemma UnaryReady(d: Document, n: Node, rules: SqlRules)
    requires d.UniqueIds() && WellFormed(d) && d.Closed() && n in d.nodes && n.id in d.Ids() && d.At(n.id) == n
    requires !IsReader(n.kind) && !Joins(n.kind)
    ensures SqlUpstream(d, n.id, rules) <==>
            && Transforms(n.kind) && |ParentNodes(Incoming(d, n.id))| == 1
            && Connected(d, n.id, In) && InputPrints(d, n, rules)
            && SqlReady(d, InEdge(d, n.id, In).src.node, InEdge(d, n.id, In).src.port, rules)
  {
    UpstreamSplits(d, n.id, rules);
    if Transforms(n.kind) && Connected(d, n.id, In) {
      LoneInput(d, n);
      EdgePorts(d, InEdge(d, n.id, In));
    }
  }

  /** What is known of the query for the source of an edge. */
  ghost predicate Settled(d: Document, index: map<string, Node>, e: Edge, active: set<string>, port: Port, rules: SqlRules)
    requires d.UniqueIds() && d.Closed() && index.Keys == d.Ids() && e in d.edges
  {
    && Expression(d, index, e.src.node, active, port, rules) == QueryAt(d, e.src.node, port, rules)
    && (Expression(d, index, e.src.node, active, port, rules).Success? <==> SqlReady(d, e.src.node, port, rules))
  }

  lemma JoinAccepts(d: Document, index: map<string, Node>, n: Node, active: set<string>, port: Port, rules: SqlRules)
    requires d.UniqueIds() && WellFormed(d) && d.Closed() && index.Keys == d.Ids() && n in d.nodes && n.id in d.Ids()
    requires d.At(n.id) == n && index[n.id] == n && Joins(n.kind) && n.id !in active
    requires Connected(d, n.id, Left) && Settled(d, index, InEdge(d, n.id, Left), active + {n.id}, Left, rules)
    requires Connected(d, n.id, Right) && Settled(d, index, InEdge(d, n.id, Right), active + {n.id}, Right, rules)
    ensures Expression(d, index, n.id, active, port, rules).Success? <==> SqlUpstream(d, n.id, rules)
  {
    JoinReady(d, n, rules);
    JoinExpression(d, index, n, active, port, rules);
  }

  lemma UnaryAccepts(d: Document, index: map<string, Node>, n: Node, active: set<string>, port: Port, rules: SqlRules)
    requires d.UniqueIds() && WellFormed(d) && d.Closed() && index.Keys == d.Ids() && n in d.nodes && n.id in d.Ids()
    requires d.At(n.id) == n && index[n.id] == n && !IsReader(n.kind) && !Joins(n.kind) && n.id !in active
    requires |ParentNodes(Incoming(d, n.id))| == 1 && !n.kind.Combine? ==>
               && Connected(d, n.id, In) && Incoming(d, n.id) != [] && Incoming(d, n.id)[0] == InEdge(d, n.id, In)
               && Settled(d, index, InEdge(d, n.id, In), active + {n.id}, InEdge(d, n.id, In).src.port, rules)
    ensures Expression(d, index, n.id, active, port, rules).Success? <==> SqlReady(d, n.id, port, rules)
  {
    UnaryReady(d, n, rules);
    if |ParentNodes(Incoming(d, n.id))| == 1 && Connected(d, n.id, In) {
      var e := InEdge(d, n.id, In);
      var input := Expression(d, index, e.src.node, active + {n.id}, e.src.port, rules);
      if input.Success? { WrapAccepts(n, port, input.value, rules); }
    }
  }

  /** A split serves its own two ports, and answers a consumer that names none with the accepted rows. */
  lemma WrapAccepts(n: Node, port: Port, input: Query, rules: SqlRules)
    ensures Wrap(n, port, input, rules).Success? <==>
            && Transforms(n.kind) && (n.kind.Split? ==> port == Accepted || port == Quarantine || port == In || port == Out)
            && rules.own(n.kind, n.config, Some(input)).Prints?
  {
  }

  /** On a well-formed document a node has a query exactly when everything upstream of it is supported and
      prints, and no split is read by a join. */
  lemma {:induction false} AcceptsExactly(d: Document, index: map<string, Node>, id: string, active: set<string>, port: Port,
                                          rules: SqlRules)
    requires d.UniqueIds() && WellFormed(d) && d.Closed() && index == NodeMap(d.nodes) && index.Keys == d.Ids()
    requires id in d.Ids() && Below(d, id, active)
    ensures Expression(d, index, id, active, port, rules).Success? <==> SqlReady(d, id, port, rules)
    decreases index.Keys - active
  {
    NodeMapIsAt(d);
    var n := d.At(id);
    assert d.Has(id, n) && !OnCycle(d.Arcs(), id) && id !in active;
    if IsReader(n.kind) {
      ReaderReady(d, n, rules);
    } else if Joins(n.kind) {
      JoinDecides(d, index, n, active, port, rules);
    } else {
      UnaryDecides(d, index, n, active, port, rules);
    }
  }

  lemma {:induction false} JoinDecides(d: Document, index: map<string, Node>, n: Node, active: set<string>, port: Port, rules: SqlRules)
    requires d.UniqueIds() && WellFormed(d) && d.Closed() && index == NodeMap(d.nodes) && index.Keys == d.Ids()
    requires n in d.nodes && n.id in d.Ids() && d.At(n.id) == n && index[n.id] == n && Joins(n.kind)
    requires n.id !in active && Below(d, n.id, active)
    ensures Expression(d, index, n.id, active, port, rules).Success? <==> SqlUpstream(d, n.id, rules)
    decreases index.Keys - active, 1
  {
    JoinConnected(d, n);
    ParentAccepts(d, index, n.id, active, InEdge(d, n.id, Left), Left, rules);
    ParentAccepts(d, index, n.id, active, InEdge(d, n.id, Right), Right, rules);
    JoinAccepts(d, index, n, active, port, rules);
  }

  lemma {:induction false} UnaryDecides(d: Document, index: map<string, Node>, n: Node, active: set<string>, port: Port, rules: SqlRules)
    requires d.UniqueIds() && WellFormed(d) && d.Closed() && index == NodeMap(d.nodes) && index.Keys == d.Ids()
    requires n in d.nodes && n.id in d.Ids() && d.At(n.id) == n && index[n.id] == n && !IsReader(n.kind) && !Joins(n.kind)
    requires n.id !in active && Below(d, n.id, active)
    ensures Expression(d, index, n.id, active, port, rules).Success? <==> SqlReady(d, n.id, port, rules)
    decreases index.Keys - active, 1
  {
    if |ParentNodes(Incoming(d, n.id))| == 1 && !n.kind.Combine? {
      OneInput(d, n);
      ParentAccepts(d, index, n.id, active, InEdge(d, n.id, In), InEdge(d, n.id, In).src.port, rules);
    }
    UnaryAccepts(d, index, n, active, port, rules);
  }

  lemma {:induction false} ParentAccepts(d: Document, index: map<string, Node>, id: string, active: set<string>, e: Edge, port: Port,
                                         rules: SqlRules)
    requires d.UniqueIds() && WellFormed(d) && d.Closed() && index == NodeMap(d.nodes) && index.Keys == d.Ids()
    requires id in d.Ids() && id !in active && Below(d, id, active) && e in d.edges && e.dst.node == id
    ensures Settled(d, index, e, active + {id}, port, rules)
    decreases index.Keys - active, 0
  {
    ArcMembers(d, e.src.node, id);
    BelowParent(d, e.src.node, id, active);
    AcceptsExactly(d, index, e.src.node, active + {id}, port, rules);
    PathIgnored(d, index, e.src.node, active + {id}, {}, port, rules);
  }
}
