/** The operator catalog (python/sdpstudio_core/operators.py) and the structural checks of
    `validate_graph` (python/sdpstudio_core/graph.py). */
module Validation {
  import opened Sorting
  import opened Digraph
  import opened Documents
  import opened Graph

  function UnaryRequired(op: string): Option<seq<string>> {
    match op
    case "filter" => Some(["expression"])
    case "select" => Some(["columns"])
    case "derive" => Some(["name", "expression"])
    case "sql_project" => Some(["query"])
    case "pyspark_block" => Some(["code"])
    case "drop" => Some(["columns"])
    case "rename" => Some(["mapping"])
    case "cast" => Some(["column", "dataType"])
    case "fill_nulls" => Some(["values"])
    case "drop_nulls" => Some([])
    case "drop_duplicates" => Some([])
    case "deduplicate_event_time" => Some(["columns", "eventTime"])
    case "sort" => Some(["expressions"])
    case "limit" => Some(["count"])
    case "explode" => Some(["column", "target"])
    case "posexplode" => Some(["column", "target"])
    case "repartition" => Some(["partitions"])
    case "coalesce" => Some(["partitions"])
    case "aggregate" => Some([])
    case "distinct" => Some([])
    case "reorder" => Some(["columns"])
    case "replace" => Some(["column", "mapping"])
    case "flatten_struct" => Some(["column"])
    case "build_struct" => Some(["target", "fields"])
    case "build_map" => Some(["target", "keys", "values"])
    case "build_array" => Some(["target", "expressions"])
    case "watermark" => Some(["column", "delay"])
    case "json_parse" => Some(["column", "schema", "target"])
    case "window" => Some(["target", "expression"])
    case _ => None
  }

  function SourceRequired(op: string): Option<seq<string>> {
    match op
    case "table" => Some(["table"])
    case "file" => Some(["path"])
    case "jdbc" => Some(["url", "dbtable"])
    case "kafka" => Some(["bootstrapServers", "subscribe"])
    case "sql_query" => Some(["query"])
    case "dataset_reference" => Some(["name"])
    case "generic" => Some(["format"])
    case "custom_pyspark" => Some(["code"])
    case _ => None
  }

  function QualityRequired(op: string): Option<seq<string>> {
    match op
    case "column_rule" => Some(["column", "condition"])
    case "null_rate" => Some(["column", "maxRate"])
    case "uniqueness" => Some(["columns"])
    case "schema_contract" => Some(["schema"])
    case "profile_probe" => Some([])
    case "row_count_range" => Some([])
    case "referential_sample" => Some(["columns"])
    case _ => None
  }

  function DatasetRequired(op: string): Option<seq<string>> {
    match op
    case "materialized_view" => Some(["name"])
    case "streaming_table" => Some(["name"])
    case "temporary_view" => Some(["name"])
    case "auto_cdc_scd1" => Some(["name", "keys", "sequence_by"])
    case _ => None
  }

  /** The required configuration fields of a catalog operator; None for a type it does not list. */
  function Required(kind: Kind): Option<seq<string>> {
    match kind
    case Source(op) => SourceRequired(op)
    case ComponentInput => Some(["name"])
    case Transform(op) => UnaryRequired(op)
    case Combine(op) => if op in {"join", "union_by_name", "intersect", "except"} then Some([]) else None
    case Quality(op) => QualityRequired(op)
    case Split => Some(["condition", "quarantineName"])
    case Utility(op) =>
      (match op
       case "parameter" => Some(["name"])
       case "constant" => Some(["name", "value"])
       case "note" => Some([])
       case "group" => Some(["name"])
       case "component_output" => Some(["name"])
       case "custom_code" => Some(["code"])
       case _ => None)
    case Dataset(op) => DatasetRequired(op)
    case Sink(op) => if op == "external" then Some(["name", "format"]) else None
    case Unknown(_) => None
  }

  /** The input ports of a listed operator. */
  function InputPorts(kind: Kind): set<Port> {
    match kind
    case Source(_) | ComponentInput | Unknown(_) => {}
    case Combine(_) => {Left, Right}
    case Quality(op) => if op == "referential_sample" then {In, Reference} else {In}
    case Utility(op) => if op in {"parameter", "constant", "note"} then {} else {In}
    case _ => {In}
  }

  /** The output ports of a listed operator. */
  function OutputPorts(kind: Kind): set<Port> {
    match kind
    case Split => {Accepted, Quarantine}
    case Sink(_) | Unknown(_) => {}
    case Utility(op) => if op in {"note", "component_output"} then {} else {Out}
    case _ => {Out}
  }

  predicate AcceptsBatch(kind: Kind) {
    kind != Source("kafka") && kind != Dataset("auto_cdc_scd1") && !kind.Sink?
  }

  predicate AcceptsStreaming(kind: Kind) { kind != Source("jdbc") && kind != Source("sql_query") }

  /** The only optional input of the catalog is "reference". */
  predicate Optional(port: Port) { port == Reference }

  predicate Truthy(j: Json) {
    match j
    case Null => false
    case Bool(b) => b
    case Int(n) => n != 0
    case Float(x) => x != 0.0
    case Str(s) => s != ""
    case List(items) => items != []
    case Dict(fields) => fields != map[]
  }

  predicate Flag(config: Config, key: string) { key in config && Truthy(config[key]) }

  /** `name not in config or config[name] in (None, "")`, negated. */
  predicate HasField(config: Config, key: string) {
    key in config && config[key] != Null && config[key] != Str("")
  }

  predicate StreamingOrigin(n: Node) {
    Flag(n.config, "streaming") || n.kind == Source("kafka") || n.kind == Dataset("streaming_table")
  }

  const SECRET_MARKERS := ["password", "token", "secret", "api_key", "apikey", "access_key", "private_key"]

  predicate Contains(text: string, part: string) { part <= text || (text != "" && Contains(text[1..], part)) }

  predicate SecretKey(key: string) {
    exists i :: 0 <= i < |SECRET_MARKERS| && Contains(LowerAll(key), SECRET_MARKERS[i])
  }

  /** A text under a key that names a secret, unless it is empty or a reference. */
  predicate SecretLiteral(key: string, value: Json) {
    SecretKey(key) && value.Str? && value.s != "" && !("secret://" <= value.s)
  }

  /** `_secret_literal_problems` reports something at or below a value. */
  predicate HoldsSecret(value: Json) {
    match value
    case Dict(fields) => exists k | k in fields :: SecretLiteral(k, fields[k]) || HoldsSecret(fields[k])
    case List(items) => exists i :: 0 <= i < |items| && HoldsSecret(items[i])
    case _ => false
  }

  /** A secret literal in a configuration. */
  predicate Leaks(config: Config) { HoldsSecret(Dict(config)) }

  // ---- Where a secret is ----

  datatype PathStep = Field(key: string) | Item(i: nat)

  /** The value at the end of a path into a JSON value. */
  function ValueAt(value: Json, path: seq<PathStep>): Option<Json> {
    if path == [] then Some(value)
    else
      match path[0]
      case Field(k) => if value.Dict? && k in value.fields then ValueAt(value.fields[k], path[1..]) else None
      case Item(i) => if value.List? && i < |value.items| then ValueAt(value.items[i], path[1..]) else None
  }

  /** Some path leads to an object that holds a secret literal under one of its keys. */
  ghost predicate SecretSomewhere(value: Json) { exists path :: SecretAt(value, path) }

  ghost predicate SecretAt(value: Json, path: seq<PathStep>) {
    ValueAt(value, path).Some? && ValueAt(value, path).value.Dict?
    && exists k :: k in ValueAt(value, path).value.fields && SecretLiteral(k, ValueAt(value, path).value.fields[k])
  }

  lemma SecretBelow(value: Json, child: Json, key: PathStep, path: seq<PathStep>)
    requires ValueAt(value, [key]) == Some(child)
    ensures SecretAt(value, [key] + path) <==> SecretAt(child, path)
  {
    assert ([key] + path)[1..] == path && [key][1..] == [];
    assert ValueAt(value, [key] + path) == ValueAt(child, path);
  }

  /** The walk reports something exactly when a secret literal is somewhere in the value, at any depth. */
  lemma {:induction false} SecretsAreFound(value: Json)
    ensures HoldsSecret(value) <==> SecretSomewhere(value)
    decreases value
  {
    if HoldsSecret(value) { SecretIsSomewhere(value); }
    if path :| SecretAt(value, path) { SecretIsFound(value, path); }
  }

  lemma {:induction false} SecretIsSomewhere(value: Json)
    requires HoldsSecret(value)
    ensures SecretSomewhere(value)
    decreases value
  {
    match value
    case Dict(fields) =>
      var k :| k in fields && (SecretLiteral(k, fields[k]) || HoldsSecret(fields[k]));
      if SecretLiteral(k, fields[k]) {
        assert ValueAt(value, []) == Some(value);
        assert SecretAt(value, []);
      } else {
        SecretIsSomewhere(fields[k]);
        var path :| SecretAt(fields[k], path);
        assert [Field(k)][1..] == [];
        SecretBelow(value, fields[k], Field(k), path);
      }
    case List(items) =>
      var i :| 0 <= i < |items| && HoldsSecret(items[i]);
      SecretIsSomewhere(items[i]);
      var path :| SecretAt(items[i], path);
      assert [Item(i)][1..] == [];
      SecretBelow(value, items[i], Item(i), path);
    case _ =>
  }

  lemma {:induction false} SecretIsFound(value: Json, path: seq<PathStep>)
    requires SecretAt(value, path)
    ensures HoldsSecret(value)
    decreases |path|
  {
    if path != [] {
      assert path == [path[0]] + path[1..];
      assert [path[0]][1..] == [];
      match path[0]
      case Field(k) =>
        SecretBelow(value, value.fields[k], path[0], path[1..]);
        SecretIsFound(value.fields[k], path[1..]);
      case Item(i) =>
        SecretBelow(value, value.items[i], path[0], path[1..]);
        SecretIsFound(value.items[i], path[1..]);
    }
  }

  datatype Problem =
    | SecretInConfig(node: string)
    | UnknownOperator(node: string)
    | MissingField(node: string, field: string)
    | InvalidEdge(edge: string)
    | ModeIncompatible(node: string)
    | UnknownOutputPort(node: string)
    | UnknownInputPort(node: string)
    | MissingInput(node: string, port: Port)
    | MultipleConnections(node: string, port: Port)
    | CycleDetected

  ghost predicate NodeOk(n: Node) {
    && !Leaks(n.config)
    && Required(n.kind).Some?
    && HasFields(n.config, Required(n.kind).value)
  }

  predicate HasFields(config: Config, required: seq<string>) { forall f :: f in required ==> HasField(config, f) }

  ghost predicate EdgeOk(d: Document, e: Edge) {
    && e.src.node in d.Ids() && e.dst.node in d.Ids()
    && ModeOk(d.At(e.src.node), d.At(e.dst.node))
    && e.src.port in OutputPorts(d.KindAt(e.src.node))
    && e.dst.port in InputPorts(d.KindAt(e.dst.node))
  }

  predicate ModeOk(src: Node, dst: Node) {
    if StreamingOrigin(src) then AcceptsStreaming(dst.kind) else AcceptsBatch(dst.kind)
  }

  function AtPort(port: Port): Edge -> bool { (e: Edge) => e.dst.port == port }

  function PortEdges(d: Document, id: string, port: Port): seq<Edge> {
    Filter(AtPort(port), Incoming(d, id))
  }

  ghost predicate PortConnected(d: Document, n: Node, port: Port) {
    var count := |PortEdges(d, n.id, port)|;
    count <= 1 && (count == 0 ==> Optional(port))
  }

  ghost predicate InputsOk(d: Document, n: Node) {
    forall p :: p in InputPorts(n.kind) ==> PortConnected(d, n, p)
  }

  /** What the absence of error-severity problems means for the structure of a document. */
  ghost predicate WellFormed(d: Document) {
    && (forall n {:trigger NodeOk(n)} :: n in d.nodes ==> NodeOk(n))
    && (forall e {:trigger EdgeOk(d, e)} :: e in d.edges ==> EdgeOk(d, e))
    && (forall n {:trigger InputsOk(d, n)} :: n in d.nodes ==> InputsOk(d, n))
    && Acyclic(d.Arcs())
  }

  function NodeMap(nodes: seq<Node>): map<string, Node> {
    if nodes == [] then map[]
    else NodeMap(nodes[..|nodes| - 1])[nodes[|nodes| - 1].id := nodes[|nodes| - 1]]
  }

  lemma {:induction false} NodeMapMembers(nodes: seq<Node>)
    requires forall i, j :: 0 <= i < j < |nodes| ==> nodes[i].id != nodes[j].id
    ensures forall n :: n in nodes ==> n.id in NodeMap(nodes) && NodeMap(nodes)[n.id] == n
    ensures NodeMap(nodes).Keys == set n | n in nodes :: n.id
  {
    if nodes != [] {
      NodeMapMembers(nodes[..|nodes| - 1]);
      assert nodes == nodes[..|nodes| - 1] + [nodes[|nodes| - 1]];
    }
  }

  lemma NodeMapIsAt(d: Document)
    requires d.UniqueIds()
    ensures NodeMap(d.nodes).Keys == d.Ids()
    ensures forall id :: id in d.Ids() ==> NodeMap(d.nodes)[id] == d.At(id)
  {
    NodeMapMembers(d.nodes);
    forall id | id in d.Ids() ensures NodeMap(d.nodes)[id] == d.At(id) {
      assert d.Has(id, d.At(id));
    }
  }

  // ---- Which problems are reported ----

  /** What is wrong with a node by itself. */
  ghost predicate NodeFault(n: Node, p: Problem) {
    match p
    case SecretInConfig(id) => id == n.id && Leaks(n.config)
    case UnknownOperator(id) => id == n.id && Required(n.kind).None?
    case MissingField(id, field) => id == n.id && Required(n.kind).Some? && field in Required(n.kind).value && !HasField(n.config, field)
    case _ => false
  }

  /** What is wrong with an edge; an operator the catalog does not list has no mode restriction and no ports. */
  ghost predicate EdgeFault(d: Document, e: Edge, p: Problem) {
    if e.src.node !in d.Ids() || e.dst.node !in d.Ids() then p == InvalidEdge(e.id)
    else
      var src, dst := d.At(e.src.node), d.At(e.dst.node);
      match p
      case ModeIncompatible(id) => id == dst.id && Required(dst.kind).Some? && !ModeOk(src, dst)
      case UnknownOutputPort(id) => id == src.id && (Required(src.kind).None? || e.src.port !in OutputPorts(src.kind))
      case UnknownInputPort(id) => id == dst.id && (Required(dst.kind).None? || e.dst.port !in InputPorts(dst.kind))
      case _ => false
  }

  /** What is wrong with the inputs of a node. */
  ghost predicate InputFault(d: Document, n: Node, p: Problem) {
    match p
    case MissingInput(id, port) =>
      id == n.id && Required(n.kind).Some? && port in InputPorts(n.kind) && port != Reference && |PortEdges(d, n.id, port)| == 0
    case MultipleConnections(id, port) =>
      id == n.id && Required(n.kind).Some? && port in InputPorts(n.kind) && |PortEdges(d, n.id, port)| > 1
    case _ => false
  }

  ghost predicate NodesFault(nodes: seq<Node>, p: Problem) { exists n :: n in nodes && NodeFault(n, p) }

  ghost predicate EdgesFault(d: Document, es: seq<Edge>, p: Problem) { exists e :: e in es && EdgeFault(d, e, p) }

  ghost predicate InputsFault(d: Document, nodes: seq<Node>, p: Problem) { exists n :: n in nodes && InputFault(d, n, p) }

  /** The problems of a document. */
  ghost predicate Faulty(d: Document, p: Problem) {
    if p.CycleDetected? then !Acyclic(d.Arcs()) else NodesFault(d.nodes, p) || EdgesFault(d, d.edges, p) || InputsFault(d, d.nodes, p)
  }

  method FieldProblems(n: Node) returns (problems: seq<Problem>)
    ensures problems == [] <==> NodeOk(n)
    ensures forall p :: p in problems <==> NodeFault(n, p)
  {
    problems := if Leaks(n.config) then [SecretInConfig(n.id)] else [];
    if Required(n.kind).None? {
      return problems + [UnknownOperator(n.id)];
    }
    var required := Required(n.kind).value;
    for i := 0 to |required|
      invariant problems == [] <==> !Leaks(n.config) && HasFields(n.config, required[..i])
      invariant forall p :: p in problems <==>
                  NodeFault(n, p) && (p.MissingField? ==> p.field in required[..i])
    {
      TakeGrows(required, i);
      if !HasField(n.config, required[i]) {
        problems := problems + [MissingField(n.id, required[i])];
      }
    }
    assert required[..|required|] == required;
  }

  ghost predicate EdgeClean(d: Document, e: Edge) {
    && EdgeOk(d, e)
    && e.src.node in d.Ids() && Required(d.KindAt(e.src.node)).Some?
    && e.dst.node in d.Ids() && Required(d.KindAt(e.dst.node)).Some?
  }

  /** An operator the catalog does not list has no mode restriction and no ports. */
  method EdgeProblems(d: Document, index: map<string, Node>, e: Edge) returns (problems: seq<Problem>)
    requires index.Keys == d.Ids() && forall id :: id in index ==> index[id] == d.At(id)
    ensures problems == [] <==> EdgeClean(d, e)
    ensures forall p :: p in problems <==> EdgeFault(d, e, p)
  {
    if e.src.node !in index || e.dst.node !in index {
      return [InvalidEdge(e.id)];
    }
    var src, dst := index[e.src.node], index[e.dst.node];
    problems := [];
    if Required(dst.kind).Some? && !ModeOk(src, dst) {
      problems := problems + [ModeIncompatible(dst.id)];
    }
    if Required(src.kind).None? || e.src.port !in OutputPorts(src.kind) {
      problems := problems + [UnknownOutputPort(src.id)];
    }
    if Required(dst.kind).None? || e.dst.port !in InputPorts(dst.kind) {
      problems := problems + [UnknownInputPort(dst.id)];
    }
  }

  method PortProblem(d: Document, n: Node, port: Port) returns (problems: seq<Problem>)
    ensures problems == [] <==> PortConnected(d, n, port)
    ensures forall p :: p in problems <==>
              || (p == MissingInput(n.id, port) && port != Reference && |PortEdges(d, n.id, port)| == 0)
              || (p == MultipleConnections(n.id, port) && |PortEdges(d, n.id, port)| > 1)
  {
    var count := |PortEdges(d, n.id, port)|;
    if count == 0 {
      problems := if Optional(port) then [] else [MissingInput(n.id, port)];
    } else {
      problems := if count > 1 then [MultipleConnections(n.id, port)] else [];
    }
  }

  function PortOf(p: Problem): Port {
    match p
    case MissingInput(_, port) => port
    case MultipleConnections(_, port) => port
    case _ => In
  }

  method InputProblems(d: Document, n: Node) returns (problems: seq<Problem>)
    ensures problems == [] <==> Required(n.kind).None? || InputsOk(d, n)
    ensures forall p :: p in problems <==> InputFault(d, n, p)
  {
    problems := [];
    if Required(n.kind).None? { return; }
    var ports := [In, Left, Right, Reference];
    for i := 0 to |ports|
      invariant problems == [] <==> forall k :: 0 <= k < i && ports[k] in InputPorts(n.kind) ==> PortConnected(d, n, ports[k])
      invariant forall p :: p in problems <==> InputFault(d, n, p) && PortOf(p) in ports[..i]
    {
      TakeGrows(ports, i);
      if ports[i] in InputPorts(n.kind) {
        var more := PortProblem(d, n, ports[i]);
        problems := problems + more;
      }
    }
    forall p | p in InputPorts(n.kind) ensures exists k :: 0 <= k < |ports| && ports[k] == p {
      assert ports[0] == In && ports[1] == Left && ports[2] == Right && ports[3] == Reference;
    }
  }

  method AllFieldProblems(d: Document) returns (problems: seq<Problem>)
    ensures problems == [] <==> forall n {:trigger NodeOk(n)} :: n in d.nodes ==> NodeOk(n)
    ensures forall p :: p in problems <==> NodesFault(d.nodes, p)
  {
    problems := [];
    for i := 0 to |d.nodes|
      invariant problems == [] <==> forall n {:trigger NodeOk(n)} :: n in d.nodes[..i] ==> NodeOk(n)
      invariant forall p :: p in problems <==> NodesFault(d.nodes[..i], p)
    {
      var more := FieldProblems(d.nodes[i]);
      assert d.nodes[..i + 1] == d.nodes[..i] + [d.nodes[i]];
      problems := problems + more;
    }
    assert d.nodes[..|d.nodes|] == d.nodes;
  }

  method AllEdgeProblems(d: Document) returns (problems: seq<Problem>)
    requires d.UniqueIds()
    ensures problems == [] <==> forall e :: e in d.edges ==> EdgeClean(d, e)
    ensures forall p :: p in problems <==> EdgesFault(d, d.edges, p)
  {
    var index := NodeMap(d.nodes);
    NodeMapIsAt(d);
    problems := [];
    for i := 0 to |d.edges|
      invariant problems == [] <==> forall e :: e in d.edges[..i] ==> EdgeClean(d, e)
      invariant forall p :: p in problems <==> EdgesFault(d, d.edges[..i], p)
    {
      var more := EdgeProblems(d, index, d.edges[i]);
      assert d.edges[..i + 1] == d.edges[..i] + [d.edges[i]];
      problems := problems + more;
    }
    assert d.edges[..|d.edges|] == d.edges;
  }

  method AllInputProblems(d: Document) returns (problems: seq<Problem>)
    ensures problems == [] <==> forall n {:trigger InputsOk(d, n)} :: n in d.nodes ==> Required(n.kind).None? || InputsOk(d, n)
    ensures forall p :: p in problems <==> InputsFault(d, d.nodes, p)
  {
    problems := [];
    for i := 0 to |d.nodes|
      invariant problems == [] <==> forall n {:trigger InputsOk(d, n)} :: n in d.nodes[..i] ==> Required(n.kind).None? || InputsOk(d, n)
      invariant forall p :: p in problems <==> InputsFault(d, d.nodes[..i], p)
    {
      var more := InputProblems(d, d.nodes[i]);
      assert d.nodes[..i + 1] == d.nodes[..i] + [d.nodes[i]];
      problems := problems + more;
    }
    assert d.nodes[..|d.nodes|] == d.nodes;
  }

  lemma AllFound(d: Document, fields: seq<Problem>, edges: seq<Problem>, inputs: seq<Problem>, cycle: seq<Problem>, p: Problem)
    requires forall p :: p in fields <==> NodesFault(d.nodes, p)
    requires forall p :: p in edges <==> EdgesFault(d, d.edges, p)
    requires forall p :: p in inputs <==> InputsFault(d, d.nodes, p)
    requires cycle == if Acyclic(d.Arcs()) then [] else [CycleDetected]
    ensures p in fields + edges + inputs + cycle <==> Faulty(d, p)
  {
    assert p in fields + edges + inputs + cycle <==> p in fields || p in edges || p in inputs || p in cycle;
    if p.CycleDetected? {
      assert !NodesFault(d.nodes, p) && !EdgesFault(d, d.edges, p) && !InputsFault(d, d.nodes, p);
    }
  }

  /** Without problems of nodes the edge checks are those of well-formedness. */
  lemma CleanNodes(d: Document)
    requires forall n {:trigger NodeOk(n)} :: n in d.nodes ==> NodeOk(n)
    ensures forall e :: e in d.edges && EdgeOk(d, e) ==> EdgeClean(d, e)
    ensures forall n :: n in d.nodes ==> Required(n.kind).Some?
  {
    forall e | e in d.edges && EdgeOk(d, e) ensures EdgeClean(d, e) {
      assert d.Has(e.src.node, d.At(e.src.node)) && d.Has(e.dst.node, d.At(e.dst.node));
      assert NodeOk(d.At(e.src.node)) && NodeOk(d.At(e.dst.node));
    }
    forall n | n in d.nodes ensures Required(n.kind).Some? { assert NodeOk(n); }
  }

  /** `validate_graph`: the error-severity problems, or the KeyError that escapes from the ordering
      when an edge leads from an ordered node to a node that does not exist. */
  method ValidateGraph(d: Document) returns (r: Result<seq<Problem>, string>)
    requires d.UniqueIds()
    ensures r.Success? ==> (r.value == [] <==> WellFormed(d))
    ensures r.Success? ==> forall p :: p in r.value <==> Faulty(d, p)
    ensures r.Failure? <==> exists e :: e in d.edges && e.src.node in Order(d) && e.dst.node !in d.Ids()
  {
    var fields := AllFieldProblems(d);
    var edges := AllEdgeProblems(d);
    var inputs := AllInputProblems(d);
    if fields == [] { CleanNodes(d); }
    var order := TopologicalOrder(d);
    if order.Failure? {
      return Failure(order.error);
    }
    ShortOrderMeansCycle(d);
    var cycle := if |order.value| != |d.nodes| then [CycleDetected] else [];
    r := Success(fields + edges + inputs + cycle);
    forall p ensures p in r.value <==> Faulty(d, p) { AllFound(d, fields, edges, inputs, cycle, p); }
  }
}
