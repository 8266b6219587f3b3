/** `generate_python_project` (python/sdpstudio_codegen/python_backend.py): one definition per declared
    dataset or sink, each rebuilding its inputs up to the nearest datasets. */
module PythonBackend {
  import opened Sorting
  import opened Digraph
  import opened Documents
  import opened Graph
  import opened Validation
  import opened Meaning
  import opened Scopes
  import opened PythonNames
  import opened PythonProgram

  /** marked: ownership markers are printed (a project root is given, or hooks are on). */
  datatype Style = Style(marked: bool, hooks: bool)

  /** A printed expression; a ValueError, reported as a problem; or an exception that escapes. */
  datatype Outcome = Emit(expr: Expr) | Refuse | Crash

  /** What formatting the literals of one configuration does: print, raise a ValueError, or raise something
      else, such as the TypeError of an integer conversion. */
  datatype Reaction = Prints | ValueError | OtherError

  /** How the emitters react to the configuration of a node. */
  type Emitters = (Kind, Config) -> Reaction

  function TextField(config: Config, key: string, default: string): string {
    if key in config && config[key].Str? then config[key].s else default
  }

  predicate ByPort(a: Edge, b: Edge) {
    PairLeq(a.dst.port.Text(), a.id, b.dst.port.Text(), b.id)
  }

  /** The variable an edge reads: a split's are named after its ports. */
  function ReadVar(name: Naming, index: map<string, Node>, e: Edge): string {
    name(e.src.node,
        if e.src.node in index && index[e.src.node].kind.Split? then Some(e.src.port) else None)
  }

  /** `parents`: later edges overwrite earlier ones on the same port. */
  function ParentVars(name: Naming, index: map<string, Node>, es: seq<Edge>): map<Port, string> {
    if es == [] then map[]
    else
      var e := es[|es| - 1];
      ParentVars(name, index, es[..|es| - 1])[e.dst.port := ReadVar(name, index, e)]
  }

  function Operands(kind: Kind, parents: map<Port, string>): map<Port, string>
    requires if kind.Combine? then Left in parents && Right in parents else In in parents
  {
    if kind.Combine? then map[Left := parents[Left], Right := parents[Right]] else map[In := parents[In]]
  }

  /** `_transform_expr`. Every catalog operator with inputs names the main one "in", so the fallback to
      the first port is reached only without inputs, where taking it raises StopIteration. (A note falls
      back to an empty frame instead, but nothing can read a note.) */
  function TransformExpr(kind: Kind, config: Config, parents: map<Port, string>, emits: Emitters): Outcome {
    if kind.Combine? && !(Left in parents && Right in parents) then Crash
    else if !kind.Combine? && In !in parents then Crash
    else
      match emits(kind, config)
      case ValueError => Refuse
      case OtherError => Crash
      case Prints => Emit(Apply(kind, config, Operands(kind, parents), if kind.Split? then Accepted else Out))
  }

  predicate IsReader(kind: Kind) { kind.Source? || kind.ComponentInput? }

  /** Only the ValueError of a transform is caught. */
  function NodeExpr(n: Node, parents: map<Port, string>, emits: Emitters): Outcome {
    if IsReader(n.kind) then if emits(n.kind, n.config).Prints? then Emit(Read(n.kind, n.config)) else Crash
    else if n.kind.Dataset? then Emit(Table(TextField(n.config, "name", ""), n.kind.op == "streaming_table"))
    else TransformExpr(n.kind, n.config, parents, emits)
  }

  /** With hooks the value of a quality node passes through its check. */
  function CheckOf(n: Node, hooks: bool): Option<string> { if hooks && n.kind.IsQuality() then Some(n.id) else None }

  /** The assignments printed for a node: a split gets a second one for its other port. */
  function Assignments(name: Naming, n: Node, expr: Expr, hooks: bool): seq<Line> {
    if n.kind.Split? && expr.Apply? then
      [Assign(name(n.id, None), expr, None),
       Assign(name(n.id, Some(Quarantine)), expr.(port := Quarantine), None)]
    else [Assign(name(n.id, None), expr, CheckOf(n, hooks))]
  }

  function NodeLines(name: Naming, n: Node, expr: Expr, style: Style): seq<Line> {
    (if style.marked then [RegionStart(n.id, false)] else [])
    + (if n.kind.Quality? then [CheckAppend(n.id)] else [])
    + Assignments(name, n, expr, style.hooks)
    + (if style.hooks && !n.kind.Source? then [CapturePlan(n.id, name(n.id, None))] else [])
    + (if style.marked then [RegionEnd] else [])
  }

  function OutputHead(n: Node): seq<Line> {
    var name := TextField(n.config, "name", "dataset");
    if n.kind.Sink? then [SinkDeclaration(name), Decorator("append_flow", name), Def(true, name)]
    else [Decorator(DecoratorName(n.kind), name), Def(false, name)]
  }

  /** The options of a sink are formatted outside the try block, so any error escapes. */
  predicate HeadFails(n: Node, emits: Emitters) { n.kind.Sink? && !emits(n.kind, n.config).Prints? }

  function DecoratorName(kind: Kind): string {
    match kind
    case Dataset(op) =>
      if op == "streaming_table" then "table"
      else if op == "auto_cdc_scd1" then "create_auto_cdc_flow"
      else op
    case _ => ""
  }

  // ---- What the generated module is ----

  ghost function ParentsAt(name: Naming, d: Document, id: string): map<Port, string> {
    ParentVars(name, NodeMap(d.nodes), Sort(ByPort, Incoming(d, id)))
  }

  /** exprs gives the expression printed for each node of a scope. */
  ghost predicate Printed(name: Naming, d: Document, exprs: map<string, Expr>, ids: set<string>, emits: Emitters) {
    forall id :: id in ids ==>
      id in d.Ids() && id in exprs && NodeExpr(d.At(id), ParentsAt(name, d, id), emits) == Emit(exprs[id])
  }

  ghost function BodyPart(name: Naming, d: Document, id: string, style: Style, exprs: map<string, Expr>): seq<Line> {
    if id in d.Ids() && id in exprs then NodeLines(name, d.At(id), exprs[id], style) else []
  }

  ghost function Body(name: Naming, d: Document, ids: seq<string>, style: Style, exprs: map<string, Expr>): seq<Line> {
    if ids == [] then []
    else Body(name, d, ids[..|ids| - 1], style, exprs) + BodyPart(name, d, ids[|ids| - 1], style, exprs)
  }

  function Within(s: set<string>): string -> bool { (id: string) => id in s }

  ghost function ScopeOrder(d: Document, scope: set<string>): seq<string> { Filter(Within(scope), Order(d)) }

  // ---- Running a body ----

  /** The variable that holds an output of a node. */
  function OutVar(name: Naming, id: string, port: Port): string {
    name(id, if port == Quarantine then Some(Quarantine) else None)
  }

  /** The environment holds exactly the outputs of the nodes in ids, with the right values. */
  ghost predicate Holds<V(!new)>(name: Naming, d: Document, m: Frames<V>, ids: seq<string>, env: map<string, V>) {
    && (forall id, p :: id in ids && id in d.Ids() && p in OutPorts(d.KindAt(id)) ==>
          && PortRef(id, p) in m && OutVar(name, id, p) in env && env[OutVar(name, id, p)] == m[PortRef(id, p)])
    && (forall v :: v in env ==> exists id, p :: id in ids && p != Accepted && v == OutVar(name, id, p))
  }

  /** The tables hold the meaning of the datasets among ids. */
  ghost predicate TablesHold<V(!new)>(d: Document, m: Frames<V>, ids: set<string>, tables: map<string, V>) {
    forall id :: id in ids && id in d.Ids() && d.KindAt(id).Dataset? ==>
      && PortRef(id, Out) in m
      && TextField(d.At(id).config, "name", "") in tables
      && tables[TextField(d.At(id).config, "name", "")] == m[PortRef(id, Out)]
  }

  /** The datasets among ids are declared as what they are. */
  ghost predicate DeclaredHold(d: Document, ids: set<string>, declared: map<string, Kind>) {
    forall id :: id in ids && id in d.Ids() && d.KindAt(id).Dataset? ==>
      && TextField(d.At(id).config, "name", "") in declared
      && declared[TextField(d.At(id).config, "name", "")] == d.KindAt(id)
  }

  /** The store serves the reads of the datasets among ids. */
  ghost predicate StoreReady<V(!new)>(d: Document, m: Frames<V>, ids: set<string>, st: Machine<V>) {
    TablesHold(d, m, ids, st.tables) && DeclaredHold(d, ids, st.declared)
  }

  // ---- What is noted ----

  /** The output that the plain variable of a node holds. */
  ghost function FirstRef(d: Document, id: string): PortRef
    requires id in d.Ids()
  {
    PortRef(id, if d.KindAt(id).Split? then Accepted else Out)
  }

  /** The notes after a node is printed whose plain variable holds x: a quality check is registered and, with
      hooks, run on x; with hooks the plan of a node that is no source is captured. */
  ghost function NotedNode<V(!new)>(n: Node, hooks: bool, x: V, notes: Notes<V>): Notes<V> {
    Notes(if n.kind.Quality? then notes.checks + {n.id} else notes.checks,
          if hooks && n.kind.Quality? then notes.tested[n.id := x] else notes.tested,
          if hooks && !n.kind.Source? then notes.plans[n.id := x] else notes.plans)
  }

  /** The notes after the nodes in ids are printed, each holding its denotation. */
  ghost function Noted<V(!new)>(d: Document, m: Frames<V>, hooks: bool, ids: seq<string>, notes: Notes<V>): Notes<V> {
    if ids == [] then notes
    else
      var id, before := ids[|ids| - 1], Noted(d, m, hooks, ids[..|ids| - 1], notes);
      if id in d.Ids() && FirstRef(d, id) in m then NotedNode(d.At(id), hooks, m[FirstRef(d, id)], before) else before
  }

  lemma NotedGrows<V(!new)>(d: Document, m: Frames<V>, hooks: bool, ids: seq<string>, id: string, notes: Notes<V>)
    requires id in d.Ids() && FirstRef(d, id) in m
    ensures Noted(d, m, hooks, ids + [id], notes) == NotedNode(d.At(id), hooks, m[FirstRef(d, id)], Noted(d, m, hooks, ids, notes))
  {
    assert (ids + [id])[..|ids|] == ids;
  }

  /** An edge that reads a split's accepted port. */
  ghost predicate ReadsAccepted(d: Document, e: Edge) {
    e in d.edges && e.src.node in d.Ids() && d.KindAt(e.src.node).Split? && e.src.port == Accepted
  }

  /** The body of node id reads an accepted port. */
  ghost predicate BadNode(d: Document, id: string) {
    && id in d.Ids() && !IsReader(d.KindAt(id)) && !d.KindAt(id).Dataset?
    && exists p :: p in DataPorts(d.KindAt(id)) && Connected(d, id, p) && ReadsAccepted(d, InEdge(d, id, p))
  }

  lemma ByPortPreorder()
    ensures Preorder(ByPort)
  {
    TextPreorder();
    forall a, b ensures ByPort(a, b) || ByPort(b, a) {}
    forall a, b, c | ByPort(a, b) && ByPort(b, c) ensures ByPort(a, c) {
      PairTransitive(a.dst.port.Text(), a.id, b.dst.port.Text(), b.id, c.dst.port.Text(), c.id);
    }
  }

  predicate PairLeq(p: string, x: string, q: string, y: string) {
    if p == q then TextLeq(x, y) else TextLeq(p, q)
  }

  lemma PairTransitive(p: string, x: string, q: string, y: string, r: string, z: string)
    requires PairLeq(p, x, q, y) && PairLeq(q, y, r, z)
    ensures PairLeq(p, x, r, z)
  {
    if p == q && q == r { TextTransitive(x, y, z); }
    if p != q && q != r { TextTransitive(p, q, r); }
    if p != q && q != r && p == r { TextAntisymmetric(p, q); }
  }

  lemma {:induction false} ParentVarsMembers(name: Naming, index: map<string, Node>, es: seq<Edge>)
    requires forall a, b :: a in es && b in es && a.dst.port == b.dst.port ==> a == b
    ensures forall e :: e in es ==> e.dst.port in ParentVars(name, index, es)
                                    && ParentVars(name, index, es)[e.dst.port] == ReadVar(name, index, e)
    ensures forall p :: p in ParentVars(name, index, es) ==> exists e :: e in es && e.dst.port == p
  {
    if es != [] {
      SplitLast(es);
      ParentVarsMembers(name, index, es[..|es| - 1]);
    }
  }

  /** The sorted loop finds, at each port, the variable of the one edge that enters there. */
  lemma ParentsFound(name: Naming, d: Document, id: string)
    requires WellFormed(d) && id in d.Ids()
    ensures forall p :: p in ParentsAt(name, d, id) <==> Connected(d, id, p)
    ensures forall p :: Connected(d, id, p) ==>
              ParentsAt(name, d, id)[p] == ReadVar(name, NodeMap(d.nodes), InEdge(d, id, p))
  {
    ByPortPreorder();
    var es := Sort(ByPort, Incoming(d, id));
    SortIsSorted(ByPort, Incoming(d, id));
    IncomingMembers(d, id);
    forall a, b | a in es && b in es && a.dst.port == b.dst.port ensures a == b {
      assert a.dst == PortRef(id, a.dst.port) == b.dst;
      OneEdgePerPort(d, a, b);
    }
    ParentVarsMembers(name, NodeMap(d.nodes), es);
    forall p | p in ParentVars(name, NodeMap(d.nodes), es) ensures Connected(d, id, p) {
      var e :| e in es && e.dst.port == p;
      assert Connects(d, e, id, p);
    }
    forall p | Connected(d, id, p) ensures InEdge(d, id, p) in es && InEdge(d, id, p).dst.port == p {}
  }

  lemma PortsFed(d: Document, n: Node)
    requires d.UniqueIds() && WellFormed(d) && n in d.nodes && n.id in d.Ids() && d.At(n.id) == n
    ensures forall p :: p in InputPorts(n.kind) && !Optional(p) ==> Connected(d, n.id, p)
    ensures forall p :: Connected(d, n.id, p) ==> p in InputPorts(n.kind)
  {
    forall p | p in InputPorts(n.kind) && !Optional(p) ensures Connected(d, n.id, p) { RequiredInput(d, n, p); }
    forall p | Connected(d, n.id, p) ensures p in InputPorts(n.kind) { EdgePorts(d, InEdge(d, n.id, p)); }
  }

  /** Reading an edge gives the right value, unless it leaves a split by its accepted port, whose
      variable no body assigns. */
  ghost predicate Resolves<V(!new)>(name: Naming, d: Document, m: Frames<V>, env: map<string, V>, e: Edge) {
    var v := ReadVar(name, NodeMap(d.nodes), e);
    && e.src.node in d.Ids()
    && if ReadsAccepted(d, e) then v !in env
       else v in env && ReadKey(d, e) in m && env[v] == m[ReadKey(d, e)]
  }

  lemma AcceptedUnbound<V(!new)>(name: Naming, d: Document, m: Frames<V>, ids: seq<string>, env: map<string, V>, u: string)
    requires Holds(name, d, m, ids, env) && NamesApart(name, Members(ids)) && u in ids
    ensures name(u, Some(Accepted)) !in env
  {
    assert Nameable(Some(Accepted)) && Nameable(None) && Nameable(Some(Quarantine));
    forall id, p | id in ids && p != Accepted ensures name(u, Some(Accepted)) != OutVar(name, id, p) {}
  }

  /** The variable an edge reads is that of the output it reads, or the accepted one no body assigns. */
  lemma ReadVarIs(name: Naming, d: Document, e: Edge)
    requires d.UniqueIds() && WellFormed(d) && e in d.edges
    ensures e.src.node in d.Ids()
    ensures ReadVar(name, NodeMap(d.nodes), e) ==
            if ReadsAccepted(d, e) then name(e.src.node, Some(Accepted)) else OutVar(name, e.src.node, ReadKey(d, e).port)
    ensures ReadKey(d, e) == PortRef(e.src.node, ReadKey(d, e).port) && ReadKey(d, e).port in OutPorts(d.KindAt(e.src.node))
  {
    NodeMapIsAt(d);
    ReadKeyIsOutput(d, e);
  }

  lemma ReadVarResolves<V(!new)>(name: Naming, d: Document, m: Frames<V>, ids: seq<string>, env: map<string, V>, e: Edge)
    requires d.UniqueIds() && WellFormed(d) && e in d.edges && e.src.node in ids
    requires Holds(name, d, m, ids, env) && NamesApart(name, Members(ids))
    ensures Resolves(name, d, m, env, e)
  {
    ReadVarIs(name, d, e);
    if ReadsAccepted(d, e) { AcceptedUnbound(name, d, m, ids, env, e.src.node); }
  }

  /** The operands of a printed operator are the variables of the edges into its data ports. */
  ghost predicate OperandsOf(name: Naming, d: Document, n: Node, expr: Expr) {
    && expr.Apply? && expr.kind == n.kind && expr.config == n.config && expr.args.Keys == DataPorts(n.kind)
    && forall p :: p in expr.args ==>
         Connected(d, n.id, p) && expr.args[p] == ReadVar(name, NodeMap(d.nodes), InEdge(d, n.id, p))
  }

  lemma OperatorShape(name: Naming, d: Document, n: Node, expr: Expr, emits: Emitters)
    requires WellFormed(d) && n.id in d.Ids() && !IsReader(n.kind) && !n.kind.Dataset?
    requires NodeExpr(n, ParentsAt(name, d, n.id), emits) == Emit(expr)
    ensures OperandsOf(name, d, n, expr) && expr.port == (if n.kind.Split? then Accepted else Out)
  {
    ParentsFound(name, d, n.id);
  }

  /** An operator's expression computes its operator on the meaning of its inputs. */
  lemma OperatorMeans<V(!new)>(name: Naming, d: Document, op: Operators<V>, m: Frames<V>, env: map<string, V>,
                               tables: map<string, V>, n: Node, expr: Expr)
    requires d.Closed() && n.id in d.Ids() && d.At(n.id) == n && Readable(d, n, m)
    requires OperandsOf(name, d, n, expr) && !IsReader(n.kind) && !n.kind.Dataset?
    requires forall p :: p in expr.args ==> Resolves(name, d, m, env, InEdge(d, n.id, p))
    ensures BadNode(d, n.id) ==> Eval(op, expr, env, tables).None?
    ensures !BadNode(d, n.id) ==> Eval(op, expr, env, tables) == Some(op(n.kind, n.config, Inputs(d, n, m), expr.port))
  {
    if !BadNode(d, n.id) {
      forall p | p in expr.args
        ensures expr.args[p] in env && env[expr.args[p]] == m[ReadKey(d, InEdge(d, n.id, p))]
      {
        assert !ReadsAccepted(d, InEdge(d, n.id, p));
      }
      assert (map p | p in expr.args :: env[expr.args[p]]) == Inputs(d, n, m);
    }
  }

  lemma AssignOne<V(!new)>(op: Operators<V>, v: string, expr: Expr, check: Option<string>, st: Machine<V>)
    ensures var value := Eval(op, expr, st.env, st.tables);
            Run(op, [Assign(v, expr, check)], st) ==
            if value.None? || !ReadsAsDeclared(st.declared, expr) then None
            else Some(st.(env := st.env[v := value.value], notes := Tested(st.notes, check, value.value)))
  {
    RunOne(op, Assign(v, expr, check), st);
  }

  lemma AssignTwo<V(!new)>(op: Operators<V>, v: string, a: Expr, w: string, b: Expr, st: Machine<V>)
    ensures var value := Eval(op, a, st.env, st.tables);
            Run(op, [Assign(v, a, None), Assign(w, b, None)], st) ==
            if value.None? || !ReadsAsDeclared(st.declared, a) then None else
            Run(op, [Assign(w, b, None)], st.(env := st.env[v := value.value]))
  {
    assert [Assign(v, a, None), Assign(w, b, None)] == [Assign(v, a, None)] + [Assign(w, b, None)];
    RunAppend(op, [Assign(v, a, None)], [Assign(w, b, None)], st);
    AssignOne(op, v, a, None, st);
  }

  /** The machine after the check of a quality node is registered. */
  ghost function WithCheck<V(!new)>(n: Node, st: Machine<V>): Machine<V> {
    if n.kind.Quality? then st.(notes := st.notes.(checks := st.notes.checks + {n.id})) else st
  }

  /** The machine after the plan of a node is captured. */
  ghost function WithPlan<V(!new)>(name: Naming, n: Node, style: Style, st: Machine<V>): Machine<V>
    requires name(n.id, None) in st.env
  {
    if style.hooks && !n.kind.Source? then st.(notes := st.notes.(plans := st.notes.plans[n.id := st.env[name(n.id, None)]]))
    else st
  }

  lemma CheckRuns<V(!new)>(op: Operators<V>, n: Node, style: Style, st: Machine<V>)
    ensures Run(op, (if style.marked then [RegionStart(n.id, false)] else []) + (if n.kind.Quality? then [CheckAppend(n.id)] else []), st)
            == Some(WithCheck(n, st))
  {
    var a := if style.marked then [RegionStart(n.id, false)] else [];
    var b := if n.kind.Quality? then [CheckAppend(n.id)] else [];
    RunAppend(op, a, b, st);
    RunOne(op, RegionStart(n.id, false), st);
    RunOne(op, CheckAppend(n.id), st);
  }

  lemma PlanRuns<V(!new)>(name: Naming, op: Operators<V>, n: Node, style: Style, st: Machine<V>)
    requires name(n.id, None) in st.env
    ensures Run(op, (if style.hooks && !n.kind.Source? then [CapturePlan(n.id, name(n.id, None))] else [])
                    + (if style.marked then [RegionEnd] else []), st) == Some(WithPlan(name, n, style, st))
  {
    var e := if style.hooks && !n.kind.Source? then [CapturePlan(n.id, name(n.id, None))] else [];
    var f := if style.marked then [RegionEnd] else [];
    RunAppend(op, e, f, st);
    RunOne(op, CapturePlan(n.id, name(n.id, None)), st);
    RunOne(op, RegionEnd, WithPlan(name, n, style, st));
  }

  lemma ThreeRun<V(!new)>(op: Operators<V>, a: seq<Line>, b: seq<Line>, c: seq<Line>, st: Machine<V>, st1: Machine<V>)
    requires Run(op, a, st) == Some(st1)
    ensures Run(op, a + b + c, st) == if Run(op, b, st1).None? then None else Run(op, c, Run(op, b, st1).value)
  {
    RunAppend(op, a + b, c, st);
    RunAppend(op, a, b, st);
  }

  /** The lines around the assignments of a node register its check before and capture its plan after. */
  lemma NodeLinesRun<V(!new)>(name: Naming, op: Operators<V>, n: Node, expr: Expr, style: Style, st: Machine<V>)
    ensures var r := Run(op, Assignments(name, n, expr, style.hooks), WithCheck(n, st));
            if r.None? then Run(op, NodeLines(name, n, expr, style), st).None?
            else name(n.id, None) in r.value.env
                 && Run(op, NodeLines(name, n, expr, style), st) == Some(WithPlan(name, n, style, r.value))
  {
    var a := (if style.marked then [RegionStart(n.id, false)] else []) + (if n.kind.Quality? then [CheckAppend(n.id)] else []);
    var b := Assignments(name, n, expr, style.hooks);
    var c := (if style.hooks && !n.kind.Source? then [CapturePlan(n.id, name(n.id, None))] else [])
             + (if style.marked then [RegionEnd] else []);
    assert NodeLines(name, n, expr, style) == a + b + c;
    CheckRuns(op, n, style, st);
    ThreeRun(op, a, b, c, st, WithCheck(n, st));
    var r := Run(op, b, WithCheck(n, st));
    if r.Some? {
      AssignmentsBind(name, op, n, expr, style.hooks, WithCheck(n, st));
      PlanRuns(name, op, n, style, r.value);
    }
  }

  lemma AssignmentsBind<V(!new)>(name: Naming, op: Operators<V>, n: Node, expr: Expr, hooks: bool, st: Machine<V>)
    requires Run(op, Assignments(name, n, expr, hooks), st).Some?
    ensures name(n.id, None) in Run(op, Assignments(name, n, expr, hooks), st).value.env
  {
    if n.kind.Split? && expr.Apply? {
      var v, w := name(n.id, None), name(n.id, Some(Quarantine));
      AssignTwo(op, v, expr, w, expr.(port := Quarantine), st);
      AssignOne(op, w, expr.(port := Quarantine), None,
                st.(env := st.env[v := Eval(op, expr, st.env, st.tables).value]));
    } else {
      AssignOne(op, name(n.id, None), expr, CheckOf(n, hooks), st);
    }
  }

  /** The environment after the assignments of node n. */
  ghost function Bound<V(!new)>(name: Naming, m: Frames<V>, n: Node, env: map<string, V>): map<string, V>
    requires forall p :: p in OutPorts(n.kind) ==> PortRef(n.id, p) in m
  {
    if n.kind.Split? then
      env[name(n.id, None) := m[PortRef(n.id, Accepted)]][name(n.id, Some(Quarantine)) := m[PortRef(n.id, Quarantine)]]
    else env[name(n.id, None) := m[PortRef(n.id, Out)]]
  }

  lemma HoldsGrows<V(!new)>(name: Naming, d: Document, m: Frames<V>, ids: seq<string>, env: map<string, V>, n: Node)
    requires n.id in d.Ids() && d.At(n.id) == n && n.id !in ids && Holds(name, d, m, ids, env)
    requires NamesApart(name, Members(ids + [n.id]))
    requires forall p :: p in OutPorts(n.kind) ==> PortRef(n.id, p) in m
    ensures Holds(name, d, m, ids + [n.id], Bound(name, m, n, env))
  {
    var env' := Bound(name, m, n, env);
    var all := ids + [n.id];
    assert Nameable(None) && Nameable(Some(Quarantine));
    assert n.id in Members(all);
    forall id, p | id in all && id in d.Ids() && p in OutPorts(d.KindAt(id))
      ensures PortRef(id, p) in m && OutVar(name, id, p) in env' && env'[OutVar(name, id, p)] == m[PortRef(id, p)]
    {
      assert id in Members(all);
    }
    forall v | v in env' ensures exists id, p :: id in all && p != Accepted && v == OutVar(name, id, p) {
      if v in env {
        var id, p :| id in ids && p != Accepted && v == OutVar(name, id, p);
        assert id in all;
      } else {
        assert v == OutVar(name, n.id, Out) || v == OutVar(name, n.id, Quarantine);
      }
    }
  }

  /** Only local variables and notes differ. */
  ghost predicate SameStore<V(!new)>(st: Machine<V>, st': Machine<V>) {
    st'.tables == st.tables && st'.declared == st.declared && st'.target == st.target
  }

  /** What running node id after the nodes in ids must give. */
  ghost predicate NodeOutcome<V(!new)>(name: Naming, d: Document, m: Frames<V>, ids: seq<string>, id: string, notes: Notes<V>,
                                       st: Machine<V>, r: Option<Machine<V>>) {
    if BadNode(d, id) then r.None?
    else r.Some? && SameStore(st, r.value) && r.value.notes == notes && Holds(name, d, m, ids + [id], r.value.env)
  }

  /** The first expression of a node evaluates to its first output, or to nothing for a bad node. */
  lemma FirstValue<V(!new)>(name: Naming, d: Document, op: Operators<V>, m: Frames<V>, n: Node, expr: Expr,
                            emits: Emitters, st: Machine<V>)
    requires WellFormed(d) && d.Closed() && n in d.nodes && n.id in d.Ids() && d.At(n.id) == n && Equation(d, op, m, n)
    requires NodeExpr(n, ParentsAt(name, d, n.id), emits) == Emit(expr)
    requires !n.kind.Sink? && StoreReady(d, m, {n.id}, st)
    requires !IsReader(n.kind) && !n.kind.Dataset? ==>
               forall e :: e in d.edges && e.dst.node == n.id ==> Resolves(name, d, m, st.env, e)
    ensures ReadsAsDeclared(st.declared, expr)
    ensures var v := Eval(op, expr, st.env, st.tables);
            if BadNode(d, n.id) then v.None?
            else v == Some(m[PortRef(n.id, if n.kind.Split? then Accepted else Out)])
    ensures n.kind.Split? ==> expr.Apply? && OperandsOf(name, d, n, expr)
  {
    if IsReader(n.kind) {
      ReaderHasNoInputs(d, n);
    } else if !n.kind.Dataset? {
      OperatorShape(name, d, n, expr, emits);
      OperatorMeans(name, d, op, m, st.env, st.tables, n, expr);
    }
  }

  lemma ReaderHasNoInputs(d: Document, n: Node)
    requires WellFormed(d) && n.id in d.Ids() && d.At(n.id) == n && IsReader(n.kind)
    ensures forall p :: !Connected(d, n.id, p)
  {
    forall p ensures !Connected(d, n.id, p) {
      if Connected(d, n.id, p) { EdgePorts(d, InEdge(d, n.id, p)); }
    }
  }

  /** No edge into a node reads the variable the node assigns. */
  lemma NotOwnVariable(name: Naming, d: Document, ids: seq<string>, id: string, e: Edge)
    requires d.UniqueIds() && WellFormed(d) && e in d.edges && e.src.node in ids && id !in ids
    requires NamesApart(name, Members(ids + [id]))
    ensures ReadVar(name, NodeMap(d.nodes), e) != name(id, None)
  {
    ReadVarIs(name, d, e);
    assert e.src.node in Members(ids + [id]) && id in Members(ids + [id]);
    assert Nameable(None) && Nameable(Some(Accepted)) && Nameable(Some(Quarantine));
  }

  /** An edge still resolves after its target's variable is assigned. */
  lemma StillResolves<V(!new)>(name: Naming, d: Document, m: Frames<V>, ids: seq<string>, id: string, env: map<string, V>, e: Edge, x: V)
    requires d.UniqueIds() && WellFormed(d) && e in d.edges && e.src.node in ids && id !in ids
    requires NamesApart(name, Members(ids + [id])) && Resolves(name, d, m, env, e) && !ReadsAccepted(d, e)
    ensures Resolves(name, d, m, env[name(id, None) := x], e)
  {
    NotOwnVariable(name, d, ids, id, e);
  }

  lemma SplitInput(name: Naming, d: Document, n: Node, expr: Expr)
    requires n.id in d.Ids() && d.At(n.id) == n && n.kind.Split? && OperandsOf(name, d, n, expr) && !BadNode(d, n.id)
    ensures var e := InEdge(d, n.id, In);
            Connected(d, n.id, In) && e in d.edges && e.dst.node == n.id && !ReadsAccepted(d, e)
  {
    assert In in expr.args;
  }

  lemma QuarantineMeans<V(!new)>(name: Naming, d: Document, op: Operators<V>, m: Frames<V>, n: Node, expr: Expr,
                                 env: map<string, V>, tables: map<string, V>)
    requires d.Closed() && n.id in d.Ids() && d.At(n.id) == n && n.kind.Split? && Equation(d, op, m, n)
    requires OperandsOf(name, d, n, expr) && !BadNode(d, n.id) && Resolves(name, d, m, env, InEdge(d, n.id, In))
    ensures Eval(op, expr.(port := Quarantine), env, tables) == Some(m[PortRef(n.id, Quarantine)])
  {
    assert expr.args.Keys == {In};
    OperatorMeans(name, d, op, m, env, tables, n, expr.(port := Quarantine));
  }

  /** The second expression of a split still sees the split's input. */
  lemma SecondValue<V(!new)>(name: Naming, d: Document, op: Operators<V>, m: Frames<V>, ids: seq<string>, n: Node,
                             expr: Expr, env: map<string, V>, tables: map<string, V>, x: V)
    requires WellFormed(d) && d.Closed() && n in d.nodes && n.id in d.Ids() && d.At(n.id) == n && Equation(d, op, m, n)
    requires d.UniqueIds() && n.kind.Split? && OperandsOf(name, d, n, expr) && !BadNode(d, n.id)
    requires NamesApart(name, Members(ids + [n.id])) && n.id !in ids
    requires forall e :: e in d.edges && e.dst.node == n.id ==> e.src.node in ids && Resolves(name, d, m, env, e)
    ensures Eval(op, expr.(port := Quarantine), env[name(n.id, None) := x], tables) == Some(m[PortRef(n.id, Quarantine)])
  {
    var e := InEdge(d, n.id, In);
    SplitInput(name, d, n, expr);
    StillResolves(name, d, m, ids, n.id, env, e, x);
    QuarantineMeans(name, d, op, m, n, expr, env[name(n.id, None) := x], tables);
  }

  /** Running the assignments of one node after those of its inputs. */
  lemma NodeRuns<V(!new)>(name: Naming, d: Document, op: Operators<V>, m: Frames<V>, ids: seq<string>, n: Node, expr: Expr,
                          emits: Emitters, hooks: bool, st: Machine<V>)
    requires WellFormed(d) && d.Closed() && n in d.nodes && n.id in d.Ids() && d.At(n.id) == n && Equation(d, op, m, n)
    requires d.UniqueIds() && NodeExpr(n, ParentsAt(name, d, n.id), emits) == Emit(expr)
    requires !n.kind.Sink? && StoreReady(d, m, {n.id}, st)
    requires n.id !in ids && Holds(name, d, m, ids, st.env) && NamesApart(name, Members(ids + [n.id]))
    requires !IsReader(n.kind) && !n.kind.Dataset? ==>
               forall e :: e in d.edges && e.dst.node == n.id ==> e.src.node in ids && Resolves(name, d, m, st.env, e)
    ensures FirstRef(d, n.id) in m
    ensures NodeOutcome(name, d, m, ids, n.id, Tested(st.notes, if n.kind.Split? then None else CheckOf(n, hooks), m[FirstRef(d, n.id)]),
                        st, Run(op, Assignments(name, n, expr, hooks), st))
  {
    FirstValue(name, d, op, m, n, expr, emits, st);
    if n.kind.Split? {
      AssignTwo(op, name(n.id, None), expr, name(n.id, Some(Quarantine)), expr.(port := Quarantine), st);
    } else {
      AssignOne(op, name(n.id, None), expr, CheckOf(n, hooks), st);
    }
    if !BadNode(d, n.id) {
      HoldsGrows(name, d, m, ids, st.env, n);
      if n.kind.Split? {
        var x := m[PortRef(n.id, Accepted)];
        SecondValue(name, d, op, m, ids, n, expr, st.env, st.tables, x);
        AssignOne(op, name(n.id, Some(Quarantine)), expr.(port := Quarantine), None,
                  st.(env := st.env[name(n.id, None) := x]));
      }
    }
  }

  // ---- Running a scope ----

  /** A set of nodes closed under taking the inputs of operators, without sinks. */
  ghost predicate ScopeReady(d: Document, scope: set<string>) {
    && scope <= d.Ids()
    && (forall id :: id in scope ==> !d.KindAt(id).Sink?)
    && (forall e :: e in d.edges && e.dst.node in scope && !d.KindAt(e.dst.node).Dataset? ==> e.src.node in scope)
  }

  ghost predicate Clean(d: Document, ids: seq<string>) {
    forall id :: id in ids ==> !BadNode(d, id)
  }

  ghost predicate BodyOutcome<V(!new)>(name: Naming, d: Document, m: Frames<V>, ids: seq<string>, hooks: bool,
                                       st: Machine<V>, r: Option<Machine<V>>) {
    if !Clean(d, ids) then r.None?
    else
      && r.Some? && SameStore(st, r.value) && Holds(name, d, m, ids, r.value.env)
      && r.value.notes == Noted(d, m, hooks, ids, st.notes)
  }

  lemma NamesApartSubset(name: Naming, a: set<string>, b: set<string>)
    requires NamesApart(name, b) && a <= b
    ensures NamesApart(name, a)
  {
  }

  /** The notes that the lines around the assignments of a node make. */
  lemma NodeNoted<V(!new)>(name: Naming, d: Document, m: Frames<V>, n: Node, style: Style, st: Machine<V>, r: Machine<V>)
    requires n.id in d.Ids() && d.At(n.id) == n && FirstRef(d, n.id) in m && SameStore(st, r)
    requires name(n.id, None) in r.env && r.env[name(n.id, None)] == m[FirstRef(d, n.id)]
    requires r.notes == Tested(WithCheck(n, st).notes, if n.kind.Split? then None else CheckOf(n, style.hooks), m[FirstRef(d, n.id)])
    ensures var r' := WithPlan(name, n, style, r);
            SameStore(st, r') && r'.env == r.env && r'.notes == NotedNode(n, style.hooks, m[FirstRef(d, n.id)], st.notes)
  {
  }

  /** What the lines of a node do, given what its assignments do. */
  lemma NodePartRuns<V(!new)>(name: Naming, d: Document, op: Operators<V>, m: Frames<V>, ids: seq<string>, n: Node, expr: Expr,
                              style: Style, st: Machine<V>)
    requires n.id in d.Ids() && d.At(n.id) == n && FirstRef(d, n.id) in m
    requires var st1 := WithCheck(n, st);
             NodeOutcome(name, d, m, ids, n.id,
                         Tested(st1.notes, if n.kind.Split? then None else CheckOf(n, style.hooks), m[FirstRef(d, n.id)]),
                         st1, Run(op, Assignments(name, n, expr, style.hooks), st1))
    ensures NodeOutcome(name, d, m, ids, n.id, NotedNode(n, style.hooks, m[FirstRef(d, n.id)], st.notes), st,
                        Run(op, NodeLines(name, n, expr, style), st))
  {
    NodeLinesRun(name, op, n, expr, style, st);
    var r := Run(op, Assignments(name, n, expr, style.hooks), WithCheck(n, st));
    if r.Some? {
      FirstIsHeld(name, d, m, ids, n.id, r.value.env);
      NodeNoted(name, d, m, n, style, st, r.value);
    }
  }

  /** The edges into an operator of the scope resolve once the nodes before it have run. */
  lemma InputsResolve<V(!new)>(name: Naming, d: Document, m: Frames<V>, scope: set<string>, done: seq<string>, ids: seq<string>,
                               id: string, env: map<string, V>)
    requires d.UniqueIds() && WellFormed(d) && d.Closed() && ScopeReady(d, scope) && NamesApart(name, Members(ids))
    requires StepReady(d, done, id) && id in scope && ids == Filter(Within(scope), done) && Holds(name, d, m, ids, env)
    requires !d.KindAt(id).Dataset?
    ensures forall e :: e in d.edges && e.dst.node == id ==> e.src.node in ids && Resolves(name, d, m, env, e)
  {
    FilterMembers(Within(scope), done);
    forall e | e in d.edges && e.dst.node == id ensures e.src.node in ids && Resolves(name, d, m, env, e) {
      assert Within(scope)(e.src.node);
      ReadVarResolves(name, d, m, ids, env, e);
    }
  }

  /** The assignments of the next node of a scope. */
  lemma NodeAssigns<V(!new)>(name: Naming, d: Document, op: Operators<V>, m: Frames<V>, scope: set<string>,
                             done: seq<string>, ids: seq<string>, id: string, hooks: bool, expr: Expr, emits: Emitters, st: Machine<V>)
    requires d.UniqueIds() && WellFormed(d) && d.Closed() && IsMeaning(d, op, m) && ScopeReady(d, scope)
    requires NamesApart(name, scope) && StoreReady(d, m, scope, st) && Holds(name, d, m, ids, st.env)
    requires StepReady(d, done, id) && id in scope && ids == Filter(Within(scope), done)
    requires NodeExpr(d.At(id), ParentsAt(name, d, id), emits) == Emit(expr)
    ensures FirstRef(d, id) in m
    ensures NodeOutcome(name, d, m, ids, id,
                        Tested(st.notes, if d.KindAt(id).Split? then None else CheckOf(d.At(id), hooks), m[FirstRef(d, id)]),
                        st, Run(op, Assignments(name, d.At(id), expr, hooks), st))
  {
    var n := d.At(id);
    assert d.Has(id, n) && Equation(d, op, m, n);
    FilterMembers(Within(scope), done);
    NamesApartSubset(name, Members(ids + [id]), scope);
    NamesApartSubset(name, Members(ids), scope);
    if !n.kind.Dataset? { InputsResolve(name, d, m, scope, done, ids, id, st.env); }
    NodeRuns(name, d, op, m, ids, n, expr, emits, hooks, st);
  }

  lemma BodyStep<V(!new)>(name: Naming, d: Document, op: Operators<V>, m: Frames<V>, scope: set<string>,
                          done: seq<string>, ids: seq<string>, id: string, style: Style, exprs: map<string, Expr>,
                          emits: Emitters, st: Machine<V>)
    requires d.UniqueIds() && WellFormed(d) && d.Closed() && IsMeaning(d, op, m) && ScopeReady(d, scope)
    requires NamesApart(name, scope) && Printed(name, d, exprs, scope, emits) && StoreReady(d, m, scope, st)
    requires StepReady(d, done, id) && id in scope && ids == Filter(Within(scope), done)
    requires Holds(name, d, m, ids, st.env)
    ensures FirstRef(d, id) in m
    ensures NodeOutcome(name, d, m, ids, id, NotedNode(d.At(id), style.hooks, m[FirstRef(d, id)], st.notes), st,
                        Run(op, BodyPart(name, d, id, style, exprs), st))
  {
    var n := d.At(id);
    assert d.Has(id, n);
    NodeAssigns(name, d, op, m, scope, done, ids, id, style.hooks, exprs[id], emits, WithCheck(n, st));
    NodePartRuns(name, d, op, m, ids, n, exprs[id], style, st);
  }

  lemma FirstIsHeld<V(!new)>(name: Naming, d: Document, m: Frames<V>, ids: seq<string>, id: string, env: map<string, V>)
    requires Holds(name, d, m, ids + [id], env) && id in d.Ids()
    ensures FirstRef(d, id) in m && name(id, None) in env && env[name(id, None)] == m[FirstRef(d, id)]
  {
    var p := FirstRef(d, id).port;
    assert id in ids + [id] && p in OutPorts(d.KindAt(id)) && OutVar(name, id, p) == name(id, None);
  }

  lemma ScopeGrows(scope: set<string>, order: seq<string>, k: nat)
    requires k < |order|
    ensures Filter(Within(scope), order[..k + 1]) ==
            if order[k] in scope then Filter(Within(scope), order[..k]) + [order[k]] else Filter(Within(scope), order[..k])
  {
    FilterSplitsAt(Within(scope), order, k);
    assert Within(scope)(order[k]) <==> order[k] in scope;
  }

  lemma BodyGrowsBy(name: Naming, d: Document, ids: seq<string>, id: string, style: Style, exprs: map<string, Expr>)
    ensures Body(name, d, ids + [id], style, exprs) == Body(name, d, ids, style, exprs) + BodyPart(name, d, id, style, exprs)
  {
    assert (ids + [id])[..|ids|] == ids;
  }

  /** One more node of the scope, given what the body so far does. */
  lemma BodyExtends<V(!new)>(name: Naming, d: Document, op: Operators<V>, m: Frames<V>, scope: set<string>, done: seq<string>,
                             ids: seq<string>, id: string, style: Style, exprs: map<string, Expr>, emits: Emitters, st: Machine<V>)
    requires d.UniqueIds() && WellFormed(d) && d.Closed() && IsMeaning(d, op, m) && ScopeReady(d, scope)
    requires NamesApart(name, scope) && Printed(name, d, exprs, scope, emits) && StoreReady(d, m, scope, st)
    requires StepReady(d, done, id) && id in scope && ids == Filter(Within(scope), done)
    requires BodyOutcome(name, d, m, ids, style.hooks, st, Run(op, Body(name, d, ids, style, exprs), st))
    ensures BodyOutcome(name, d, m, ids + [id], style.hooks, st, Run(op, Body(name, d, ids + [id], style, exprs), st))
  {
    var r := Run(op, Body(name, d, ids, style, exprs), st);
    BodyGrowsBy(name, d, ids, id, style, exprs);
    RunAppend(op, Body(name, d, ids, style, exprs), BodyPart(name, d, id, style, exprs), st);
    assert Clean(d, ids + [id]) <==> Clean(d, ids) && !BadNode(d, id);
    if r.Some? {
      BodyStep(name, d, op, m, scope, done, ids, id, style, exprs, emits, r.value);
      NotedGrows(d, m, style.hooks, ids, id, st.notes);
    }
  }

  /** Running the body of a scope computes the outputs of all its nodes, or stops at the first node
      that reads an accepted port. */
  lemma {:induction false} BodyRuns<V(!new)>(name: Naming, d: Document, op: Operators<V>, m: Frames<V>, scope: set<string>,
                                             i: nat, style: Style, exprs: map<string, Expr>, emits: Emitters, st: Machine<V>)
    requires d.UniqueIds() && WellFormed(d) && d.Closed() && IsMeaning(d, op, m) && ScopeReady(d, scope)
    requires NamesApart(name, scope) && Printed(name, d, exprs, scope, emits) && StoreReady(d, m, scope, st)
    requires i <= |Order(d)| && st.env == map[]
    ensures var ids := Filter(Within(scope), Order(d)[..i]);
            BodyOutcome(name, d, m, ids, style.hooks, st, Run(op, Body(name, d, ids, style, exprs), st))
  {
    if i > 0 {
      var k := i - 1;
      BodyRuns(name, d, op, m, scope, k, style, exprs, emits, st);
      OrderStep(d, k);
      var done, id := Order(d)[..k], Order(d)[k];
      ScopeGrows(scope, Order(d), k);
      if id in scope {
        BodyExtends(name, d, op, m, scope, done, Filter(Within(scope), done), id, style, exprs, emits, st);
      }
    } else {
      assert Order(d)[..0] == [] && Filter(Within(scope), Order(d)[..0]) == [];
    }
  }

  // ---- Running the module ----

  function OutputName(n: Node): string { TextField(n.config, "name", "dataset") }

  function TailLines(v: string): seq<Line> { [Return(v), Text(""), Text("")] }

  /** The return statement reads the first edge into the output. */
  ghost function ReturnLines(name: Naming, d: Document, id: string): seq<Line> {
    if Incoming(d, id) == [] then [] else TailLines(ReadVar(name, NodeMap(d.nodes), Incoming(d, id)[0]))
  }

  function HeadLines(n: Node, ids: seq<string>): seq<Line> {
    OutputHead(n) + (if ids == [] then [RaiseEmpty] else [])
  }

  ghost function DefinitionLines(name: Naming, d: Document, id: string, style: Style, exprs: map<string, Expr>): seq<Line>
    requires id in d.Ids()
  {
    var ids := ScopeOrder(d, DefinitionScope(d, id));
    HeadLines(d.At(id), ids) + Body(name, d, ids, style, exprs) + ReturnLines(name, d, id)
  }

  ghost predicate IsOutput(d: Document, id: string) { id in d.Ids() && d.KindAt(id).IsDefinition() }

  ghost function ModuleLines(name: Naming, d: Document, ids: seq<string>, style: Style, exprs: map<string, Expr>): seq<Line> {
    if ids == [] then []
    else
      var id := ids[|ids| - 1];
      ModuleLines(name, d, ids[..|ids| - 1], style, exprs)
      + (if IsOutput(d, id) then DefinitionLines(name, d, id, style, exprs) else [])
  }

  ghost predicate SameOutput(a: Node, b: Node) {
    a.kind.IsDefinition() && b.kind.IsDefinition() && OutputName(a) == OutputName(b)
  }

  /** Each output has a text name of its own; the identifier check of the generator enforces the latter. */
  ghost predicate NamedOutputs(d: Document) {
    && (forall n :: n in d.nodes && n.kind.IsDefinition() ==> "name" in n.config && n.config["name"].Str?)
    && (forall a, b :: a in d.nodes && b in d.nodes && SameOutput(a, b) ==> a == b)
  }

  /** Nothing in the definition of id, its return included, reads an accepted port. */
  ghost predicate DefinitionClean(d: Document, id: string) {
    && Clean(d, ScopeOrder(d, DefinitionScope(d, id)))
    && (Connected(d, id, In) ==> !ReadsAccepted(d, InEdge(d, id, In)))
  }

  lemma DefinitionScopeReady(d: Document, id: string)
    requires d.UniqueIds() && WellFormed(d) && IsOutput(d, id)
    ensures ScopeReady(d, DefinitionScope(d, id))
    ensures Connected(d, id, In) && InEdge(d, id, In).src.node in DefinitionScope(d, id)
    ensures Incoming(d, id) != [] && Incoming(d, id)[0] == InEdge(d, id, In)
  {
    WellFormedIsClosed(d);
    ScopeClosed(d, Sources(d, id));
    assert d.Has(id, d.At(id));
    DefinitionInput(d, d.At(id));
    IncomingMembers(d, id);
    assert InEdge(d, id, In) in Incoming(d, id);
    assert Incoming(d, id)[0] in Incoming(d, id);
    assert InEdge(d, id, In).src.node in Sources(d, id);
    forall u | u in DefinitionScope(d, id) ensures !d.KindAt(u).Sink? { ScopeHasNoSink(d, id, u); }
  }

  lemma ScopeHasNoSink(d: Document, id: string, u: string)
    requires WellFormed(d) && u in DefinitionScope(d, id)
    ensures exists e :: e in d.edges && e.src.node == u
    ensures !d.KindAt(u).Sink?
  {
    var s :| s in Sources(d, id) && Feeds(OpenArcs(d), u, s);
    if u != s {
      var first, _ := ReachesEnds(OpenArcs(d), u, s);
      ArcMembers(d, u, first);
    }
    var e :| e in d.edges && e.src.node == u;
    FeedsNoSink(d, e);
  }

  lemma FeedsNoSink(d: Document, e: Edge)
    requires WellFormed(d) && e in d.edges
    ensures e.src.node in d.Ids() && !d.KindAt(e.src.node).Sink?
  {
    EdgePorts(d, e);
  }

  /** The datasets a definition reads come earlier in the order. */
  lemma ScopeBefore(d: Document, i: nat, u: string)
    requires d.UniqueIds() && WellFormed(d) && i < |Order(d)| && u in DefinitionScope(d, Order(d)[i])
    ensures u in Order(d)[..i]
  {
    OrderFacts(d);
    var id := Order(d)[i];
    var s :| s in Sources(d, id) && Feeds(OpenArcs(d), u, s);
    var e :| e in d.edges && e.dst.node == id && e.src.node == s;
    EdgePorts(d, e);
    ArcMembers(d, s, id);
    if u != s { WalksInLarger(OpenArcs(d), d.Arcs(), u, s); }
    ReachesThenStep(d.Arcs(), u, s, id);
    OrderedReaches(d.Arcs(), Order(d), u, i);
  }

  predicate Declarable(n: Node) { n.kind.IsDefinition() && Required(n.kind).Some? }

  /** The decorator of a dataset declares what the dataset is. */
  lemma DecoratorDeclares(kind: Kind)
    requires kind.Dataset? && Required(kind).Some?
    ensures DecoratorName(kind) != "append_flow" && DeclaredBy(DecoratorName(kind)) == Some(kind)
  {
  }

  /** The machine after the head of a definition: it is declared as its own operator. */
  ghost function Headed<V(!new)>(n: Node, st: Machine<V>): Machine<V> {
    st.(declared := st.declared[OutputName(n) := n.kind], target := OutputName(n), env := map[])
  }

  lemma DecoratedRuns<V(!new)>(op: Operators<V>, attr: string, name: string, flow: bool, st: Machine<V>)
    ensures var declared := Registered(st.declared, attr, name);
            Run(op, [Decorator(attr, name), Def(flow, name)], st) ==
            if declared.None? then None else Some(st.(declared := declared.value, target := name, env := map[]))
  {
    var dec, f := Decorator(attr, name), Def(flow, name);
    RunOne(op, dec, st);
    RunAppend(op, [dec], [f], st);
    assert [dec] + [f] == [dec, f];
    if Step(op, dec, st).Some? { RunOne(op, f, Step(op, dec, st).value); }
  }

  lemma HeadRuns<V(!new)>(op: Operators<V>, n: Node, st: Machine<V>)
    requires Declarable(n)
    ensures Run(op, OutputHead(n), st) == Some(Headed(n, st))
  {
    var name := OutputName(n);
    if n.kind.Sink? {
      var sink := SinkDeclaration(name);
      RunOne(op, sink, st);
      RunAppend(op, [sink], [Decorator("append_flow", name), Def(true, name)], st);
      assert [sink] + [Decorator("append_flow", name), Def(true, name)] == OutputHead(n);
      DecoratedRuns(op, "append_flow", name, true, Step(op, sink, st).value);
    } else {
      DecoratorDeclares(n.kind);
      DecoratedRuns(op, DecoratorName(n.kind), name, false, st);
    }
  }

  lemma ReturnRuns<V(!new)>(op: Operators<V>, v: string, st: Machine<V>)
    ensures Run(op, TailLines(v), st) ==
            if v in st.env then Some(st.(tables := st.tables[st.target := st.env[v]])) else None
  {
    assert TailLines(v) == [Return(v)] + ([Text("")] + [Text("")]);
    RunOne(op, Return(v), st);
    RunAppend(op, [Return(v)], [Text("")] + [Text("")], st);
    if v in st.env {
      var st' := st.(tables := st.tables[st.target := st.env[v]]);
      RunAppend(op, [Text("")], [Text("")], st');
      RunOne(op, Text(""), st');
    }
  }

  /** A definition stores its denotation, is declared as its own operator and notes the nodes of its scope. */
  ghost predicate DefinitionOutcome<V(!new)>(d: Document, m: Frames<V>, id: string, hooks: bool, st: Machine<V>, r: Option<Machine<V>>) {
    id in d.Ids() && PortRef(id, Out) in m &&
    if !DefinitionClean(d, id) then r.None?
    else
      && r.Some? && r.value.tables == st.tables[OutputName(d.At(id)) := m[PortRef(id, Out)]]
      && r.value.declared == st.declared[OutputName(d.At(id)) := d.KindAt(id)]
      && r.value.notes == Noted(d, m, hooks, ScopeOrder(d, DefinitionScope(d, id)), st.notes)
  }

  /** Head, body and return in turn. */
  lemma DefinitionPartsRun<V(!new)>(op: Operators<V>, n: Node, body: seq<Line>, v: string, st: Machine<V>)
    requires Declarable(n)
    ensures var r := Run(op, body, Headed(n, st));
            Run(op, OutputHead(n) + body + TailLines(v), st) ==
            if r.None? || v !in r.value.env then None
            else Some(r.value.(tables := r.value.tables[r.value.target := r.value.env[v]]))
  {
    HeadRuns(op, n, st);
    RunAppend(op, OutputHead(n), body, st);
    RunAppend(op, OutputHead(n) + body, TailLines(v), st);
    var r := Run(op, body, Headed(n, st));
    if r.Some? { ReturnRuns(op, v, r.value); }
  }

  lemma DefinitionIs(name: Naming, d: Document, id: string, ids: seq<string>, e: Edge, style: Style, exprs: map<string, Expr>)
    requires id in d.Ids() && ids == ScopeOrder(d, DefinitionScope(d, id)) && ids != []
    requires Incoming(d, id) != [] && Incoming(d, id)[0] == e
    ensures DefinitionLines(name, d, id, style, exprs)
            == OutputHead(d.At(id)) + Body(name, d, ids, style, exprs) + TailLines(ReadVar(name, NodeMap(d.nodes), e))
  {
    assert OutputHead(d.At(id)) + [] == OutputHead(d.At(id));
  }

  /** What the outcome of the body and of the return mean for the definition. */
  lemma DefinitionConcludes<V(!new)>(name: Naming, d: Document, m: Frames<V>, id: string, ids: seq<string>, e: Edge, hooks: bool,
                                     st: Machine<V>, r: Option<Machine<V>>, v: string, final: Option<Machine<V>>)
    requires IsOutput(d, id) && ids == ScopeOrder(d, DefinitionScope(d, id)) && Connected(d, id, In) && e == InEdge(d, id, In)
    requires e.src.node in d.Ids() && v == ReadVar(name, NodeMap(d.nodes), e)
    requires PortRef(id, Out) in m && ReadKey(d, e) in m && m[PortRef(id, Out)] == m[ReadKey(d, e)]
    requires BodyOutcome(name, d, m, ids, hooks, Headed(d.At(id), st), r)
    requires r.Some? ==> Resolves(name, d, m, r.value.env, e)
    requires final == if r.None? || v !in r.value.env then None
                      else Some(r.value.(tables := r.value.tables[r.value.target := r.value.env[v]]))
    ensures DefinitionOutcome(d, m, id, hooks, st, final)
  {
  }

  /** The body of a definition leaves the edge into the output resolvable. */
  lemma DefinitionBodyRuns<V(!new)>(name: Naming, d: Document, op: Operators<V>, m: Frames<V>, id: string, ids: seq<string>, e: Edge,
                                    style: Style, exprs: map<string, Expr>, emits: Emitters, st: Machine<V>)
    requires d.UniqueIds() && WellFormed(d) && d.Closed() && IsMeaning(d, op, m) && IsOutput(d, id)
    requires ids == ScopeOrder(d, DefinitionScope(d, id)) && e in d.edges && e.src.node in DefinitionScope(d, id)
    requires ScopeReady(d, DefinitionScope(d, id)) && st.env == map[]
    requires NamesApart(name, DefinitionScope(d, id)) && Printed(name, d, exprs, DefinitionScope(d, id), emits)
    requires StoreReady(d, m, DefinitionScope(d, id), st)
    ensures ids != []
    ensures var r := Run(op, Body(name, d, ids, style, exprs), st);
            BodyOutcome(name, d, m, ids, style.hooks, st, r) && (r.Some? ==> Resolves(name, d, m, r.value.env, e))
  {
    var scope := DefinitionScope(d, id);
    InScopeOrder(d, scope, e.src.node);
    assert Order(d)[..|Order(d)|] == Order(d);
    BodyRuns(name, d, op, m, scope, |Order(d)|, style, exprs, emits, st);
    var r := Run(op, Body(name, d, ids, style, exprs), st);
    if r.Some? {
      NamesApartSubset(name, Members(ids), scope);
      ReadVarResolves(name, d, m, ids, r.value.env, e);
    }
  }

  /** An output denotes what its incoming edge reads. */
  lemma OutputCopies<V(!new)>(d: Document, op: Operators<V>, m: Frames<V>, id: string)
    requires d.UniqueIds() && d.Closed() && IsMeaning(d, op, m) && IsOutput(d, id) && Connected(d, id, In)
    ensures var e := InEdge(d, id, In);
            && e in d.edges && e.src.node in d.Ids() && PortRef(id, Out) in m && ReadKey(d, e) in m
            && m[PortRef(id, Out)] == m[ReadKey(d, e)]
  {
    assert d.Has(id, d.At(id)) && Equation(d, op, m, d.At(id));
  }

  /** Running one definition stores the denotation of its dataset, or stops on an accepted port. */
  lemma DefinitionRuns<V(!new)>(name: Naming, d: Document, op: Operators<V>, m: Frames<V>, id: string, style: Style,
                                exprs: map<string, Expr>, emits: Emitters, st: Machine<V>)
    requires d.UniqueIds() && WellFormed(d) && d.Closed() && IsMeaning(d, op, m) && IsOutput(d, id)
    requires NamesApart(name, DefinitionScope(d, id)) && Printed(name, d, exprs, DefinitionScope(d, id), emits)
    requires StoreReady(d, m, DefinitionScope(d, id), Headed(d.At(id), st))
    ensures DefinitionOutcome(d, m, id, style.hooks, st, Run(op, DefinitionLines(name, d, id, style, exprs), st))
  {
    var n := d.At(id);
    assert d.Has(id, n) && NodeOk(n);
    DefinitionScopeReady(d, id);
    OutputCopies(d, op, m, id);
    var ids, e := ScopeOrder(d, DefinitionScope(d, id)), InEdge(d, id, In);
    var st1 := Headed(n, st);
    DefinitionBodyRuns(name, d, op, m, id, ids, e, style, exprs, emits, st1);
    var body, v := Body(name, d, ids, style, exprs), ReadVar(name, NodeMap(d.nodes), e);
    DefinitionPartsRun(op, n, body, v, st);
    DefinitionIs(name, d, id, ids, e, style, exprs);
    DefinitionConcludes(name, d, m, id, ids, e, style.hooks, st, Run(op, body, st1), v, Run(op, OutputHead(n) + body + TailLines(v), st));
  }

  lemma InScopeOrder(d: Document, scope: set<string>, u: string)
    requires d.UniqueIds() && WellFormed(d) && u in scope && u in d.Ids()
    ensures u in ScopeOrder(d, scope) && forall x :: x in ScopeOrder(d, scope) ==> x in scope
  {
    ShortOrderMeansCycle(d);
    FilterMembers(Within(scope), Order(d));
    assert Within(scope)(u);
    forall x | x in ScopeOrder(d, scope) ensures x in scope { assert Within(scope)(x); }
  }

  /** Under the name of each output among ids the store holds its value; all other names are as they were. */
  ghost predicate Stored<T>(d: Document, value: map<string, T>, ids: seq<string>, before: map<string, T>, after: map<string, T>) {
    && (forall id :: id in ids && IsOutput(d, id) ==>
          id in value && OutputName(d.At(id)) in after && after[OutputName(d.At(id))] == value[id])
    && (forall t :: (t in before || t in after) && (forall id :: id in ids && IsOutput(d, id) ==> OutputName(d.At(id)) != t) ==>
          t in before && t in after && after[t] == before[t])
  }

  ghost function Denotations<V>(d: Document, m: Frames<V>): map<string, V> {
    map id | id in d.Ids() && PortRef(id, Out) in m :: m[PortRef(id, Out)]
  }

  ghost function Kinds(d: Document): map<string, Kind> { map id | id in d.Ids() :: d.KindAt(id) }

  /** The notes after the definitions of the outputs among ids. */
  ghost function ModuleNoted<V(!new)>(d: Document, m: Frames<V>, hooks: bool, ids: seq<string>, notes: Notes<V>): Notes<V> {
    if ids == [] then notes
    else
      var id, before := ids[|ids| - 1], ModuleNoted(d, m, hooks, ids[..|ids| - 1], notes);
      if IsOutput(d, id) then Noted(d, m, hooks, ScopeOrder(d, DefinitionScope(d, id)), before) else before
  }

  lemma ModuleNotedGrows<V(!new)>(d: Document, m: Frames<V>, hooks: bool, ids: seq<string>, id: string, notes: Notes<V>)
    ensures ModuleNoted(d, m, hooks, ids + [id], notes) ==
            var before := ModuleNoted(d, m, hooks, ids, notes);
            if IsOutput(d, id) then Noted(d, m, hooks, ScopeOrder(d, DefinitionScope(d, id)), before) else before
  {
    assert (ids + [id])[..|ids|] == ids;
  }

  ghost predicate ModuleClean(d: Document, ids: seq<string>) {
    forall id :: id in ids && IsOutput(d, id) ==> DefinitionClean(d, id)
  }

  /** After the definitions of the outputs among ids: each holds its denotation and is declared as its own
      operator, and the nodes printed are noted. */
  ghost predicate ModuleDone<V(!new)>(d: Document, m: Frames<V>, ids: seq<string>, hooks: bool, st: Machine<V>, st': Machine<V>) {
    && Stored(d, Denotations(d, m), ids, st.tables, st'.tables)
    && Stored(d, Kinds(d), ids, st.declared, st'.declared)
    && st'.notes == ModuleNoted(d, m, hooks, ids, st.notes)
  }

  ghost predicate ModuleOutcome<V(!new)>(d: Document, m: Frames<V>, ids: seq<string>, hooks: bool, st: Machine<V>, r: Option<Machine<V>>) {
    if !ModuleClean(d, ids) then r.None? else r.Some? && ModuleDone(d, m, ids, hooks, st, r.value)
  }

  /** What the generator checks or prints for every definition. */
  ghost predicate Printable(name: Naming, d: Document, exprs: map<string, Expr>, emits: Emitters) {
    forall id :: IsOutput(d, id) ==>
      && NamesApart(name, DefinitionScope(d, id))
      && Printed(name, d, exprs, DefinitionScope(d, id), emits)
  }

  /** What is stored under the names of the outputs so far serves the datasets of the next definition. */
  lemma StoredServes<T>(d: Document, value: map<string, T>, i: nat, before: map<string, T>, after: map<string, T>, u: string)
    requires d.UniqueIds() && WellFormed(d) && NamedOutputs(d) && i < |Order(d)| && IsOutput(d, Order(d)[i])
    requires Stored(d, value, Order(d)[..i], before, after)
    requires u in DefinitionScope(d, Order(d)[i]) && u in d.Ids() && d.KindAt(u).Dataset?
    ensures u in value && TextField(d.At(u).config, "name", "") == OutputName(d.At(u)) && OutputName(d.At(u)) in after
    ensures after[OutputName(d.At(u))] == value[u] && OutputName(d.At(u)) != OutputName(d.At(Order(d)[i]))
  {
    ScopeBefore(d, i, u);
    OrderFacts(d);
    assert d.Has(u, d.At(u)) && IsOutput(d, u);
    OutputNamesDiffer(d, u, Order(d)[i]);
  }

  lemma StoreServes<V(!new)>(d: Document, m: Frames<V>, i: nat, hooks: bool, st: Machine<V>, st': Machine<V>)
    requires d.UniqueIds() && WellFormed(d) && NamedOutputs(d) && i < |Order(d)| && IsOutput(d, Order(d)[i])
    requires ModuleDone(d, m, Order(d)[..i], hooks, st, st')
    ensures StoreReady(d, m, DefinitionScope(d, Order(d)[i]), Headed(d.At(Order(d)[i]), st'))
  {
    var n := d.At(Order(d)[i]);
    forall u | u in DefinitionScope(d, Order(d)[i]) && u in d.Ids() && d.KindAt(u).Dataset?
      ensures var t := TextField(d.At(u).config, "name", "");
              && PortRef(u, Out) in m && t in st'.tables && st'.tables[t] == m[PortRef(u, Out)]
              && t in st'.declared && st'.declared[t] == d.KindAt(u) && t != OutputName(n)
    {
      StoredServes(d, Denotations(d, m), i, st.tables, st'.tables, u);
      StoredServes(d, Kinds(d), i, st.declared, st'.declared, u);
    }
  }

  lemma StoredGrows<T>(d: Document, value: map<string, T>, ids: seq<string>, id: string, before: map<string, T>, after: map<string, T>)
    requires d.UniqueIds() && NamedOutputs(d) && IsOutput(d, id) && id !in ids && id in value
    requires Stored(d, value, ids, before, after)
    ensures Stored(d, value, ids + [id], before, after[OutputName(d.At(id)) := value[id]])
  {
    var after' := after[OutputName(d.At(id)) := value[id]];
    var all := ids + [id];
    forall x | x in all && IsOutput(d, x)
      ensures x in value && OutputName(d.At(x)) in after' && after'[OutputName(d.At(x))] == value[x]
    {
      if x != id { OutputNamesDiffer(d, x, id); }
    }
    assert id in all;
    assert forall x :: x in ids ==> x in all;
  }

  /** One definition more. */
  lemma ModuleDoneGrows<V(!new)>(d: Document, m: Frames<V>, ids: seq<string>, id: string, hooks: bool, st: Machine<V>,
                                 st': Machine<V>, r: Option<Machine<V>>)
    requires d.UniqueIds() && NamedOutputs(d) && IsOutput(d, id) && id !in ids && ModuleDone(d, m, ids, hooks, st, st')
    requires DefinitionOutcome(d, m, id, hooks, st', r) && DefinitionClean(d, id)
    ensures r.Some? && ModuleDone(d, m, ids + [id], hooks, st, r.value)
  {
    StoredGrows(d, Denotations(d, m), ids, id, st.tables, st'.tables);
    StoredGrows(d, Kinds(d), ids, id, st.declared, st'.declared);
    ModuleNotedGrows(d, m, hooks, ids, id, st.notes);
  }

  lemma OutputNamesDiffer(d: Document, x: string, y: string)
    requires NamedOutputs(d) && IsOutput(d, x) && IsOutput(d, y) && x != y
    ensures OutputName(d.At(x)) != OutputName(d.At(y))
  {
    assert d.Has(x, d.At(x)) && d.Has(y, d.At(y));
    assert SameOutput(d.At(x), d.At(y)) <==> OutputName(d.At(x)) == OutputName(d.At(y));
  }

  lemma ModuleStep<V(!new)>(name: Naming, d: Document, op: Operators<V>, m: Frames<V>, i: nat, style: Style,
                            exprs: map<string, Expr>, emits: Emitters, first: Machine<V>, st: Machine<V>)
    requires d.UniqueIds() && WellFormed(d) && d.Closed() && NamedOutputs(d) && IsMeaning(d, op, m)
    requires Printable(name, d, exprs, emits) && i < |Order(d)| && IsOutput(d, Order(d)[i])
    requires ModuleDone(d, m, Order(d)[..i], style.hooks, first, st)
    ensures var r := Run(op, DefinitionLines(name, d, Order(d)[i], style, exprs), st);
            if !DefinitionClean(d, Order(d)[i]) then r.None?
            else r.Some? && ModuleDone(d, m, Order(d)[..i] + [Order(d)[i]], style.hooks, first, r.value)
  {
    var id := Order(d)[i];
    OrderStep(d, i);
    StoreServes(d, m, i, style.hooks, first, st);
    DefinitionRuns(name, d, op, m, id, style, exprs, emits, st);
    if DefinitionClean(d, id) {
      ModuleDoneGrows(d, m, Order(d)[..i], id, style.hooks, first, st, Run(op, DefinitionLines(name, d, id, style, exprs), st));
    }
  }

  /** One more node of the order, given what the module so far does. */
  lemma ModuleExtends<V(!new)>(name: Naming, d: Document, op: Operators<V>, m: Frames<V>, i: nat, style: Style,
                               exprs: map<string, Expr>, emits: Emitters, earlier: seq<Line>, st: Machine<V>)
    requires d.UniqueIds() && WellFormed(d) && d.Closed() && NamedOutputs(d) && IsMeaning(d, op, m)
    requires Printable(name, d, exprs, emits) && i < |Order(d)| && IsOutput(d, Order(d)[i])
    requires ModuleOutcome(d, m, Order(d)[..i], style.hooks, st, Run(op, earlier, st))
    ensures ModuleOutcome(d, m, Order(d)[..i] + [Order(d)[i]], style.hooks, st,
                          Run(op, earlier + DefinitionLines(name, d, Order(d)[i], style, exprs), st))
  {
    var done, id := Order(d)[..i], Order(d)[i];
    var r := Run(op, earlier, st);
    RunAppend(op, earlier, DefinitionLines(name, d, id, style, exprs), st);
    CleanGrows(d, done, id);
    if r.Some? { ModuleStep(name, d, op, m, i, style, exprs, emits, st, r.value); }
  }

  lemma CleanGrows(d: Document, done: seq<string>, id: string)
    ensures ModuleClean(d, done + [id]) <==> ModuleClean(d, done) && (IsOutput(d, id) ==> DefinitionClean(d, id))
  {
    assert id in done + [id] && forall x :: x in done ==> x in done + [id];
  }

  lemma ModuleSkips<V(!new)>(d: Document, m: Frames<V>, done: seq<string>, id: string, hooks: bool, st: Machine<V>, r: Option<Machine<V>>)
    requires !IsOutput(d, id) && ModuleOutcome(d, m, done, hooks, st, r)
    ensures ModuleOutcome(d, m, done + [id], hooks, st, r)
  {
    CleanGrows(d, done, id);
    ModuleNotedGrows(d, m, hooks, done, id, st.notes);
    assert forall x :: x in done ==> x in done + [id];
  }

  lemma ModuleLinesGrow(name: Naming, d: Document, ids: seq<string>, id: string, style: Style, exprs: map<string, Expr>)
    ensures ModuleLines(name, d, ids + [id], style, exprs) ==
            if IsOutput(d, id) then ModuleLines(name, d, ids, style, exprs) + DefinitionLines(name, d, id, style, exprs)
            else ModuleLines(name, d, ids, style, exprs)
  {
    assert (ids + [id])[..|ids|] == ids;
    var earlier := ModuleLines(name, d, ids, style, exprs);
    assert earlier + [] == earlier;
  }

  /** Running the module computes the outputs in order, or stops at the first definition that reads an
      accepted port. */
  lemma {:induction false} ModuleRuns<V(!new)>(name: Naming, d: Document, op: Operators<V>, m: Frames<V>, i: nat, style: Style,
                                               exprs: map<string, Expr>, emits: Emitters, st: Machine<V>)
    requires d.UniqueIds() && WellFormed(d) && d.Closed() && NamedOutputs(d) && IsMeaning(d, op, m)
    requires Printable(name, d, exprs, emits) && i <= |Order(d)|
    ensures ModuleOutcome(d, m, Order(d)[..i], style.hooks, st, Run(op, ModuleLines(name, d, Order(d)[..i], style, exprs), st))
  {
    if i > 0 {
      var k := i - 1;
      ModuleRuns(name, d, op, m, k, style, exprs, emits, st);
      OrderStep(d, k);
      var done, id := Order(d)[..k], Order(d)[k];
      var earlier := ModuleLines(name, d, done, style, exprs);
      ModuleLinesGrow(name, d, done, id, style, exprs);
      TakeGrows(Order(d), k);
      if IsOutput(d, id) {
        ModuleExtends(name, d, op, m, k, style, exprs, emits, earlier, st);
      } else {
        ModuleSkips(d, m, done, id, style.hooks, st, Run(op, earlier, st));
      }
    } else {
      assert Order(d)[..0] == [];
    }
  }
}
