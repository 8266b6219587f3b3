/** The preview program of one node (python/sdpstudio_codegen/preview.py): its inputs are rebuilt up to the
    nearest datasets, whose stored contents are read. */
module Preview {
  import opened Sorting
  import opened Digraph
  import opened Documents
  import opened Graph
  import opened Validation
  import opened Meaning
  import opened Lowering
  import opened Scopes
  import opened PythonNames
  import opened PythonProgram
  import opened PythonBackend

  datatype Request = Request(node: string, limit: int, fraction: real, seed: int, confirmed: bool,
                             profileRows: int, profileColumns: int, topValues: int)

  predicate WithinBounds(q: Request) {
    && 1 <= q.limit <= 200 && 0.0 < q.fraction <= 1.0 && q.seed >= 0
  }

  predicate ProfileWithinBounds(q: Request) {
    1 <= q.profileRows <= 100_000 && 1 <= q.profileColumns <= 1_000 && 0 <= q.topValues <= 100
  }

  datatype Script = Script(lines: seq<Line>) | Rejected | Escaped

  const FRAME := "__svp_df"

  /** The node whose dataframe is printed: for a dataset or sink it is the first input. */
  ghost function RootOf(d: Document, id: string): string
    requires id in d.Ids() && (d.KindAt(id).IsDefinition() ==> Incoming(d, id) != [])
  {
    if d.KindAt(id).IsDefinition() then Incoming(d, id)[0].src.node else id
  }

  ghost predicate HasRoot(d: Document, id: string, root: string) {
    id in d.Ids() && (d.KindAt(id).IsDefinition() ==> Incoming(d, id) != []) && root == RootOf(d, id)
  }

  ghost function PreviewScope(d: Document, root: string): set<string> { Scope(d, {root}) }

  /** What is rebuilt to show a node: the definition of a dataset or sink, or the node and what feeds it. */
  ghost function RebuiltFor(d: Document, id: string): set<string>
    requires id in d.Ids()
  {
    if d.KindAt(id).IsDefinition() then DefinitionScope(d, id) else Scope(d, {id})
  }

  /** The nodes strictly upstream. */
  ghost function Above(d: Document, id: string): set<string> { set u | u in d.Ids() && Reaches(d.Arcs(), u, id) }

  function FromScope(scope: set<string>): Edge -> bool { (e: Edge) => e.src.node in scope }

  /** The variables of the inputs; unlike the generator's they ignore the output port. */
  function PlainVars(name: Naming, es: seq<Edge>): map<Port, string> {
    if es == [] then map[]
    else PlainVars(name, es[..|es| - 1])[es[|es| - 1].dst.port := name(es[|es| - 1].src.node, None)]
  }

  function VarsWithin(name: Naming, d: Document, scope: set<string>, id: string): map<Port, string> {
    PlainVars(name, Filter(FromScope(scope), Sort(ByPort, Incoming(d, id))))
  }

  /** The expression for a node. Nothing catches a ValueError here, a component input is not treated as a
      source, and a split passes all its rows on. */
  function PreviewExpr(n: Node, parents: map<Port, string>, emits: Emitters): Outcome {
    if n.kind.Source? then if emits(n.kind, n.config).Prints? then Emit(Read(n.kind, n.config)) else Crash
    else if n.kind.Dataset? then Emit(Table(TextField(n.config, "name", ""), false))
    else if n.kind == Utility("note") && parents == map[] then Emit(Read(n.kind, n.config))
    else if n.kind.Split? then if In in parents then Emit(Copy(parents[In])) else Crash
    else
      var expr := TransformExpr(n.kind, n.config, parents, emits);
      if expr.Refuse? then Crash else expr
  }

  ghost function PreviewAt(name: Naming, d: Document, scope: set<string>, id: string, emits: Emitters): Outcome
    requires id in d.Ids()
  {
    PreviewExpr(d.At(id), VarsWithin(name, d, scope, id), emits)
  }

  ghost function PreviewBody(name: Naming, d: Document, scope: set<string>, ids: seq<string>, emits: Emitters): seq<Line> {
    if ids == [] then []
    else
      var id := ids[|ids| - 1];
      PreviewBody(name, d, scope, ids[..|ids| - 1], emits)
      + (if id in d.Ids() && PreviewAt(name, d, scope, id, emits).Emit?
         then [Assign(name(id, None), PreviewAt(name, d, scope, id, emits).expr, None)] else [])
  }

  ghost function PreviewLines(name: Naming, d: Document, root: string, head: seq<Line>, tail: seq<Line>, emits: Emitters): seq<Line> {
    var scope := PreviewScope(d, root);
    head + PreviewBody(name, d, scope, ScopeOrder(d, scope), emits) + [Assign(FRAME, Copy(name(root, None)), None)] + tail
  }

  /** lines is the program printed for a request to preview node id. */
  ghost predicate IsPreview(d: Document, id: string, head: seq<Line>, tail: seq<Line>, emits: Emitters, lines: seq<Line>) {
    exists root :: HasRoot(d, id, root) && lines == PreviewLines(Var, d, root, head, tail, emits)
  }

  // ---- The inputs of a node ----

  lemma {:induction false} PlainVarsMembers(name: Naming, es: seq<Edge>)
    requires forall a, b :: a in es && b in es && a.dst.port == b.dst.port ==> a == b
    ensures forall e :: e in es ==> e.dst.port in PlainVars(name, es) && PlainVars(name, es)[e.dst.port] == name(e.src.node, None)
    ensures forall p :: p in PlainVars(name, es) ==> exists e :: e in es && e.dst.port == p
  {
    if es != [] {
      SplitLast(es);
      PlainVarsMembers(name, es[..|es| - 1]);
    }
  }

  lemma VarsFound(name: Naming, d: Document, scope: set<string>, id: string)
    requires WellFormed(d) && id in d.Ids() && forall e :: e in d.edges && e.dst.node == id ==> e.src.node in scope
    ensures forall p :: p in VarsWithin(name, d, scope, id) <==> Connected(d, id, p)
    ensures forall p :: Connected(d, id, p) ==> VarsWithin(name, d, scope, id)[p] == name(InEdge(d, id, p).src.node, None)
  {
    ByPortPreorder();
    var all := Sort(ByPort, Incoming(d, id));
    var es := Filter(FromScope(scope), all);
    SortIsSorted(ByPort, Incoming(d, id));
    IncomingMembers(d, id);
    FilterMembers(FromScope(scope), all);
    forall e ensures e in es <==> e in d.edges && e.dst.node == id { assert FromScope(scope)(e) <==> e.src.node in scope; }
    forall a, b | a in es && b in es && a.dst.port == b.dst.port ensures a == b {
      assert a.dst == PortRef(id, a.dst.port) == b.dst;
      OneEdgePerPort(d, a, b);
    }
    PlainVarsMembers(name, es);
    forall p | p in PlainVars(name, es) ensures Connected(d, id, p) {
      var e :| e in es && e.dst.port == p;
      assert Connects(d, e, id, p);
    }
    forall p | Connected(d, id, p) ensures InEdge(d, id, p) in es && InEdge(d, id, p).dst.port == p {}
  }

  // ---- Running the program ----

  /** The operators as the preview sees them: a split passes its input on to both outputs. */
  ghost function PassThrough<V(!new)>(op: Operators<V>): Operators<V> {
    (kind: Kind, config: Config, inputs: map<Port, V>, port: Port) =>
      if kind.Split? && In in inputs then inputs[In] else op(kind, config, inputs, port)
  }

  /** The output a node's variable holds. */
  function Shown(kind: Kind): Port { if kind.Split? then Accepted else Out }

  /** The equations of the operators in a scope. */
  ghost predicate MeansWithin<V(!new)>(d: Document, op: Operators<V>, m: Frames<V>, scope: set<string>)
    requires d.Closed()
  {
    forall n :: n in d.nodes && n.id in scope && !n.kind.Dataset? ==> Equation(d, op, m, n)
  }

  ghost predicate Shows<V(!new)>(name: Naming, d: Document, m: Frames<V>, ids: seq<string>, env: map<string, V>) {
    forall id :: id in ids && id in d.Ids() ==>
      && PortRef(id, Shown(d.KindAt(id))) in m && name(id, None) in env
      && env[name(id, None)] == m[PortRef(id, Shown(d.KindAt(id)))]
  }

  /** The program so far has run and shows the nodes in ids. */
  ghost predicate ShowsSoFar<V(!new)>(name: Naming, d: Document, m: Frames<V>, ids: seq<string>, st: Machine<V>, r: Option<Machine<V>>) {
    r.Some? && Shows(name, d, m, ids, r.value.env) && SameStore(st, r.value)
  }

  /** Whichever output of a shown node an edge reads, its variable holds that value. */
  ghost predicate Serves<V(!new)>(name: Naming, d: Document, m: Frames<V>, env: map<string, V>, e: Edge)
    requires e.src.node in d.Ids()
  {
    name(e.src.node, None) in env && ReadKey(d, e) in m && env[name(e.src.node, None)] == m[ReadKey(d, e)]
  }

  lemma ShownServes<V(!new)>(name: Naming, d: Document, op: Operators<V>, m: Frames<V>, scope: set<string>, ids: seq<string>,
                             env: map<string, V>, e: Edge)
    requires d.UniqueIds() && WellFormed(d) && d.Closed() && MeansWithin(d, PassThrough(op), m, scope)
    requires e in d.edges && e.src.node in ids && e.src.node in scope && Shows(name, d, m, ids, env)
    ensures Serves(name, d, m, env, e)
  {
    var s := d.At(e.src.node);
    assert d.Has(e.src.node, s);
    ReadKeyIsOutput(d, e);
    if s.kind.Split? {
      RequiredInput(d, s, In);
      assert Equation(d, PassThrough(op), m, s);
      assert In in Inputs(d, s, m);
    }
  }

  /** The expression of a node computes its first output from the variables of its inputs. */
  lemma ExprShows<V(!new)>(name: Naming, d: Document, op: Operators<V>, m: Frames<V>, scope: set<string>, n: Node,
                           emits: Emitters, env: map<string, V>, tables: map<string, V>)
    requires d.UniqueIds() && WellFormed(d) && d.Closed() && n in d.nodes && n.id in d.Ids() && d.At(n.id) == n
    requires !n.kind.Sink? && PreviewAt(name, d, scope, n.id, emits).Emit? && TablesHold(d, m, {n.id}, tables)
    requires !n.kind.Dataset? ==>
               && Equation(d, PassThrough(op), m, n)
               && forall e :: e in d.edges && e.dst.node == n.id ==> e.src.node in scope && Serves(name, d, m, env, e)
    ensures PortRef(n.id, Shown(n.kind)) in m
    ensures Eval(op, PreviewAt(name, d, scope, n.id, emits).expr, env, tables) == Some(m[PortRef(n.id, Shown(n.kind))])
  {
    if !n.kind.Dataset? {
      VarsFound(name, d, scope, n.id);
      var parents := VarsWithin(name, d, scope, n.id);
      forall p | Connected(d, n.id, p)
        ensures p in parents && parents[p] in env && env[parents[p]] == m[ReadKey(d, InEdge(d, n.id, p))]
      {
        assert Serves(name, d, m, env, InEdge(d, n.id, p));
      }
      OperandsShow(name, d, op, m, n, parents, PreviewAt(name, d, scope, n.id, emits).expr, emits, env, tables);
    }
  }

  lemma OperandsShow<V(!new)>(name: Naming, d: Document, op: Operators<V>, m: Frames<V>, n: Node, parents: map<Port, string>,
                              expr: Expr, emits: Emitters, env: map<string, V>, tables: map<string, V>)
    requires WellFormed(d) && d.Closed() && n in d.nodes && n.id in d.Ids() && d.At(n.id) == n && !n.kind.Dataset? && !n.kind.Sink?
    requires Equation(d, PassThrough(op), m, n) && PreviewExpr(n, parents, emits) == Emit(expr)
    requires forall p :: p in parents <==> Connected(d, n.id, p)
    requires forall p :: Connected(d, n.id, p) ==>
               && ReadKey(d, InEdge(d, n.id, p)) in m
               && parents[p] in env && env[parents[p]] == m[ReadKey(d, InEdge(d, n.id, p))]
    ensures PortRef(n.id, Shown(n.kind)) in m && Eval(op, expr, env, tables) == Some(m[PortRef(n.id, Shown(n.kind))])
  {
    var inputs := Inputs(d, n, m);
    assert Shown(n.kind) in OutPorts(n.kind);
    match expr {
      case Read(_, _) =>
        NoInputs(d, n, parents);
        assert inputs == map[];
      case Copy(_) => assert In in inputs;
      case Apply(_, _, args, _) =>
        forall p | p in args ensures p in inputs && args[p] in env && env[args[p]] == inputs[p] {}
        ArgumentsAre(args, env, inputs);
      case Table(_, _) =>
    }
  }

  lemma ArgumentsAre<V>(args: map<Port, string>, env: map<string, V>, inputs: map<Port, V>)
    requires args.Keys == inputs.Keys && forall p :: p in args ==> args[p] in env && env[args[p]] == inputs[p]
    ensures (map p | p in args :: env[args[p]]) == inputs
  {
  }

  lemma NoInputs(d: Document, n: Node, parents: map<Port, string>)
    requires WellFormed(d) && n.id in d.Ids() && d.At(n.id) == n && forall p :: p in parents <==> Connected(d, n.id, p)
    requires n.kind.Source? || parents == map[]
    ensures forall p :: !Connected(d, n.id, p)
  {
    if n.kind.Source? { ReaderHasNoInputs(d, n); }
  }

  ghost predicate AllShown(name: Naming, d: Document, scope: set<string>, emits: Emitters) {
    forall id :: id in scope ==> id in d.Ids() && PreviewAt(name, d, scope, id, emits).Emit?
  }

  lemma ShowsGrows<V(!new)>(name: Naming, d: Document, m: Frames<V>, ids: seq<string>, env: map<string, V>, id: string, x: V)
    requires Shows(name, d, m, ids, env) && id in d.Ids() && id !in ids && NamesApart(name, Members(ids + [id]))
    requires PortRef(id, Shown(d.KindAt(id))) in m && x == m[PortRef(id, Shown(d.KindAt(id)))]
    ensures Shows(name, d, m, ids + [id], env[name(id, None) := x])
  {
    assert Nameable(None) && id in Members(ids + [id]);
    forall u | u in ids ensures name(u, None) != name(id, None) { assert u in Members(ids + [id]); }
  }

  lemma {:induction false} PreviewRuns<V(!new)>(name: Naming, d: Document, op: Operators<V>, m: Frames<V>, scope: set<string>, i: nat,
                                                emits: Emitters, st: Machine<V>)
    requires d.UniqueIds() && WellFormed(d) && d.Closed() && ScopeReady(d, scope) && i <= |Order(d)| && st.declared == map[]
    requires MeansWithin(d, PassThrough(op), m, scope) && TablesHold(d, m, scope, st.tables)
    requires NamesApart(name, scope) && AllShown(name, d, scope, emits)
    ensures var ids := Filter(Within(scope), Order(d)[..i]);
            var r := Run(op, PreviewBody(name, d, scope, ids, emits), st);
            ShowsSoFar(name, d, m, ids, st, r)
  {
    if i > 0 {
      var k := i - 1;
      PreviewRuns(name, d, op, m, scope, k, emits, st);
      OrderStep(d, k);
      ScopeGrows(scope, Order(d), k);
      var done, id := Order(d)[..k], Order(d)[k];
      if id in scope { PreviewStep(name, d, op, m, scope, done, Filter(Within(scope), done), id, emits, st); }
    } else {
      assert Order(d)[..0] == [] && Filter(Within(scope), Order(d)[..0]) == [];
    }
  }

  lemma PreviewStep<V(!new)>(name: Naming, d: Document, op: Operators<V>, m: Frames<V>, scope: set<string>, done: seq<string>,
                             ids: seq<string>, id: string, emits: Emitters, st: Machine<V>)
    requires d.UniqueIds() && WellFormed(d) && d.Closed() && ScopeReady(d, scope) && st.declared == map[]
    requires MeansWithin(d, PassThrough(op), m, scope) && TablesHold(d, m, scope, st.tables)
    requires NamesApart(name, scope) && AllShown(name, d, scope, emits)
    requires StepReady(d, done, id) && id in scope && ids == Filter(Within(scope), done)
    requires var r := Run(op, PreviewBody(name, d, scope, ids, emits), st);
             ShowsSoFar(name, d, m, ids, st, r)
    ensures var r := Run(op, PreviewBody(name, d, scope, ids + [id], emits), st);
            ShowsSoFar(name, d, m, ids + [id], st, r)
  {
    var n := d.At(id);
    assert d.Has(id, n);
    var before := Run(op, PreviewBody(name, d, scope, ids, emits), st).value;
    FilterMembers(Within(scope), done);
    NamesApartSubset(name, Members(ids + [id]), scope);
    if !n.kind.Dataset? {
      forall e | e in d.edges && e.dst.node == id ensures e.src.node in scope && Serves(name, d, m, before.env, e) {
        assert Within(scope)(e.src.node);
        ShownServes(name, d, op, m, scope, ids, before.env, e);
      }
    }
    ExprShows(name, d, op, m, scope, n, emits, before.env, before.tables);
    ShowNext(name, d, op, m, scope, ids, id, emits, st);
  }

  /** Running one more assignment whose expression gives the right value. */
  lemma ShowNext<V(!new)>(name: Naming, d: Document, op: Operators<V>, m: Frames<V>, scope: set<string>, ids: seq<string>, id: string,
                          emits: Emitters, st: Machine<V>)
    requires id in d.Ids() && id !in ids && NamesApart(name, Members(ids + [id])) && PreviewAt(name, d, scope, id, emits).Emit?
    requires st.declared == map[]
    requires var r := Run(op, PreviewBody(name, d, scope, ids, emits), st);
             && ShowsSoFar(name, d, m, ids, st, r)
             && PortRef(id, Shown(d.KindAt(id))) in m
             && Eval(op, PreviewAt(name, d, scope, id, emits).expr, r.value.env, r.value.tables) == Some(m[PortRef(id, Shown(d.KindAt(id)))])
    ensures var r := Run(op, PreviewBody(name, d, scope, ids + [id], emits), st);
            ShowsSoFar(name, d, m, ids + [id], st, r)
  {
    assert (ids + [id])[..|ids|] == ids;
    AssignShows(name, d, op, m, ids, id, PreviewBody(name, d, scope, ids, emits), PreviewAt(name, d, scope, id, emits).expr, st);
  }

  lemma AssignShows<V(!new)>(name: Naming, d: Document, op: Operators<V>, m: Frames<V>, ids: seq<string>, id: string, body: seq<Line>,
                             expr: Expr, st: Machine<V>)
    requires id in d.Ids() && id !in ids && NamesApart(name, Members(ids + [id])) && st.declared == map[]
    requires var r := Run(op, body, st);
             && ShowsSoFar(name, d, m, ids, st, r)
             && PortRef(id, Shown(d.KindAt(id))) in m
             && Eval(op, expr, r.value.env, r.value.tables) == Some(m[PortRef(id, Shown(d.KindAt(id)))])
    ensures var r := Run(op, body + [Assign(name(id, None), expr, None)], st);
            ShowsSoFar(name, d, m, ids + [id], st, r)
  {
    RunThen(op, body, Assign(name(id, None), expr, None), st);
    ShowsGrows(name, d, m, ids, Run(op, body, st).value.env, id, m[PortRef(id, Shown(d.KindAt(id)))]);
  }

  lemma FeederIsNoSink(d: Document, u: string, root: string)
    requires WellFormed(d) && u in d.Ids() && Reaches(OpenArcs(d), u, root)
    ensures !d.KindAt(u).Sink?
  {
    var first, _ := ReachesEnds(OpenArcs(d), u, root);
    ArcMembers(d, u, first);
    var e :| e in d.edges && e.src.node == u;
    FeedsNoSink(d, e);
  }

  lemma NoSinkAbove(d: Document, root: string)
    requires WellFormed(d) && root in d.Ids() && !d.KindAt(root).Sink?
    ensures forall u :: u in PreviewScope(d, root) ==> !d.KindAt(u).Sink?
  {
    forall u | u in PreviewScope(d, root) ensures !d.KindAt(u).Sink? {
      if u != root { FeederIsNoSink(d, u, root); }
    }
  }

  lemma PreviewScopeReady(d: Document, root: string)
    requires d.UniqueIds() && WellFormed(d) && root in d.Ids() && !d.KindAt(root).Sink?
    ensures ScopeReady(d, PreviewScope(d, root)) && root in ScopeOrder(d, PreviewScope(d, root))
  {
    WellFormedIsClosed(d);
    ScopeClosed(d, {root});
    NoSinkAbove(d, root);
    InScopeOrder(d, PreviewScope(d, root), root);
  }

  /** The preview program never reads a variable before it is assigned. Against tables that hold the
      datasets of its scope, its frame is the root's output, computed as if splits passed every row on. */
  lemma PreviewShowsRoot<V(!new)>(d: Document, op: Operators<V>, m: Frames<V>, root: string, head: seq<Line>, tail: seq<Line>,
                                  emits: Emitters, st: Machine<V>)
    requires d.UniqueIds() && WellFormed(d) && d.Closed() && root in d.Ids() && !d.KindAt(root).Sink?
    requires SuffixesDistinct(PreviewScope(d, root)) && AllShown(Var, d, PreviewScope(d, root), emits)
    requires MeansWithin(d, PassThrough(op), m, PreviewScope(d, root)) && TablesHold(d, m, PreviewScope(d, root), st.tables)
    requires AllText(head) && AllText(tail) && st.declared == map[]
    ensures var r := Run(op, PreviewLines(Var, d, root, head, tail, emits), st);
            && PortRef(root, Shown(d.KindAt(root))) in m
            && r.Some? && FRAME in r.value.env && r.value.env[FRAME] == m[PortRef(root, Shown(d.KindAt(root)))]
  {
    VarNamesApart(PreviewScope(d, root));
    ProgramShows(Var, d, op, m, root, head, tail, emits, st);
  }

  lemma ProgramShows<V(!new)>(name: Naming, d: Document, op: Operators<V>, m: Frames<V>, root: string, head: seq<Line>, tail: seq<Line>,
                              emits: Emitters, st: Machine<V>)
    requires d.UniqueIds() && WellFormed(d) && d.Closed() && root in d.Ids() && !d.KindAt(root).Sink?
    requires NamesApart(name, PreviewScope(d, root)) && AllShown(name, d, PreviewScope(d, root), emits)
    requires MeansWithin(d, PassThrough(op), m, PreviewScope(d, root)) && TablesHold(d, m, PreviewScope(d, root), st.tables)
    requires AllText(head) && AllText(tail) && st.declared == map[]
    ensures var r := Run(op, PreviewLines(name, d, root, head, tail, emits), st);
            && PortRef(root, Shown(d.KindAt(root))) in m
            && r.Some? && FRAME in r.value.env && r.value.env[FRAME] == m[PortRef(root, Shown(d.KindAt(root)))]
  {
    var scope := PreviewScope(d, root);
    PreviewScopeReady(d, root);
    assert Order(d)[..|Order(d)|] == Order(d);
    PreviewRuns(name, d, op, m, scope, |Order(d)|, emits, st);
    FrameRuns(op, head, PreviewBody(name, d, scope, ScopeOrder(d, scope), emits), name(root, None), tail, st);
  }

  lemma FrameRuns<V(!new)>(op: Operators<V>, head: seq<Line>, body: seq<Line>, v: string, tail: seq<Line>, st: Machine<V>)
    requires AllText(head) && AllText(tail) && Run(op, body, st).Some? && v in Run(op, body, st).value.env
    ensures var r := Run(op, head + body + [Assign(FRAME, Copy(v), None)] + tail, st);
            r.Some? && FRAME in r.value.env && r.value.env[FRAME] == Run(op, body, st).value.env[v]
  {
    var show := Assign(FRAME, Copy(v), None);
    TextRuns(op, head, st);
    RunAppend(op, head, body, st);
    RunThen(op, head + body, show, st);
    TextRuns(op, tail, Run(op, head + body + [show], st).value);
    RunAppend(op, head + body + [show], tail, st);
  }

  /** The variable of a shown node holds whichever output an edge reads. */
  lemma ShownIsRead<V(!new)>(d: Document, op: Operators<V>, m: Frames<V>, scope: set<string>, e: Edge)
    requires d.UniqueIds() && WellFormed(d) && d.Closed() && MeansWithin(d, PassThrough(op), m, scope)
    requires e in d.edges && e.src.node in d.Ids() && e.src.node in scope && PortRef(e.src.node, Shown(d.KindAt(e.src.node))) in m
    ensures ReadKey(d, e) in m && m[ReadKey(d, e)] == m[PortRef(e.src.node, Shown(d.KindAt(e.src.node)))]
  {
    var s := d.At(e.src.node);
    assert d.Has(e.src.node, s);
    ReadKeyIsOutput(d, e);
    if s.kind.Split? {
      RequiredInput(d, s, In);
      assert Equation(d, PassThrough(op), m, s);
      assert In in Inputs(d, s, m);
    }
  }

  /** The root of a request: the node itself, or the input of a dataset or sink. */
  lemma RootFacts(d: Document, id: string)
    requires d.UniqueIds() && WellFormed(d) && d.Closed() && id in d.Ids()
    ensures d.KindAt(id).IsDefinition() ==> Incoming(d, id) != [] && Connected(d, id, In) && InEdge(d, id, In) in d.edges
    ensures RootOf(d, id) == if d.KindAt(id).IsDefinition() then InEdge(d, id, In).src.node else id
    ensures RootOf(d, id) in d.Ids() && !d.KindAt(RootOf(d, id)).Sink?
    ensures PreviewScope(d, RootOf(d, id)) == RebuiltFor(d, id)
  {
    if d.KindAt(id).IsDefinition() {
      DefinitionScopeReady(d, id);
      DefinitionInput(d, d.At(id));
      var e := InEdge(d, id, In);
      EdgePorts(d, e);
      assert Sources(d, id) == {e.src.node};
    }
  }

  /** Every dataset that is read lies strictly upstream of the node that is shown. */
  lemma ReadsAbove(d: Document, id: string, u: string)
    requires d.UniqueIds() && WellFormed(d) && d.Closed() && id in d.Ids()
    requires u in RebuiltFor(d, id) && d.KindAt(u).Dataset?
    ensures u in Above(d, id)
  {
    RootFacts(d, id);
    var root := RootOf(d, id);
    assert Feeds(OpenArcs(d), u, root);
    if u != root { WalksInLarger(OpenArcs(d), d.Arcs(), u, root); }
    if d.KindAt(id).IsDefinition() {
      ArcMembers(d, root, id);
      ReachesThenStep(d.Arcs(), u, root, id);
    }
  }

  lemma TablesAbove<V(!new)>(d: Document, m: Frames<V>, id: string, tables: map<string, V>)
    requires d.UniqueIds() && WellFormed(d) && d.Closed() && id in d.Ids() && TablesHold(d, m, Above(d, id), tables)
    ensures TablesHold(d, m, RebuiltFor(d, id), tables)
  {
    forall u | u in RebuiltFor(d, id) && u in d.Ids() && d.KindAt(u).Dataset? ensures u in Above(d, id) { ReadsAbove(d, id, u); }
  }

  /** Every dataset is read from its current snapshot, also a streaming table. */
  lemma {:induction false} ReadsSnapshots(name: Naming, d: Document, scope: set<string>, ids: seq<string>, emits: Emitters)
    ensures forall line :: line in PreviewBody(name, d, scope, ids, emits) ==>
              line.Assign? && (line.expr.Table? ==> !line.expr.streaming)
  {
    if ids != [] { ReadsSnapshots(name, d, scope, ids[..|ids| - 1], emits); }
  }

  /** No line of a preview reads a stream of a dataset. */
  lemma PreviewReadsSnapshots(d: Document, id: string, head: seq<Line>, tail: seq<Line>, emits: Emitters, lines: seq<Line>)
    requires IsPreview(d, id, head, tail, emits, lines) && AllText(head) && AllText(tail)
    ensures forall line :: line in lines && line.Assign? && line.expr.Table? ==> !line.expr.streaming
  {
    var root :| HasRoot(d, id, root) && lines == PreviewLines(Var, d, root, head, tail, emits);
    var scope := PreviewScope(d, root);
    ReadsSnapshots(Var, d, scope, ScopeOrder(d, scope), emits);
    var body, show := PreviewBody(Var, d, scope, ScopeOrder(d, scope), emits), Assign(FRAME, Copy(Var(root, None)), None);
    forall line | line in lines && line.Assign? && line.expr.Table? ensures !line.expr.streaming {
      assert line in head || line in body || line == show || line in tail;
    }
  }

  /** A program printed for a request shows the requested node, datasets and sinks included, rebuilt from the
      tables of the datasets strictly upstream, as if splits passed every row on. */
  lemma PreviewShowsNode<V(!new)>(d: Document, op: Operators<V>, m: Frames<V>, id: string, head: seq<Line>, tail: seq<Line>,
                                  emits: Emitters, lines: seq<Line>, st: Machine<V>)
    requires d.UniqueIds() && WellFormed(d) && d.Closed() && IsPreview(d, id, head, tail, emits, lines)
    requires SuffixesDistinct(RebuiltFor(d, id)) && AllShown(Var, d, RebuiltFor(d, id), emits)
    requires MeansWithin(d, PassThrough(op), m, RebuiltFor(d, id)) && TablesHold(d, m, Above(d, id), st.tables)
    requires d.KindAt(id).IsDefinition() ==> Equation(d, PassThrough(op), m, d.At(id))
    requires AllText(head) && AllText(tail) && st.declared == map[]
    ensures var r := Run(op, lines, st);
            && PortRef(id, Shown(d.KindAt(id))) in m
            && r.Some? && FRAME in r.value.env && r.value.env[FRAME] == m[PortRef(id, Shown(d.KindAt(id)))]
  {
    RootFacts(d, id);
    var root := RootOf(d, id);
    TablesAbove(d, m, id, st.tables);
    PreviewShowsRoot(d, op, m, root, head, tail, emits, st);
    if d.KindAt(id).IsDefinition() {
      assert Feeds(OpenArcs(d), root, root) && root in PreviewScope(d, root);
      ShownIsRead(d, op, m, PreviewScope(d, root), InEdge(d, id, In));
    }
  }

  lemma RebuiltHasNoSink(d: Document, id: string, u: string)
    requires d.UniqueIds() && WellFormed(d) && d.Closed() && id in d.Ids() && u in RebuiltFor(d, id)
    ensures u in d.Ids() && !d.KindAt(u).Sink?
  {
    RootFacts(d, id);
    PreviewScopeReady(d, RootOf(d, id));
  }

  /** Without splits among what is rebuilt the preview of a node shows exactly what the node denotes. */
  lemma PreviewIsMeaning<V(!new)>(d: Document, op: Operators<V>, m: Frames<V>, id: string, head: seq<Line>, tail: seq<Line>,
                                  emits: Emitters, lines: seq<Line>, st: Machine<V>)
    requires d.UniqueIds() && WellFormed(d) && d.Closed() && IsPreview(d, id, head, tail, emits, lines)
    requires SuffixesDistinct(RebuiltFor(d, id)) && AllShown(Var, d, RebuiltFor(d, id), emits)
    requires IsMeaning(d, op, m) && TablesHold(d, m, Above(d, id), st.tables)
    requires forall u :: u in RebuiltFor(d, id) ==> !d.KindAt(u).Split?
    requires AllText(head) && AllText(tail) && st.declared == map[]
    ensures var r := Run(op, lines, st);
            && PortRef(id, Out) in m && r.Some? && FRAME in r.value.env && r.value.env[FRAME] == m[PortRef(id, Out)]
  {
    assert d.Has(id, d.At(id)) && Equation(d, op, m, d.At(id));
    forall n | n in d.nodes && n.id in RebuiltFor(d, id) && !n.kind.Dataset? ensures Equation(d, PassThrough(op), m, n) {
      RebuiltHasNoSink(d, id, n.id);
      AtUnique(d, n);
    }
    PreviewShowsNode(d, op, m, id, head, tail, emits, lines, st);
    RootFacts(d, id);
    if !d.KindAt(id).IsDefinition() { assert Feeds(OpenArcs(d), id, id) && id in RebuiltFor(d, id); }
  }

  lemma InputScope(d: Document, root: string, u: string)
    requires d.Closed() && root in d.Ids() && (u, root) in OpenArcs(d)
    ensures u in PreviewScope(d, root) && PreviewScope(d, u) <= PreviewScope(d, root)
  {
    ReachesThenStep(OpenArcs(d), u, u, root);
    forall x | x in PreviewScope(d, u) ensures x in PreviewScope(d, root) { ReachesThenStep(OpenArcs(d), x, u, root); }
  }

  /** Nodes that can be shown in a scope can be shown in the scope of one of them. */
  lemma ShownWithin(name: Naming, d: Document, root: string, u: string, emits: Emitters)
    requires d.UniqueIds() && WellFormed(d) && d.Closed() && root in d.Ids() && u in d.Ids()
    requires !d.KindAt(root).Sink? && !d.KindAt(u).Sink? && PreviewScope(d, u) <= PreviewScope(d, root)
    requires AllShown(name, d, PreviewScope(d, root), emits)
    ensures AllShown(name, d, PreviewScope(d, u), emits)
  {
    PreviewScopeReady(d, root);
    PreviewScopeReady(d, u);
    forall x | x in PreviewScope(d, u) ensures x in d.Ids() && PreviewAt(name, d, PreviewScope(d, u), x, emits).Emit? {
      assert d.Has(x, d.At(x));
      ShownExactly(name, d, PreviewScope(d, root), d.At(x), emits);
      ShownExactly(name, d, PreviewScope(d, u), d.At(x), emits);
    }
  }

  /** The preview of the input shows what a preview of the node is built from. */
  lemma InputShown<V(!new)>(d: Document, op: Operators<V>, m: Frames<V>, root: string, e: Edge, head: seq<Line>, tail: seq<Line>,
                            emits: Emitters, st: Machine<V>)
    requires d.UniqueIds() && WellFormed(d) && d.Closed() && root in d.Ids() && !d.KindAt(root).IsDefinition()
    requires SuffixesDistinct(PreviewScope(d, root)) && AllShown(Var, d, PreviewScope(d, root), emits)
    requires MeansWithin(d, PassThrough(op), m, PreviewScope(d, root)) && TablesHold(d, m, PreviewScope(d, root), st.tables)
    requires AllText(head) && AllText(tail) && st.declared == map[] && e in d.edges && e.dst.node == root && e.src.node in d.Ids()
    ensures var u := e.src.node;
            var r := Run(op, PreviewLines(Var, d, u, head, tail, emits), st);
            && u in PreviewScope(d, root) && PortRef(u, Shown(d.KindAt(u))) in m
            && r.Some? && FRAME in r.value.env && r.value.env[FRAME] == m[PortRef(u, Shown(d.KindAt(u)))]
  {
    var u := e.src.node;
    ArcMembers(d, u, root);
    InputScope(d, root, u);
    EdgePorts(d, e);
    ShownWithin(Var, d, root, u, emits);
    PreviewShowsRoot(d, op, m, u, head, tail, emits, st);
  }

  /** Whatever is upstream, previewing a split shows exactly what previewing its input shows. */
  lemma SplitShowsItsInput<V(!new)>(d: Document, op: Operators<V>, m: Frames<V>, root: string, head: seq<Line>, tail: seq<Line>,
                                    emits: Emitters, st: Machine<V>)
    requires d.UniqueIds() && WellFormed(d) && d.Closed() && root in d.Ids() && d.KindAt(root).Split? && Connected(d, root, In)
    requires SuffixesDistinct(PreviewScope(d, root)) && AllShown(Var, d, PreviewScope(d, root), emits)
    requires MeansWithin(d, PassThrough(op), m, PreviewScope(d, root)) && TablesHold(d, m, PreviewScope(d, root), st.tables)
    requires AllText(head) && AllText(tail) && st.declared == map[]
    ensures var split := Run(op, PreviewLines(Var, d, root, head, tail, emits), st);
            var input := Run(op, PreviewLines(Var, d, InEdge(d, root, In).src.node, head, tail, emits), st);
            && split.Some? && input.Some? && FRAME in split.value.env && FRAME in input.value.env
            && split.value.env[FRAME] == input.value.env[FRAME]
  {
    var e := InEdge(d, root, In);
    InputShown(d, op, m, root, e, head, tail, emits, st);
    PreviewShowsRoot(d, op, m, root, head, tail, emits, st);
    assert Feeds(OpenArcs(d), root, root) && root in PreviewScope(d, root);
    SplitPassesOn(d, op, m, PreviewScope(d, root), e);
  }

  /** The outputs of a split that passes everything on are what it reads. */
  lemma SplitPassesOn<V(!new)>(d: Document, op: Operators<V>, m: Frames<V>, scope: set<string>, e: Edge)
    requires d.UniqueIds() && WellFormed(d) && d.Closed() && e in d.edges && MeansWithin(d, PassThrough(op), m, scope)
    requires e.dst.node in d.Ids() && d.KindAt(e.dst.node).Split? && Connected(d, e.dst.node, In) && e == InEdge(d, e.dst.node, In)
    requires e.src.node in d.Ids() && e.src.node in scope && e.dst.node in scope
    requires PortRef(e.src.node, Shown(d.KindAt(e.src.node))) in m
    ensures PortRef(e.dst.node, Accepted) in m
    ensures m[PortRef(e.dst.node, Accepted)] == m[PortRef(e.src.node, Shown(d.KindAt(e.src.node)))]
  {
    var n, s := d.At(e.dst.node), d.At(e.src.node);
    assert d.Has(n.id, n) && d.Has(s.id, s) && Equation(d, PassThrough(op), m, n);
    assert In in Inputs(d, n, m) && Inputs(d, n, m)[In] == m[ReadKey(d, e)];
    ReadKeyIsOutput(d, e);
    if s.kind.Split? {
      assert Equation(d, PassThrough(op), m, s);
      RequiredInput(d, s, In);
      assert In in Inputs(d, s, m);
    }
  }

  /** The preview of a split shows its input, unfiltered. */
  lemma SplitPreviewIsUnfiltered<V(!new)>(d: Document, op: Operators<V>, m: Frames<V>, root: string, head: seq<Line>, tail: seq<Line>,
                                          emits: Emitters, st: Machine<V>)
    requires d.UniqueIds() && WellFormed(d) && d.Closed() && root in d.Ids() && d.KindAt(root).Split? && Connected(d, root, In)
    requires SuffixesDistinct(PreviewScope(d, root)) && AllShown(Var, d, PreviewScope(d, root), emits)
    requires IsMeaning(d, op, m) && TablesHold(d, m, PreviewScope(d, root), st.tables)
    requires forall u :: u in PreviewScope(d, root) && u != root ==> !d.KindAt(u).Split?
    requires AllText(head) && AllText(tail) && st.declared == map[]
    ensures var r := Run(op, PreviewLines(Var, d, root, head, tail, emits), st);
            var input := ReadKey(d, InEdge(d, root, In));
            && input in m && r.Some? && FRAME in r.value.env && r.value.env[FRAME] == m[input]
  {
    var m' := UnfilteredFrames(d, op, m, root);
    PreviewShowsRoot(d, op, m', root, head, tail, emits, st);
  }

  /** The frames when the split passes its input on. */
  lemma UnfilteredFrames<V(!new)>(d: Document, op: Operators<V>, m: Frames<V>, root: string) returns (m': Frames<V>)
    requires d.UniqueIds() && WellFormed(d) && d.Closed() && root in d.Ids() && d.KindAt(root).Split? && Connected(d, root, In)
    requires IsMeaning(d, op, m) && forall u :: u in PreviewScope(d, root) && u != root ==> !d.KindAt(u).Split?
    ensures MeansWithin(d, PassThrough(op), m', PreviewScope(d, root))
    ensures ReadKey(d, InEdge(d, root, In)) in m && PortRef(root, Accepted) in m'
    ensures m'[PortRef(root, Accepted)] == m[ReadKey(d, InEdge(d, root, In))]
    ensures forall k :: k in m && k.node != root ==> k in m' && m'[k] == m[k]
  {
    assert d.Has(root, d.At(root)) && Equation(d, op, m, d.At(root));
    var x := m[ReadKey(d, InEdge(d, root, In))];
    m' := m[PortRef(root, Accepted) := x][PortRef(root, Quarantine) := x];
    UnfilteredEquations(d, op, m, m', root);
  }

  lemma UnfilteredEquations<V(!new)>(d: Document, op: Operators<V>, m: Frames<V>, m': Frames<V>, root: string)
    requires d.UniqueIds() && WellFormed(d) && d.Closed() && root in d.Ids() && d.KindAt(root).Split? && Connected(d, root, In)
    requires IsMeaning(d, op, m) && forall u :: u in PreviewScope(d, root) && u != root ==> !d.KindAt(u).Split?
    requires ReadKey(d, InEdge(d, root, In)) in m
    requires m' == m[PortRef(root, Accepted) := m[ReadKey(d, InEdge(d, root, In))]][PortRef(root, Quarantine) := m[ReadKey(d, InEdge(d, root, In))]]
    ensures MeansWithin(d, PassThrough(op), m', PreviewScope(d, root))
  {
    forall n | n in d.nodes && n.id in PreviewScope(d, root) && !n.kind.Dataset? ensures Equation(d, PassThrough(op), m', n) {
      AtUnique(d, n);
      NotReadInScope(d, root, n);
      SplitEquation(d, op, m, m', root, n);
    }
  }

  /** No node of the scope reads the root. */
  lemma NotReadInScope(d: Document, root: string, n: Node)
    requires d.UniqueIds() && WellFormed(d) && d.Closed() && root in d.Ids() && n in d.nodes && n.id in PreviewScope(d, root)
    ensures forall e :: e in d.edges && e.dst.node == n.id ==> e.src.node != root
  {
    assert !OnCycle(d.Arcs(), root);
    forall e | e in d.edges && e.dst.node == n.id ensures e.src.node != root {
      if e.src.node == root {
        ArcMembers(d, root, n.id);
        assert Feeds(OpenArcs(d), n.id, root);
        if n.id != root { WalksInLarger(OpenArcs(d), d.Arcs(), n.id, root); }
        StepThenReaches(d.Arcs(), root, n.id, root);
        assert false;
      }
    }
  }

  lemma SplitEquation<V(!new)>(d: Document, op: Operators<V>, m: Frames<V>, m': Frames<V>, root: string, n: Node)
    requires d.Closed() && n in d.nodes && n.id in d.Ids() && d.At(n.id) == n && Equation(d, op, m, n)
    requires forall e :: e in d.edges && e.dst.node == n.id ==> e.src.node != root
    requires forall k :: k in m && k.node != root ==> k in m' && m'[k] == m[k]
    requires n.kind.Split? ==> n.id == root
    requires n.id == root ==> n.kind.Split? && Connected(d, root, In) && m' == m[PortRef(root, Accepted) := m[ReadKey(d, InEdge(d, root, In))]][PortRef(root, Quarantine) := m[ReadKey(d, InEdge(d, root, In))]]
    ensures Equation(d, PassThrough(op), m', n)
  {
    forall p | Connected(d, n.id, p) ensures ReadKey(d, InEdge(d, n.id, p)).node != root {
      assert InEdge(d, n.id, p) in d.edges;
    }
    assert Inputs(d, n, m') == Inputs(d, n, m);
  }

  // ---- generate_preview_script ----

  /** The nodes no preview can be printed for. */
  predicate Unshown(n: Node, emits: Emitters) {
    || n.kind.ComponentInput? || n.kind == Utility("parameter") || n.kind == Utility("constant")
    || (!n.kind.Dataset? && !n.kind.Split? && n.kind != Utility("note") && !emits(n.kind, n.config).Prints?)
  }

  lemma ShownExactly(name: Naming, d: Document, scope: set<string>, n: Node, emits: Emitters)
    requires d.UniqueIds() && WellFormed(d) && n in d.nodes && !n.kind.Sink?
    requires !n.kind.Dataset? ==> forall e :: e in d.edges && e.dst.node == n.id ==> e.src.node in scope
    ensures n.id in d.Ids() && PreviewAt(name, d, scope, n.id, emits).Emit? <==> !Unshown(n, emits)
  {
    AtUnique(d, n);
    assert NodeOk(n);
    if !n.kind.Dataset? { VarsFound(name, d, scope, n.id); }
    PortsFed(d, n);
  }

  predicate NeedsMaterializing(n: Node) {
    n.kind == Source("kafka") || (n.kind.Source? && Flag(n.config, "streaming"))
  }

  /** Nothing rebuilt for the node is a streaming source. */
  ghost predicate Materialized(d: Document, id: string)
    requires id in d.Ids()
  {
    forall u :: u in RebuiltFor(d, id) && u in d.Ids() ==>
      d.KindAt(u) != Source("kafka") && !(d.KindAt(u).Source? && Flag(d.At(u).config, "streaming"))
  }

  /** The request passes every check made before printing starts. */
  ghost predicate Previewable(d: Document, q: Request) {
    && WellFormed(d) && q.node in d.Ids()
    && 1 <= q.limit <= 200 && 0.0 < q.fraction <= 1.0 && 0 <= q.seed
    && 1 <= q.profileRows <= 100_000 && 1 <= q.profileColumns <= 1_000 && 0 <= q.topValues <= 100
    && (d.KindAt(q.node).Sink? ==> q.confirmed) && Materialized(d, q.node)
  }

  method AnyStreamingSource(index: map<string, Node>, scope: set<string>) returns (any: bool)
    requires scope <= index.Keys
    ensures any <==> exists u :: u in scope && NeedsMaterializing(index[u])
  {
    any := false;
    var left := scope;
    while left != {}
      invariant left <= scope
      invariant any <==> exists u :: u in scope - left && NeedsMaterializing(index[u])
      decreases left
    {
      var u :| u in left;
      if NeedsMaterializing(index[u]) { any := true; }
      left := left - {u};
      assert scope - left == (scope - left - {u}) + {u};
    }
    assert scope - left == scope;
  }

  lemma PlainVarsGrow(name: Naming, es: seq<Edge>, e: Edge)
    ensures PlainVars(name, es + [e]) == PlainVars(name, es)[e.dst.port := name(e.src.node, None)]
    ensures PlainVars(name, es + []) == PlainVars(name, es)
  {
    assert (es + [e])[..|es|] == es && es + [] == es;
  }

  method CollectVars(name: Naming, es: seq<Edge>, scope: set<string>) returns (parents: map<Port, string>)
    ensures parents == PlainVars(name, Filter(FromScope(scope), es))
  {
    parents := map[];
    assert Filter(FromScope(scope), es[..0]) == [];
    for i := 0 to |es|
      invariant parents == PlainVars(name, Filter(FromScope(scope), es[..i]))
    {
      FilterSplitsAt(FromScope(scope), es, i);
      PlainVarsGrow(name, Filter(FromScope(scope), es[..i]), es[i]);
      if es[i].src.node in scope {
        parents := parents[es[i].dst.port := name(es[i].src.node, None)];
      }
    }
    assert es[..|es|] == es;
  }

  /** What the emission loop has built after ids. */
  ghost predicate Emitted(name: Naming, d: Document, scope: set<string>, ids: seq<string>, emits: Emitters, lines: seq<Line>) {
    && lines == PreviewBody(name, d, scope, ids, emits)
    && forall id :: id in ids && id in d.Ids() ==> PreviewAt(name, d, scope, id, emits).Emit?
  }

  lemma EmittedGrows(name: Naming, d: Document, scope: set<string>, ids: seq<string>, i: nat, emits: Emitters, lines: seq<Line>,
                     expr: Expr)
    requires i < |ids| && ids[i] in d.Ids() && PreviewAt(name, d, scope, ids[i], emits) == Emit(expr)
    requires Emitted(name, d, scope, ids[..i], emits, lines)
    ensures Emitted(name, d, scope, ids[..i + 1], emits, lines + [Assign(name(ids[i], None), expr, None)])
  {
    assert ids[..i + 1] == ids[..i] + [ids[i]] && ids[..i + 1][..i] == ids[..i];
  }

  method EmitExpr(name: Naming, d: Document, index: map<string, Node>, scope: set<string>, id: string, emits: Emitters)
    returns (outcome: Outcome)
    requires id in index && id in d.Ids() && index[id] == d.At(id)
    ensures outcome == PreviewAt(name, d, scope, id, emits)
  {
    var parents := CollectVars(name, Sort(ByPort, Incoming(d, id)), scope);
    outcome := PreviewExpr(index[id], parents, emits);
  }

  /** The emission loop. */
  method EmitPreview(name: Naming, d: Document, index: map<string, Node>, scope: set<string>, ids: seq<string>, emits: Emitters)
    returns (r: Script)
    requires index.Keys == d.Ids() && (forall id :: id in index ==> index[id] == d.At(id))
    requires forall id :: id in ids ==> id in d.Ids()
    ensures !r.Rejected? && (r.Script? <==> forall id :: id in ids ==> PreviewAt(name, d, scope, id, emits).Emit?)
    ensures r.Script? ==> r.lines == PreviewBody(name, d, scope, ids, emits)
  {
    var lines := [];
    for i := 0 to |ids|
      invariant Emitted(name, d, scope, ids[..i], emits, lines)
    {
      var id := ids[i];
      assert id in ids;
      var outcome := EmitExpr(name, d, index, scope, id, emits);
      if !outcome.Emit? { return Escaped; }
      EmittedGrows(name, d, scope, ids, i, emits, lines, outcome.expr);
      lines := lines + [Assign(name(id, None), outcome.expr, None)];
    }
    assert ids[..|ids|] == ids;
    r := Script(lines);
  }

  /** `_preview_scope`; None for a definition without an input. */
  method FindScope(d: Document, index: map<string, Node>, id: string) returns (r: Option<(set<string>, string)>)
    requires d.UniqueIds() && d.Closed() && id in d.Ids()
    requires index.Keys == d.Ids() && forall x :: x in index ==> index[x] == d.At(x)
    ensures r.None? <==> d.KindAt(id).IsDefinition() && Incoming(d, id) == []
    ensures r.Some? ==> r.value.1 == if d.KindAt(id).IsDefinition() then Incoming(d, id)[0].src.node else id
    ensures r.Some? ==> r.value.0 == Scope(d, {r.value.1}) && r.value.0 <= d.Ids()
  {
    var root := id;
    if index[id].kind.IsDefinition() {
      if Incoming(d, id) == [] { return None; }
      IncomingMembers(d, id);
      assert Incoming(d, id)[0] in Incoming(d, id);
      root := Incoming(d, id)[0].src.node;
    }
    var scope := CollectScope(d, [root]);
    assert Members([root]) == {root};
    r := Some((scope, root));
  }

  /** The program for a root and its scope. */
  method PrintPreview(name: Naming, d: Document, index: map<string, Node>, scope: set<string>, root: string, head: seq<Line>,
                      tail: seq<Line>, emits: Emitters) returns (r: Script)
    requires d.UniqueIds() && WellFormed(d) && d.Closed() && scope == PreviewScope(d, root) && scope <= d.Ids()
    requires index.Keys == d.Ids() && forall x :: x in index ==> index[x] == d.At(x)
    ensures if AllShown(name, d, scope, emits) then r == Script(PreviewLines(name, d, root, head, tail, emits)) else r.Escaped?
  {
    ShortOrderMeansCycle(d);
    var order := TopologicalOrder(d);
    var ids := Filter(Within(scope), order.value);
    FilterMembers(Within(scope), order.value);
    forall id ensures id in ids <==> id in scope { assert Within(scope)(id) <==> id in scope; }
    var body := EmitPreview(name, d, index, scope, ids, emits);
    r := if body.Script? then Script(head + body.lines + [Assign(FRAME, Copy(name(root, None)), None)] + tail) else body;
  }

  /** The checks on a request to a valid document that need its scope. */
  method FindRebuilt(d: Document, index: map<string, Node>, q: Request) returns (r: Option<(set<string>, string)>)
    requires d.UniqueIds() && WellFormed(d) && d.Closed() && q.node in d.Ids()
    requires index.Keys == d.Ids() && forall x :: x in index ==> index[x] == d.At(x)
    ensures r.Some? <==> Materialized(d, q.node) && ProfileWithinBounds(q)
    ensures r.Some? ==> r.value.0 == RebuiltFor(d, q.node) && HasRoot(d, q.node, r.value.1) && r.value.0 <= d.Ids()
  {
    RootFacts(d, q.node);
    var found := FindScope(d, index, q.node);
    if found.None? { return None; }
    var streaming := AnyStreamingSource(index, found.value.0);
    r := if streaming || !ProfileWithinBounds(q) then None else found;
  }

  /** Some program printed for a request compiles. */
  ghost predicate Compilable(d: Document, id: string, head: seq<Line>, tail: seq<Line>, emits: Emitters, compiles: seq<Line> -> bool) {
    exists lines :: IsPreview(d, id, head, tail, emits, lines) && compiles(lines)
  }

  /** Print the program and compile it. */
  method CompilePreview(d: Document, index: map<string, Node>, id: string, scope: set<string>, root: string, head: seq<Line>,
                        tail: seq<Line>, emits: Emitters, compiles: seq<Line> -> bool) returns (r: Script)
    requires d.UniqueIds() && WellFormed(d) && d.Closed() && id in d.Ids() && scope == RebuiltFor(d, id) && HasRoot(d, id, root)
    requires scope <= d.Ids() && index.Keys == d.Ids() && forall x :: x in index ==> index[x] == d.At(x)
    ensures r.Script? <==> AllShown(Var, d, RebuiltFor(d, id), emits) && Compilable(d, id, head, tail, emits, compiles)
    ensures r.Script? ==> IsPreview(d, id, head, tail, emits, r.lines)
    ensures r.Escaped? <==> !AllShown(Var, d, RebuiltFor(d, id), emits)
  {
    RootFacts(d, id);
    r := PrintPreview(Var, d, index, scope, root, head, tail, emits);
    if r.Script? {
      assert IsPreview(d, id, head, tail, emits, r.lines);
      if !compiles(r.lines) { r := Rejected; }
    }
  }

  /** `generate_preview_script`. A program is printed exactly for the requests that pass every check, whose
      scope holds only nodes with an expression and whose program compiles; an exception escapes when a node
      of the scope has no expression. */
  method GeneratePreview(d: Document, q: Request, head: seq<Line>, tail: seq<Line>, emits: Emitters, compiles: seq<Line> -> bool)
    returns (r: Script)
    requires d.UniqueIds()
    ensures r.Script? <==>
            && Previewable(d, q) && AllShown(Var, d, RebuiltFor(d, q.node), emits)
            && Compilable(d, q.node, head, tail, emits, compiles)
    ensures r.Script? ==> IsPreview(d, q.node, head, tail, emits, r.lines)
    ensures r.Escaped? <==>
            || (exists e :: e in d.edges && e.src.node in Order(d) && e.dst.node !in d.Ids())
            || (Previewable(d, q) && !AllShown(Var, d, RebuiltFor(d, q.node), emits))
  {
    if WellFormed(d) { WellFormedIsClosed(d); }
    var checked := ValidateGraph(d);
    if checked.Failure? { return Escaped; }
    var index := NodeMap(d.nodes);
    NodeMapIsAt(d);
    if q.node !in index || !WithinBounds(q) || (index[q.node].kind.Sink? && !q.confirmed) || checked.value != [] {
      return Rejected;
    }
    var found := FindRebuilt(d, index, q);
    if found.None? { return Rejected; }
    r := CompilePreview(d, index, q.node, found.value.0, found.value.1, head, tail, emits, compiles);
  }
}
