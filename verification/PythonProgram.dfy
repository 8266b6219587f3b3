/** Generated Python as lines, and a machine that runs them against a table store. */
module PythonProgram {
  import opened Documents
  import opened Meaning
  import opened PythonNames

  /** The dataframe expressions the emitters print. */
  datatype Expr =
    | Read(kind: Kind, config: Config)
    | Table(name: string, streaming: bool)
    | Apply(kind: Kind, config: Config, args: map<Port, string>, port: Port)
    | Copy(source: string)

  /** A generated line. Def is the signature of the function FunctionName(flow, output); the value of an
      Assign passes through the runtime check of the node, if one is given. */
  datatype Line =
    | Text(text: string)
    | RegionStart(node: string, custom: bool)
    | RegionEnd
    | SinkDeclaration(name: string)
    | Decorator(attr: string, name: string)
    | Def(flow: bool, output: string)
    | RaiseEmpty
    | CheckAppend(node: string)
    | Assign(v: string, expr: Expr, check: Option<string>)
    | CapturePlan(node: string, v: string)
    | Return(v: string)

  function FunctionName(flow: bool, output: string): string {
    (if flow then "flow_" else "") + Identifier(output)
  }

  /** What is noted about nodes: the quality checks registered, the frames they are run on, and the frames
      whose plans are captured. */
  datatype Notes<V> = Notes(checks: set<string>, tested: map<string, V>, plans: map<string, V>)

  /** tables: the store of datasets; declared: what the pipeline registry holds under each name; target: the
      dataset being defined; env: its local variables. */
  datatype Machine<V> = Machine(tables: map<string, V>, declared: map<string, Kind>, notes: Notes<V>, target: string,
                                env: map<string, V>)

  /** What an attribute of the pipelines module declares. */
  function DeclaredBy(attr: string): Option<Kind> {
    match attr
    case "materialized_view" => Some(Dataset("materialized_view"))
    case "table" => Some(Dataset("streaming_table"))
    case "temporary_view" => Some(Dataset("temporary_view"))
    case "create_auto_cdc_flow" => Some(Dataset("auto_cdc_scd1"))
    case _ => None
  }

  /** The registry after a decorator: a flow needs a sink that was created before; None when the module has no
      such attribute. */
  function Registered(declared: map<string, Kind>, attr: string, name: string): Option<map<string, Kind>> {
    if attr == "append_flow" then if name in declared && declared[name] == Sink("external") then Some(declared) else None
    else if DeclaredBy(attr).Some? then Some(declared[name := DeclaredBy(attr).value])
    else None
  }

  /** A streaming table is read as a stream and any other declared dataset is not. */
  predicate ReadsAsDeclared(declared: map<string, Kind>, expr: Expr) {
    expr.Table? && expr.name in declared ==> (expr.streaming <==> declared[expr.name] == Dataset("streaming_table"))
  }

  /** None when the expression reads an unassigned variable or a missing table. */
  function Eval<V(!new)>(op: Operators<V>, expr: Expr, env: map<string, V>, tables: map<string, V>): Option<V> {
    match expr
    case Read(kind, config) => Some(op(kind, config, map[], Out))
    case Table(name, _) => if name in tables then Some(tables[name]) else None
    case Apply(kind, config, args, port) =>
      if forall p :: p in args ==> args[p] in env
      then Some(op(kind, config, map p | p in args :: env[args[p]], port))
      else None
    case Copy(v) => if v in env then Some(env[v]) else None
  }

  /** The notes after a value passes through the check of a node, if any. */
  function Tested<V>(notes: Notes<V>, check: Option<string>, value: V): Notes<V> {
    if check.Some? then notes.(tested := notes.tested[check.value := value]) else notes
  }

  /** One line; None when it raises. */
  function Step<V(!new)>(op: Operators<V>, line: Line, st: Machine<V>): Option<Machine<V>> {
    match line
    case SinkDeclaration(name) => Some(st.(declared := st.declared[name := Sink("external")]))
    case Decorator(attr, name) =>
      var declared := Registered(st.declared, attr, name);
      if declared.None? then None else Some(st.(declared := declared.value, target := name))
    case Def(_, _) => Some(st.(env := map[]))
    case RaiseEmpty => None
    case CheckAppend(node) => Some(st.(notes := st.notes.(checks := st.notes.checks + {node})))
    case Assign(v, expr, check) =>
      var value := Eval(op, expr, st.env, st.tables);
      if value.None? || !ReadsAsDeclared(st.declared, expr) then None
      else Some(st.(env := st.env[v := value.value], notes := Tested(st.notes, check, value.value)))
    case CapturePlan(node, v) =>
      if v in st.env then Some(st.(notes := st.notes.(plans := st.notes.plans[node := st.env[v]]))) else None
    case Return(v) => if v in st.env then Some(st.(tables := st.tables[st.target := st.env[v]])) else None
    case _ => Some(st)
  }

  /** Execute the definitions line by line, as the pipeline runtime evaluates them in order. */
  function Run<V(!new)>(op: Operators<V>, lines: seq<Line>, st: Machine<V>): Option<Machine<V>> {
    if lines == [] then Some(st)
    else
      var next := Step(op, lines[0], st);
      if next.None? then None else Run(op, lines[1..], next.value)
  }

  lemma {:induction false} RunAppend<V(!new)>(op: Operators<V>, a: seq<Line>, b: seq<Line>, st: Machine<V>)
    ensures Run(op, a + b, st) ==
            if Run(op, a, st).None? then None else Run(op, b, Run(op, a, st).value)
  {
    if a == [] {
      assert a + b == b;
    } else {
      assert (a + b)[0] == a[0] && (a + b)[1..] == a[1..] + b;
      var next := Step(op, a[0], st);
      if next.Some? { RunAppend(op, a[1..], b, next.value); }
    }
  }

  lemma RunOne<V(!new)>(op: Operators<V>, line: Line, st: Machine<V>)
    ensures Run(op, [line], st) == Step(op, line, st)
  {
    assert [line][1..] == [];
    var next := Step(op, line, st);
    if next.Some? { assert Run(op, [], next.value) == next; }
  }

  lemma RunThen<V(!new)>(op: Operators<V>, a: seq<Line>, line: Line, st: Machine<V>)
    ensures Run(op, a + [line], st) ==
            if Run(op, a, st).None? then None else Step(op, line, Run(op, a, st).value)
  {
    RunAppend(op, a, [line], st);
    if Run(op, a, st).Some? { RunOne(op, line, Run(op, a, st).value); }
  }

  ghost predicate AllText(lines: seq<Line>) { forall i :: 0 <= i < |lines| ==> lines[i].Text? }

  lemma {:induction false} TextRuns<V(!new)>(op: Operators<V>, lines: seq<Line>, st: Machine<V>)
    requires AllText(lines)
    ensures Run(op, lines, st) == Some(st)
  {
    if lines != [] { TextRuns(op, lines[1..], st); }
  }
}
