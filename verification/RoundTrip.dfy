/** The printer against the reader: what `reconcile_python` makes of a module that
    `generate_python_project` prints for an edited copy of the document. */
module RoundTrip {
  import opened Sorting
  import opened Digraph
  import opened Documents
  import opened Graph
  import opened Validation
  import opened Meaning
  import opened Scopes
  import opened PythonNames
  import opened PythonProgram
  import opened SourceMap
  import opened PythonBackend
  import opened PythonEmitter
  import opened PythonCorrectness
  import opened Reconcile
  import opened PrintedForms

  // ---- One assignment ----

  /** The printed variable of a node is the one the reader expects. */
  predicate Agrees(name: Naming, key: string -> string, id: string) { name(id, None) == key(id) }

  /** The reader takes no printed variable for another node's. */
  ghost predicate NoMixup(name: Naming, byVar: map<string, string>, u: string) {
    name(u, None) in byVar ==> byVar[name(u, None)] == u
  }

  /** The configuration of a node once the assignments of the nodes in seen are read. */
  ghost function ReadConfig(name: Naming, key: string -> string, d: Document, values: map<string, Py>, seen: set<string>,
                            id: string): Config
    requires id in d.Ids()
  {
    if id in seen && id in values && Agrees(name, key, id) then Effect(d.At(id).config, values[id]) else d.At(id).config
  }

  /** The lines printed for node u give the reader nothing to report: u is no quality check, and if the reader
      recognises its variable the value is one it accepts. */
  ghost predicate Accepted(name: Naming, key: string -> string, d: Document, values: map<string, Py>, u: string) {
    && u in d.Ids() && u in values && !d.KindAt(u).Quality?
    && (Agrees(name, key, u) ==> !ReadValue(d.At(u).config, values[u]).Refused?)
  }

  ghost predicate AllAccepted(name: Naming, key: string -> string, d: Document, values: map<string, Py>, seen: set<string>) {
    forall u :: u in seen ==> Accepted(name, key, d, values, u)
  }

  /** What is known once the lines of the nodes in seen are read. */
  ghost function After(name: Naming, key: string -> string, d: Document, values: map<string, Py>, seen: set<string>): Progress {
    Progress(map id | id in d.Ids() :: ReadConfig(name, key, d, values, seen, id), AllAccepted(name, key, d, values, seen))
  }

  /** Reading the assignment of a node. */
  lemma StatementStep(name: Naming, key: string -> string, d: Document, values: map<string, Py>, seen: set<string>, u: string)
    requires d.UniqueIds() && u in d.Ids() && u in values && NoMixup(name, ByVar(key, d.nodes), u)
    ensures var r := ReadStatement(ByVar(key, d.nodes), After(name, key, d, values, seen), Assigns(name(u, None), values[u]));
            && r.configs == After(name, key, d, values, seen + {u}).configs
            && (r.clean <==> AllAccepted(name, key, d, values, seen)
                             && (Agrees(name, key, u) ==> !ReadValue(d.At(u).config, values[u]).Refused?))
  {
    var byVar, p := ByVar(key, d.nodes), After(name, key, d, values, seen);
    ByVarMembers(key, d.nodes);
    assert d.Has(u, d.At(u));
    StatementReads(byVar, p, name(u, None), values[u]);
    EffectTwice(d.At(u).config, values[u]);
    if Agrees(name, key, u) { assert byVar[name(u, None)] == u; } else { assert name(u, None) !in byVar; }
    ConfigsStep(name, key, d, values, seen, u);
  }

  lemma ConfigsStep(name: Naming, key: string -> string, d: Document, values: map<string, Py>, seen: set<string>, u: string)
    requires u in d.Ids() && u in values && Effect(Effect(d.At(u).config, values[u]), values[u]) == Effect(d.At(u).config, values[u])
    ensures var configs := After(name, key, d, values, seen).configs;
            After(name, key, d, values, seen + {u}).configs ==
            if Agrees(name, key, u) then configs[u := Effect(configs[u], values[u])] else configs
  {
    var configs := After(name, key, d, values, seen).configs;
    forall id | id in d.Ids() && id != u ensures ReadConfig(name, key, d, values, seen + {u}, id) == configs[id] {}
  }

  lemma AcceptedGrows(name: Naming, key: string -> string, d: Document, values: map<string, Py>, seen: set<string>, u: string)
    ensures AllAccepted(name, key, d, values, seen + {u}) <==>
            AllAccepted(name, key, d, values, seen) && Accepted(name, key, d, values, u)
  {
  }

  // ---- One definition ----

  lemma {:induction false} StatementsAppend(a: seq<Line>, b: seq<Line>, other: Printer)
    ensures Statements(a + b, other) == Statements(a, other) + Statements(b, other)
  {
    if b == [] {
      assert a + b == a;
    } else {
      var before, last := b[..|b| - 1], b[|b| - 1];
      assert (a + b)[..|a + b| - 1] == a + before && (a + b)[|a + b| - 1] == last;
      StatementsAppend(a, before, other);
      AppendAssociates(Statements(a, other), Statements(before, other), StatementOf(last, other));
    }
  }

  lemma {:induction false} ReadBodyAppend(byVar: map<string, string>, p: Progress, a: seq<Statement>, b: seq<Statement>)
    ensures ReadBody(byVar, p, a + b) == ReadBody(byVar, ReadBody(byVar, p, a), b)
  {
    if b == [] {
      assert a + b == a;
    } else {
      assert (a + b)[..|a + b| - 1] == a + b[..|b| - 1];
      ReadBodyAppend(byVar, p, a, b[..|b| - 1]);
    }
  }

  /** What reading the statements of some lines does. */
  ghost function ReadLines(byVar: map<string, string>, p: Progress, lines: seq<Line>, other: Printer): Progress {
    ReadBody(byVar, p, Statements(lines, other))
  }

  lemma ReadLinesAppend(byVar: map<string, string>, p: Progress, a: seq<Line>, b: seq<Line>, other: Printer)
    ensures ReadLines(byVar, p, a + b, other) == ReadLines(byVar, ReadLines(byVar, p, a, other), b, other)
  {
    StatementsAppend(a, b, other);
    ReadBodyAppend(byVar, p, Statements(a, other), Statements(b, other));
  }

  lemma ReadOneLine(byVar: map<string, string>, p: Progress, line: Line, other: Printer)
    ensures ReadLines(byVar, p, [line], other) ==
            if StatementOf(line, other) == [] then p else ReadStatement(byVar, p, StatementOf(line, other)[0])
  {
    assert [line][..0] == [];
    var s := StatementOf(line, other);
    assert Statements([line], other) == [] + s;
    if s != [] {
      assert |s| == 1 && s[..0] == [];
      assert ReadBody(byVar, p, s) == ReadStatement(byVar, ReadBody(byVar, p, s[..0]), s[0]);
    }
  }

  /** Markers and plan captures are skipped: the lines of a node that is no quality check amount to its
      assignment, also for a split, whose second assignment is passed over. */
  lemma NodeLinesRead(name: Naming, byVar: map<string, string>, p: Progress, n: Node, expr: Expr, style: Style, other: Printer)
    requires !n.kind.Quality? && (n.kind.Split? ==> expr.Apply? && expr.kind == n.kind)
    ensures ReadLines(byVar, p, NodeLines(name, n, expr, style), other)
            == ReadStatement(byVar, p, Assigns(name(n.id, None), PyOf(expr, other)))
  {
    var start, end := RegionStart(n.id, false), RegionEnd;
    var assign, capture := Assignments(name, n, expr, style.hooks), CapturePlan(n.id, name(n.id, None));
    var a := if style.marked then [start] else [];
    var e := if style.hooks && !n.kind.Source? then [capture] else [];
    var f := if style.marked then [end] else [];
    assert NodeLines(name, n, expr, style) == a + assign + e + f;
    var q := ReadStatement(byVar, p, Assigns(name(n.id, None), PyOf(expr, other)));
    SkippedLines(byVar, p, a, start, other);
    AssignmentsRead(name, byVar, p, n, expr, style.hooks, other);
    SkippedLines(byVar, q, e, capture, other);
    SkippedLines(byVar, q, f, end, other);
    ReadLinesAppend(byVar, p, a + assign + e, f, other);
    ReadLinesAppend(byVar, p, a + assign, e, other);
    ReadLinesAppend(byVar, p, a, assign, other);
  }

  lemma AssignRead(byVar: map<string, string>, p: Progress, v: string, expr: Expr, check: Option<string>, other: Printer)
    ensures ReadLines(byVar, p, [Assign(v, expr, check)], other)
            == ReadStatement(byVar, p, Assigns(v, if check.Some? then PlainCall([]) else PyOf(expr, other)))
  {
    ReadOneLine(byVar, p, Assign(v, expr, check), other);
  }

  /** The assignments of a split are passed over. */
  lemma MaskPassed(byVar: map<string, string>, p: Progress, v: string, expr: Expr, other: Printer)
    requires expr.Apply? && expr.kind.Split?
    ensures ReadStatement(byVar, p, Assigns(v, PyOf(expr, other))) == p
  {
    var value := Call(OtherPy, FilterCall, [OtherPy]);
    assert PyOf(expr, other) == value;
    if v in byVar && byVar[v] in p.configs { assert ReadValue(p.configs[byVar[v]], value).Ignored?; }
  }

  lemma AssignmentsRead(name: Naming, byVar: map<string, string>, p: Progress, n: Node, expr: Expr, hooks: bool, other: Printer)
    requires !n.kind.Quality? && (n.kind.Split? ==> expr.Apply? && expr.kind == n.kind)
    ensures ReadLines(byVar, p, Assignments(name, n, expr, hooks), other)
            == ReadStatement(byVar, p, Assigns(name(n.id, None), PyOf(expr, other)))
  {
    AssignRead(byVar, p, name(n.id, None), expr, None, other);
    if n.kind.Split? {
      var w, second := name(n.id, Some(Quarantine)), expr.(port := Quarantine);
      var one, two := Assign(name(n.id, None), expr, None), Assign(w, second, None);
      assert [one, two] == [one] + [two];
      MaskPassed(byVar, p, name(n.id, None), expr, other);
      ReadLinesAppend(byVar, p, [one], [two], other);
      AssignRead(byVar, p, w, second, None, other);
      MaskPassed(byVar, p, w, second, other);
    }
  }

  /** What is no call is reported at most. */
  lemma BareRead(byVar: map<string, string>, p: Progress, v: string, expr: Expr, check: Option<string>, other: Printer)
    requires !p.clean && !PyOf(expr, other).Call?
    ensures ReadLines(byVar, p, [Assign(v, expr, check)], other) == p
  {
    AssignRead(byVar, p, v, expr, check, other);
  }

  lemma CheckRead(byVar: map<string, string>, p: Progress, id: string, other: Printer)
    ensures ReadLines(byVar, p, [CheckAppend(id)], other) == p.(clean := false)
  {
    ReadOneLine(byVar, p, CheckAppend(id), other);
  }

  /** The registration of a quality check is reported, whatever follows. */
  lemma QualityLinesRead(name: Naming, byVar: map<string, string>, p: Progress, n: Node, expr: Expr, style: Style, other: Printer)
    requires n.kind.Quality? && !PyOf(expr, other).Call?
    ensures ReadLines(byVar, p, NodeLines(name, n, expr, style), other) == p.(clean := false)
  {
    var check, assign := [CheckAppend(n.id)], [Assign(name(n.id, None), expr, CheckOf(n, style.hooks))];
    var a := if style.marked then [RegionStart(n.id, false)] else [];
    var e := if style.hooks then [CapturePlan(n.id, name(n.id, None))] else [];
    var f := if style.marked then [RegionEnd] else [];
    assert NodeLines(name, n, expr, style) == a + check + assign + e + f;
    var q := p.(clean := false);
    SkippedLines(byVar, p, a, RegionStart(n.id, false), other);
    CheckRead(byVar, p, n.id, other);
    BareRead(byVar, q, name(n.id, None), expr, CheckOf(n, style.hooks), other);
    SkippedLines(byVar, q, e, CapturePlan(n.id, name(n.id, None)), other);
    SkippedLines(byVar, q, f, RegionEnd, other);
    ReadLinesAppend(byVar, p, a + check + assign + e, f, other);
    ReadLinesAppend(byVar, p, a + check + assign, e, other);
    ReadLinesAppend(byVar, p, a + check, assign, other);
    ReadLinesAppend(byVar, p, a, check, other);
  }

  lemma SkippedLines(byVar: map<string, string>, p: Progress, lines: seq<Line>, line: Line, other: Printer)
    requires (lines == [] || lines == [line]) && (line.RegionStart? || line.RegionEnd? || line.CapturePlan?)
    ensures ReadLines(byVar, p, lines, other) == p
  {
    if lines != [] { ReadOneLine(byVar, p, line, other); }
  }

  ghost function ValuesOf(exprs: map<string, Expr>, other: Printer): map<string, Py> {
    map u | u in exprs :: PyOf(exprs[u], other)
  }

  /** d and d' list the same nodes and edges, up to the literals of the readable operators. */
  ghost predicate Shape(d: Document, d': Document) {
    && |d.nodes| == |d'.nodes| && d.edges == d'.edges
    && forall i :: 0 <= i < |d.nodes| ==> SameButLiterals(d.nodes[i], d'.nodes[i])
  }

  ghost predicate SameButLiterals(n: Node, n': Node) {
    && n.id == n'.id && n.kind == n'.kind
    && if Literal(n.kind) then SameOutside(LiteralFields(FormOf(n.kind)), n.config, n'.config) else n.config == n'.config
  }

  lemma ShapeAt(d: Document, d': Document, u: string)
    requires d.UniqueIds() && Shape(d, d') && u in d'.Ids()
    ensures u in d.Ids() && SameButLiterals(d.At(u), d'.At(u)) && d'.UniqueIds()
  {
    var n' := d'.At(u);
    assert d'.Has(u, n');
    var i :| 0 <= i < |d'.nodes| && d'.nodes[i] == n';
    assert d.nodes[i] in d.nodes;
    AtUnique(d, d.nodes[i]);
  }

  /** The node is printed and the reader takes its variable for no other node's. */
  ghost predicate ReadsWell(name: Naming, key: string -> string, d: Document, d': Document, exprs: map<string, Expr>, u: string) {
    u in d'.Ids() && u in exprs && NoMixup(name, ByVar(key, d.nodes), u)
  }

  /** What is printed for a node of the edited document. */
  lemma PrintedIs(name: Naming, d': Document, u: string, emits: Emitters, other: Printer)
    requires u in d'.Ids() && u in Expressions(name, d', emits)
    ensures var n', expr := d'.At(u), Expressions(name, d', emits)[u];
            PyOf(expr, other) ==
            if n'.kind.Dataset? then Call(OtherPy, TableCall, [Const(Str(TextField(n'.config, "name", "")))])
            else PrintedCall(n'.kind, n'.config, expr, other)
  {
  }

  /** What is printed for splits and quality checks. */
  lemma PrintedShape(name: Naming, d: Document, u: string, emits: Emitters, other: Printer)
    requires u in d.Ids() && u in Expressions(name, d, emits)
    ensures var expr := Expressions(name, d, emits)[u];
            && (d.KindAt(u).Split? ==> expr.Apply? && expr.kind == d.KindAt(u))
            && (d.KindAt(u).Quality? ==> !PyOf(expr, other).Call?)
  {
    PrintedIs(name, d, u, emits, other);
    if d.KindAt(u).Quality? { assert FormOf(d.KindAt(u)) == Variable; }
  }

  lemma PartRead(name: Naming, key: string -> string, d: Document, d': Document, u: string, style: Style, emits: Emitters,
                 other: Printer, exprs: map<string, Expr>, seen: set<string>)
    requires d.UniqueIds() && Shape(d, d') && exprs == Expressions(name, d', emits) && ReadsWell(name, key, d, d', exprs, u)
    ensures ReadLines(ByVar(key, d.nodes), After(name, key, d, ValuesOf(exprs, other), seen), BodyPart(name, d', u, style, exprs), other)
            == After(name, key, d, ValuesOf(exprs, other), seen + {u})
  {
    var values, byVar := ValuesOf(exprs, other), ByVar(key, d.nodes);
    var p := After(name, key, d, values, seen);
    var n := d'.At(u);
    assert d'.Has(u, n);
    ShapeAt(d, d', u);
    PrintedShape(name, d', u, emits, other);
    StatementStep(name, key, d, values, seen, u);
    AcceptedGrows(name, key, d, values, seen, u);
    if n.kind.Quality? {
      QualityLinesRead(name, byVar, p, n, exprs[u], style, other);
      RefusedStays(name, key, d, values, seen, u);
    } else {
      NodeLinesRead(name, byVar, p, n, exprs[u], style, other);
    }
  }

  lemma RefusedStays(name: Naming, key: string -> string, d: Document, values: map<string, Py>, seen: set<string>, u: string)
    requires u in d.Ids() && u in values && !values[u].Call?
    ensures After(name, key, d, values, seen).configs == After(name, key, d, values, seen + {u}).configs
  {
    assert ReadValue(d.At(u).config, values[u]).Refused?;
    forall id | id in d.Ids()
      ensures ReadConfig(name, key, d, values, seen, id) == ReadConfig(name, key, d, values, seen + {u}, id) {}
  }

  lemma MembersGrow(ids: seq<string>, seen: set<string>)
    ensures ids == [] ==> seen + Members(ids) == seen
    ensures ids != [] ==> seen + Members(ids[..|ids| - 1]) + {ids[|ids| - 1]} == seen + Members(ids)
  {
    if ids != [] { SplitLast(ids); }
  }

  /** Reading a body applies the assignments of its nodes. */
  lemma {:induction false} BodyRead(name: Naming, key: string -> string, d: Document, d': Document, ids: seq<string>, style: Style,
                                    emits: Emitters, other: Printer, exprs: map<string, Expr>, seen: set<string>)
    requires d.UniqueIds() && Shape(d, d') && exprs == Expressions(name, d', emits)
    requires forall u :: u in ids ==> ReadsWell(name, key, d, d', exprs, u)
    ensures ReadLines(ByVar(key, d.nodes), After(name, key, d, ValuesOf(exprs, other), seen), Body(name, d', ids, style, exprs), other)
            == After(name, key, d, ValuesOf(exprs, other), seen + Members(ids))
  {
    MembersGrow(ids, seen);
    if ids != [] {
      var before, u := ids[..|ids| - 1], ids[|ids| - 1];
      BodyRead(name, key, d, d', before, style, emits, other, exprs, seen);
      ReadLinesAppend(ByVar(key, d.nodes), After(name, key, d, ValuesOf(exprs, other), seen),
                      Body(name, d', before, style, exprs), BodyPart(name, d', u, style, exprs), other);
      PartRead(name, key, d, d', u, style, emits, other, exprs, seen + Members(before));
    }
  }

  /** Declarations, returns and blank lines carry no literals. */
  ghost predicate Skipped(lines: seq<Line>, other: Printer) {
    forall i :: 0 <= i < |lines| ==> StatementOf(lines[i], other) == [] || StatementOf(lines[i], other) == [Returns]
  }

  lemma {:induction false} SkippedRead(byVar: map<string, string>, p: Progress, lines: seq<Line>, other: Printer)
    requires Skipped(lines, other)
    ensures ReadLines(byVar, p, lines, other) == p
  {
    if lines != [] {
      SplitLast(lines);
      SkippedRead(byVar, p, lines[..|lines| - 1], other);
      ReadLinesAppend(byVar, p, lines[..|lines| - 1], [lines[|lines| - 1]], other);
      ReadOneLine(byVar, p, lines[|lines| - 1], other);
    }
  }

  lemma EndsSkipped(name: Naming, d: Document, id: string, ids: seq<string>, other: Printer)
    requires id in d.Ids() && ids != []
    ensures Skipped(HeadLines(d.At(id), ids), other) && Skipped(ReturnLines(name, d, id), other)
  {
  }

  /** No other node is configured with one of these names. */
  ghost predicate NamesOnly(configs: map<string, Config>, id: string, names: set<string>) {
    forall x, t :: x in configs && x != id && t in names ==> !NamedIn(configs, x, Some(t))
  }

  lemma {:induction false} FindsOwn(ids: seq<string>, configs: map<string, Config>, id: string, t: string)
    requires NamesOnly(configs, id, {t})
    ensures FindNamed(ids, configs, Some(t)) == if id in ids && NamedIn(configs, id, Some(t)) then Some(id) else None
  {
    if ids != [] {
      FindsOwn(ids[1..], configs, id, t);
      assert ids == [ids[0]] + ids[1..];
      assert NamedIn(configs, ids[0], Some(t)) ==> ids[0] == id;
    }
  }

  /** The keys and the sequence column of a CDC flow have the documented types. */
  predicate CdcTyped(config: Config) { TextsAt(config, "keys") && TextAt(config, "sequence_by") && TextAt(config, "name") }

  predicate SameAt(c: Config, c': Config, k: string) { k in c && k in c' && c'[k] == c[k] }

  predicate CdcKept(c: Config, c': Config) { SameAt(c, c', "name") && SameAt(c, c', "keys") && SameAt(c, c', "sequence_by") }

  /** Decorators without positional arguments rename nothing. A CDC flow carries its keys and its sequence
      column, which the reader writes to the node of its name as they were. */
  lemma DecoratorsRead(ids: seq<string>, p: Progress, n: Node)
    requires n.kind.IsDefinition() && NodeOk(n)
    requires n.kind == Dataset("auto_cdc_scd1") ==>
               && CdcTyped(n.config) && n.id in p.configs && NamesOnly(p.configs, n.id, {OutputName(n), FunctionName(false, OutputName(n))})
               && CdcKept(n.config, p.configs[n.id])
    ensures ReadDecorators(ids, p, FunctionName(n.kind.Sink?, OutputName(n)), [HeadDecorator(n)]) == p
  {
    var dec, name := HeadDecorator(n), FunctionName(n.kind.Sink?, OutputName(n));
    assert [dec][..0] == [] && KnownDecorator(dec.attr);
    assert ReadDecorators(ids, p, name, [dec]) == ReadDecorator(ids, ReadDecorators(ids, p, name, [dec][..0]), name, dec);
    if n.kind == Dataset("auto_cdc_scd1") { CdcRead(ids, p, n, name, dec); }
  }

  lemma CdcRead(ids: seq<string>, p: Progress, n: Node, name: string, dec: PyDecorator)
    requires n.kind == Dataset("auto_cdc_scd1") && CdcTyped(n.config) && n.id in p.configs && dec == HeadDecorator(n)
    requires NamesOnly(p.configs, n.id, {OutputName(n), name})
    requires CdcKept(n.config, p.configs[n.id])
    ensures ReadDecorator(ids, p, name, dec) == p
  {
    var c := p.configs[n.id];
    if n.id in ids {
      CdcWrites(ids, p, n, name, dec);
      assert c["keys" := n.config["keys"]]["sequence_by" := n.config["sequence_by"]] == c;
      assert p.configs[n.id := c] == p.configs;
    } else {
      FindsOwn(ids, p.configs, n.id, name);
      FindsOwn(ids, p.configs, n.id, OutputName(n));
    }
  }

  /** The decorator printed for a CDC flow writes its keys and its sequence column to the node of its name. */
  lemma CdcWrites(ids: seq<string>, p: Progress, n: Node, name: string, dec: PyDecorator)
    requires n.kind == Dataset("auto_cdc_scd1") && CdcTyped(n.config) && n.id in p.configs && n.id in ids && dec == HeadDecorator(n)
    requires NamesOnly(p.configs, n.id, {OutputName(n), name}) && Named(p.configs[n.id], OutputName(n))
    ensures ReadDecorator(ids, p, name, dec) ==
            p.(configs := p.configs[n.id := p.configs[n.id]["keys" := n.config["keys"]]["sequence_by" := n.config["sequence_by"]]])
  {
    FindsOwn(ids, p.configs, n.id, name);
    FindsOwn(ids, p.configs, n.id, OutputName(n));
    KeysShown(n.config);
  }

  /** An edited CDC flow comes back: where the old configuration differs from the printed one at most in its keys
      and its sequence column, reading the generated decorator makes them equal and changes no other node. */
  lemma CdcEditsComeBack(ids: seq<string>, p: Progress, n: Node)
    requires n.kind == Dataset("auto_cdc_scd1") && CdcTyped(n.config) && n.id in p.configs && n.id in ids
    requires NamesOnly(p.configs, n.id, {OutputName(n), FunctionName(false, OutputName(n))})
    requires SameOutside({"keys", "sequence_by"}, p.configs[n.id], n.config)
    ensures ReadDecorators(ids, p, FunctionName(false, OutputName(n)), [HeadDecorator(n)]) == p.(configs := p.configs[n.id := n.config])
  {
    var dec, name := HeadDecorator(n), FunctionName(false, OutputName(n));
    assert [dec][..0] == [] && KnownDecorator(dec.attr);
    assert ReadDecorators(ids, p, name, [dec]) == ReadDecorator(ids, ReadDecorators(ids, p, name, [dec][..0]), name, dec);
    CdcWrites(ids, p, n, name, dec);
    assert p.configs[n.id]["keys" := n.config["keys"]]["sequence_by" := n.config["sequence_by"]] == n.config;
  }

  lemma KeysShown(config: Config)
    requires TextsAt(config, "keys")
    ensures KeysOf(config).Some? && StrList(KeysOf(config).value) == config["keys"]
  {
    var items := config["keys"].items;
    if items != [] { assert StrList(TextOf(items)).items == items; } else { assert StrList([]).items == items; }
  }

  lemma WrappedRead(byVar: map<string, string>, p: Progress, q: Progress, head: seq<Line>, body: seq<Line>, tail: seq<Line>, other: Printer)
    requires Skipped(head, other) && Skipped(tail, other) && ReadLines(byVar, p, body, other) == q
    ensures ReadLines(byVar, p, head + body + tail, other) == q
  {
    SkippedRead(byVar, p, head, other);
    SkippedRead(byVar, q, tail, other);
    ReadLinesAppend(byVar, p, head, body, other);
    ReadLinesAppend(byVar, p, head + body, tail, other);
  }

  lemma ScopeMembers(d: Document, id: string)
    requires d.UniqueIds() && WellFormed(d) && IsOutput(d, id)
    ensures ScopeOrder(d, DefinitionScope(d, id)) != [] && Members(ScopeOrder(d, DefinitionScope(d, id))) == DefinitionScope(d, id)
  {
    ScopeListed(d, id);
    DefinitionScopeReady(d, id);
    assert InEdge(d, id, In).src.node in ScopeOrder(d, DefinitionScope(d, id));
  }

  lemma DefinitionTextRead(name: Naming, key: string -> string, d: Document, d': Document, id: string, ids: seq<string>, style: Style,
                           emits: Emitters, other: Printer, exprs: map<string, Expr>, seen: set<string>)
    requires d.UniqueIds() && Shape(d, d') && exprs == Expressions(name, d', emits)
    requires id in d'.Ids() && ids == ScopeOrder(d', DefinitionScope(d', id)) && ids != []
    requires forall u :: u in ids ==> ReadsWell(name, key, d, d', exprs, u)
    ensures ReadLines(ByVar(key, d.nodes), After(name, key, d, ValuesOf(exprs, other), seen),
                      DefinitionText(DefinitionOf(name, d', id, style, exprs)), other)
            == After(name, key, d, ValuesOf(exprs, other), seen + Members(ids))
  {
    var p, q := After(name, key, d, ValuesOf(exprs, other), seen), After(name, key, d, ValuesOf(exprs, other), seen + Members(ids));
    PartsText(name, d', ids, style, exprs);
    EndsSkipped(name, d', id, ids, other);
    BodyRead(name, key, d, d', ids, style, emits, other, exprs, seen);
    WrappedRead(ByVar(key, d.nodes), p, q, HeadLines(d'.At(id), ids), Body(name, d', ids, style, exprs), ReturnLines(name, d', id), other);
  }

  ghost predicate Named(c: Config, t: string) { "name" in c && c["name"] == Str(t) }

  /** Neither the old configuration of a node nor what the reader makes of it has the name t. */
  ghost predicate NeverNamed(name: Naming, key: string -> string, d: Document, values: map<string, Py>, x: string, t: string)
    requires x in d.Ids()
  {
    && !Named(d.At(x).config, t)
    && (x in values && Agrees(name, key, x) ==> !Named(Effect(d.At(x).config, values[x]), t))
  }

  /** A CDC flow has fields of the documented types, and no other node ever has its name. */
  ghost predicate CdcFits(name: Naming, key: string -> string, d: Document, d': Document, values: map<string, Py>, id: string)
    requires id in d'.Ids()
  {
    d'.KindAt(id) == Dataset("auto_cdc_scd1") ==>
      && CdcTyped(d'.At(id).config)
      && forall x, t :: x in d.Ids() && x != id && t in {OutputName(d'.At(id)), FunctionName(false, OutputName(d'.At(id)))} ==>
           NeverNamed(name, key, d, values, x, t)
  }

  /** Reading a dataset's own line leaves its other fields. */
  lemma DatasetFieldsStay(name: Naming, key: string -> string, d: Document, values: map<string, Py>, seen: set<string>, id: string,
                          table: Json, k: string)
    requires id in d.Ids() && k != "table" && k in d.At(id).config && table.Str?
    requires id in values ==> values[id] == Call(OtherPy, TableCall, [Const(table)])
    ensures k in ReadConfig(name, key, d, values, seen, id)
    ensures ReadConfig(name, key, d, values, seen, id)[k] == d.At(id).config[k]
  {
    TableEffect(d.At(id).config, table);
  }

  /** The CDC flow keeps its name to itself. */
  lemma CdcNames(name: Naming, key: string -> string, d: Document, d': Document, id: string, values: map<string, Py>, seen: set<string>)
    requires id in d'.Ids() && d'.KindAt(id) == Dataset("auto_cdc_scd1") && CdcFits(name, key, d, d', values, id)
    ensures var n := d'.At(id);
            NamesOnly(After(name, key, d, values, seen).configs, id, {OutputName(n), FunctionName(false, OutputName(n))})
  {
    var n, p := d'.At(id), After(name, key, d, values, seen);
    var names := {OutputName(n), FunctionName(false, OutputName(n))};
    forall x, t | x in p.configs && x != id && t in names ensures !NamedIn(p.configs, x, Some(t)) {
      assert NeverNamed(name, key, d, values, x, t);
      EitherConfig(name, key, d, values, seen, x);
    }
  }

  lemma EitherConfig(name: Naming, key: string -> string, d: Document, values: map<string, Py>, seen: set<string>, id: string)
    requires id in d.Ids()
    ensures var c := ReadConfig(name, key, d, values, seen, id);
            c == d.At(id).config || (id in values && Agrees(name, key, id) && c == Effect(d.At(id).config, values[id]))
  {
  }

  lemma DatasetValue(name: Naming, d': Document, id: string, emits: Emitters, other: Printer)
    requires id in d'.Ids() && d'.KindAt(id).Dataset? && id in Expressions(name, d', emits)
    ensures ValuesOf(Expressions(name, d', emits), other)[id]
            == Call(OtherPy, TableCall, [Const(Str(TextField(d'.At(id).config, "name", "")))])
  {
    PrintedIs(name, d', id, emits, other);
  }

  lemma CdcFieldsStay(name: Naming, key: string -> string, d: Document, values: map<string, Py>, seen: set<string>, id: string, table: Json)
    requires id in d.Ids() && CdcTyped(d.At(id).config) && table.Str?
    requires id in values ==> values[id] == Call(OtherPy, TableCall, [Const(table)])
    ensures CdcKept(d.At(id).config, ReadConfig(name, key, d, values, seen, id))
  {
    DatasetFieldsStay(name, key, d, values, seen, id, table, "name");
    DatasetFieldsStay(name, key, d, values, seen, id, table, "keys");
    DatasetFieldsStay(name, key, d, values, seen, id, table, "sequence_by");
  }

  lemma CdcDecoratorRead(name: Naming, key: string -> string, d: Document, d': Document, id: string, emits: Emitters, other: Printer,
                         exprs: map<string, Expr>, seen: set<string>)
    requires d.UniqueIds() && d'.UniqueIds() && Shape(d, d') && exprs == Expressions(name, d', emits) && id in d'.Ids()
    requires d'.KindAt(id) == Dataset("auto_cdc_scd1") && CdcTyped(d'.At(id).config)
    ensures id in d.Ids() && d'.At(id).id == id
    ensures CdcKept(d'.At(id).config, ReadConfig(name, key, d, ValuesOf(exprs, other), seen, id))
  {
    assert d'.Has(id, d'.At(id));
    ShapeAt(d, d', id);
    if id in exprs { DatasetValue(name, d', id, emits, other); }
    CdcFieldsStay(name, key, d, ValuesOf(exprs, other), seen, id, Str(TextField(d'.At(id).config, "name", "")));
  }

  /** Reading one function of a generated module applies the assignments printed in it. */
  lemma DefinitionRead(name: Naming, key: string -> string, d: Document, d': Document, id: string, style: Style, emits: Emitters,
                       other: Printer, exprs: map<string, Expr>, seen: set<string>)
    requires d.UniqueIds() && d'.UniqueIds() && Shape(d, d') && WellFormed(d') && exprs == Expressions(name, d', emits)
    requires IsOutput(d', id) && CdcFits(name, key, d, d', ValuesOf(exprs, other), id)
    requires forall u :: u in DefinitionScope(d', id) ==> ReadsWell(name, key, d, d', exprs, u)
    ensures ReadFunction(IdList(d.nodes), ByVar(key, d.nodes), After(name, key, d, ValuesOf(exprs, other), seen),
                         FunctionOf(d', DefinitionOf(name, d', id, style, exprs), other))
            == After(name, key, d, ValuesOf(exprs, other), seen + DefinitionScope(d', id))
  {
    var n, ids := d'.At(id), ScopeOrder(d', DefinitionScope(d', id));
    assert d'.Has(id, n) && NodeOk(n);
    ScopeMembers(d', id);
    assert forall u :: u in ids ==> u in Members(ids);
    DefinitionTextRead(name, key, d, d', id, ids, style, emits, other, exprs, seen);
    if n.kind == Dataset("auto_cdc_scd1") {
      CdcNames(name, key, d, d', id, ValuesOf(exprs, other), seen);
      CdcDecoratorRead(name, key, d, d', id, emits, other, exprs, seen);
      assert After(name, key, d, ValuesOf(exprs, other), seen).configs[id] == ReadConfig(name, key, d, ValuesOf(exprs, other), seen, id);
    }
    DecoratorsRead(IdList(d.nodes), After(name, key, d, ValuesOf(exprs, other), seen), n);
  }

  // ---- The module ----

  /** The nodes printed in the definitions of the outputs among ids. */
  ghost function PrintedIn(d: Document, ids: seq<string>): set<string> {
    if ids == [] then {}
    else
      PrintedIn(d, ids[..|ids| - 1])
      + (if IsOutput(d, ids[|ids| - 1]) then DefinitionScope(d, ids[|ids| - 1]) else {})
  }

  /** Every node of every definition is printed and mixed up with no other, and CDC flows keep their names. */
  ghost predicate RoundTrips(name: Naming, key: string -> string, d: Document, d': Document, exprs: map<string, Expr>, other: Printer) {
    forall id :: IsOutput(d', id) ==>
      && CdcFits(name, key, d, d', ValuesOf(exprs, other), id)
      && forall u :: u in DefinitionScope(d', id) ==> ReadsWell(name, key, d, d', exprs, u)
  }

  lemma FunctionsGrow(d: Document, defs: seq<Definition>, def: Definition, other: Printer)
    requires def.node in d.Ids()
    ensures FunctionsOf(d, defs + [def], other) == FunctionsOf(d, defs, other) + [FunctionOf(d, def, other)]
  {
    assert (defs + [def])[..|defs|] == defs;
  }

  lemma ReadFunctionsStep(ids: seq<string>, byVar: map<string, string>, fs: seq<PyFunction>, f: PyFunction,
                          p: Progress, q: Progress, r: Progress)
    requires ReadFunctions(ids, byVar, p, fs) == q && ReadFunction(ids, byVar, q, f) == r
    ensures ReadFunctions(ids, byVar, p, fs + [f]) == r
  {
    assert (fs + [f])[..|fs|] == fs;
  }

  lemma {:induction false} DefinitionsRead(name: Naming, key: string -> string, d: Document, d': Document, ids: seq<string>, style: Style,
                                           emits: Emitters, other: Printer, exprs: map<string, Expr>)
    requires d.UniqueIds() && d'.UniqueIds() && Shape(d, d') && WellFormed(d') && exprs == Expressions(name, d', emits)
    requires RoundTrips(name, key, d, d', exprs, other)
    ensures ReadFunctions(IdList(d.nodes), ByVar(key, d.nodes), After(name, key, d, ValuesOf(exprs, other), {}),
                          FunctionsOf(d', Definitions(name, d', ids, style, exprs), other))
            == After(name, key, d, ValuesOf(exprs, other), PrintedIn(d', ids))
  {
    if ids != [] {
      var before, id := ids[..|ids| - 1], ids[|ids| - 1];
      DefinitionsRead(name, key, d, d', before, style, emits, other, exprs);
      var defs := Definitions(name, d', before, style, exprs);
      if IsOutput(d', id) {
        var def := DefinitionOf(name, d', id, style, exprs);
        assert Definitions(name, d', ids, style, exprs) == defs + [def];
        FunctionsGrow(d', defs, def, other);
        DefinitionRead(name, key, d, d', id, style, emits, other, exprs, PrintedIn(d', before));
        ReadFunctionsStep(IdList(d.nodes), ByVar(key, d.nodes), FunctionsOf(d', defs, other), FunctionOf(d', def, other),
                          After(name, key, d, ValuesOf(exprs, other), {}),
                          After(name, key, d, ValuesOf(exprs, other), PrintedIn(d', before)),
                          After(name, key, d, ValuesOf(exprs, other), PrintedIn(d', before) + DefinitionScope(d', id)));
      } else {
        assert Definitions(name, d', ids, style, exprs) == defs + [] == defs;
        assert PrintedIn(d', ids) == PrintedIn(d', before);
      }
    }
  }

  // ---- Declarations match ----

  lemma ReadingStarts(name: Naming, key: string -> string, d: Document, values: map<string, Py>)
    requires d.UniqueIds()
    ensures Progress(ConfigsOf(d.nodes), true) == After(name, key, d, values, {})
  {
    ConfigsAre(d.nodes);
    forall id | id in d.Ids() ensures ConfigsOf(d.nodes)[id] == d.At(id).config { assert d.Has(id, d.At(id)); }
    assert ConfigsOf(d.nodes) == After(name, key, d, values, {}).configs;
  }

  ghost function DefinitionIds(nodes: seq<Node>): set<string> { set n | n in nodes && IsDeclared(n.kind) :: n.id }

  lemma DefinitionIdsGrow(before: seq<Node>, last: Node)
    requires forall i :: 0 <= i < |before| ==> before[i].id != last.id
    ensures |DefinitionIds(before + [last])| == |DefinitionIds(before)| + if IsDeclared(last.kind) then 1 else 0
  {
    assert DefinitionIds(before + [last]) == DefinitionIds(before) + (if IsDeclared(last.kind) then {last.id} else {});
    assert last.id !in DefinitionIds(before);
  }

  lemma {:induction false} CountIsSize(nodes: seq<Node>)
    requires forall i, j :: 0 <= i < j < |nodes| ==> nodes[i].id != nodes[j].id
    ensures CountDefinitions(nodes) == |DefinitionIds(nodes)|
  {
    if nodes != [] {
      var before, last := nodes[..|nodes| - 1], nodes[|nodes| - 1];
      CountIsSize(before);
      DefinitionIdsGrow(before, last);
      assert nodes == before + [last];
    }
  }

  ghost function OutputsAmong(d: Document, ids: seq<string>): set<string> { set id | id in ids && IsOutput(d, id) }

  lemma OutputsGrowBy(d: Document, ids: seq<string>)
    requires Distinct(ids) && ids != []
    ensures var before, id := ids[..|ids| - 1], ids[|ids| - 1];
            |OutputsAmong(d, ids)| == |OutputsAmong(d, before)| + if IsOutput(d, id) then 1 else 0
  {
    var before, id := ids[..|ids| - 1], ids[|ids| - 1];
    SplitLast(ids);
    assert OutputsAmong(d, ids) == OutputsAmong(d, before) + (if IsOutput(d, id) then {id} else {});
    assert id !in OutputsAmong(d, before);
  }

  lemma FunctionDeclares(d: Document, def: Definition, other: Printer)
    requires def.node in d.Ids()
    ensures Declaring(FunctionOf(d, def, other))
  {
    assert OnDp(FunctionOf(d, def, other).decorators[0]);
  }

  lemma {:induction false} DefinitionCount(name: Naming, d: Document, ids: seq<string>, style: Style, exprs: map<string, Expr>, other: Printer)
    requires Distinct(ids)
    ensures |FunctionsOf(d, Definitions(name, d, ids, style, exprs), other)| == |OutputsAmong(d, ids)|
    ensures forall f :: f in FunctionsOf(d, Definitions(name, d, ids, style, exprs), other) ==> Declaring(f)
  {
    if ids != [] {
      var before, id := ids[..|ids| - 1], ids[|ids| - 1];
      DefinitionCount(name, d, before, style, exprs, other);
      OutputsGrowBy(d, ids);
      var defs := Definitions(name, d, before, style, exprs);
      if IsOutput(d, id) {
        var def := DefinitionOf(name, d, id, style, exprs);
        assert Definitions(name, d, ids, style, exprs) == defs + [def];
        FunctionsGrow(d, defs, def, other);
        FunctionDeclares(d, def, other);
      } else {
        assert Definitions(name, d, ids, style, exprs) == defs + [] == defs;
      }
    }
  }

  lemma DeclarationsMatch(name: Naming, d: Document, d': Document, style: Style, exprs: map<string, Expr>, other: Printer,
                          helpers: seq<PyFunction>)
    requires d.UniqueIds() && d'.UniqueIds() && Shape(d, d') && WellFormed(d')
    requires forall f :: f in helpers ==> !Declaring(f)
    ensures var fs := FunctionsOf(d', Definitions(name, d', Order(d'), style, exprs), other);
            Filter(IsDeclaring(), helpers + fs) == fs && |fs| == CountDefinitions(d.nodes)
  {
    var fs := FunctionsOf(d', Definitions(name, d', Order(d'), style, exprs), other);
    OrderFacts(d');
    ShortOrderMeansCycle(d');
    DefinitionCount(name, d', Order(d'), style, exprs, other);
    FilterAppend(IsDeclaring(), helpers, fs);
    FilterNone(IsDeclaring(), helpers);
    FilterKeeps(IsDeclaring(), fs);
    CountIsSize(d.nodes);
    SameDefinitions(d, d');
    assert OutputsAmong(d', Order(d')) == DefinitionIds(d.nodes);
  }

  lemma SameDefinitions(d: Document, d': Document)
    requires d.UniqueIds() && d'.UniqueIds() && Shape(d, d') && WellFormed(d')
    ensures d.Ids() == d'.Ids()
    ensures forall id :: IsOutput(d', id) <==> id in DefinitionIds(d.nodes)
  {
    forall i | 0 <= i < |d.nodes| ensures d.nodes[i].id in d'.Ids() && d'.nodes[i].id in d.Ids() {
      assert d.nodes[i] in d.nodes && d'.nodes[i] in d'.nodes && SameButLiterals(d.nodes[i], d'.nodes[i]);
    }
    forall id | id in d.Ids() ensures id in d'.Ids() {
      var n :| n in d.nodes && n.id == id;
      var i :| 0 <= i < |d.nodes| && d.nodes[i] == n;
    }
    forall id | id in d'.Ids() ensures id in d.Ids() { ShapeAt(d, d', id); }
    forall id ensures IsOutput(d', id) <==> id in DefinitionIds(d.nodes) {
      if IsOutput(d', id) {
        ShapeAt(d, d', id);
        assert d.Has(id, d.At(id)) && d'.Has(id, d'.At(id)) && NodeOk(d'.At(id));
      }
      if id in DefinitionIds(d.nodes) {
        var n :| n in d.nodes && IsDeclared(n.kind) && n.id == id;
        AtUnique(d, n);
        ShapeAt(d, d', id);
      }
    }
  }

  // ---- What the reader returns ----

  /** The document read back from the module printed for d'. */
  ghost function ReadBack(name: Naming, key: string -> string, d: Document, d': Document, exprs: map<string, Expr>, other: Printer): Document {
    Document(WithConfigs(d.nodes, After(name, key, d, ValuesOf(exprs, other), PrintedIn(d', Order(d'))).configs), d.edges)
  }

  /** What is printed for a node. */
  ghost function ValueAt(exprs: map<string, Expr>, other: Printer, id: string): Py {
    if id in exprs then PyOf(exprs[id], other) else OtherPy
  }

  /** The reader has nothing to report about the lines of a node: it is no quality check and, if its variable
      is recognised, neither printed as a bare variable nor a rename of nothing. About custom code and fields
      of undocumented types the printed code decides. */
  ghost predicate Legible(n': Node, v: Py, agrees: bool) {
    && !n'.kind.Quality?
    && (agrees && !n'.kind.Dataset? ==>
          if Typed(FormOf(n'.kind), n'.config) then !Unread(FormOf(n'.kind), n'.config) else !ReadValue(n'.config, v).Refused?)
  }

  /** A node comes back as it was edited. One that is not read must not have been edited; a dataset that is
      read gains its name as a "table" entry; edited literals must be recoverable; the other operators must
      be kept. About custom code and fields of undocumented types the printed code decides. */
  ghost predicate Recovered(n: Node, n': Node, v: Py, read: bool) {
    if !read then n.config == n'.config
    else if n'.kind.Dataset? then "table" in n.config && n.config["table"] == Str(TextField(n.config, "name", ""))
    else
      var form := FormOf(n'.kind);
      if !Typed(form, n'.config) then Effect(n.config, v) == n'.config
      else if LiteralForm(form) then Recoverable(form, n'.config) || (!form.Selected? && n.config == n'.config)
      else Kept(form, n'.config)
  }

  /** Reading the printed form of a node that may have been edited. */
  lemma CallReads(n: Node, n': Node, expr: Expr, other: Printer)
    requires SameButLiterals(n, n') && !n'.kind.Dataset?
    ensures var v := PrintedCall(n'.kind, n'.config, expr, other);
            && (Effect(n.config, v) == n'.config <==> Recovered(n, n', v, true))
            && (!n'.kind.Quality? ==> (ReadValue(n.config, v).Refused? <==> !Legible(n', v, true)))
  {
    var form, v := FormOf(n'.kind), PrintedCall(n'.kind, n'.config, expr, other);
    if !Typed(form, n'.config) {
      ReadingIsStable(n.config, n'.config, v);
    } else if LiteralForm(form) {
      LiteralReads(form, n.config, n'.config);
      if form.Selected? && !Recoverable(form, n'.config) { EntryStays(n.config, "columns", List([Str("*")])); }
    } else {
      OperatorReads(form, n.config);
    }
  }

  lemma NodeRead(name: Naming, d': Document, n: Node, emits: Emitters, other: Printer)
    requires n.id in d'.Ids() && n.id in Expressions(name, d', emits) && SameButLiterals(n, d'.At(n.id))
    ensures var n', v := d'.At(n.id), PyOf(Expressions(name, d', emits)[n.id], other);
            && (Effect(n.config, v) == n'.config <==> Recovered(n, n', v, true))
            && (!n'.kind.Quality? ==> (ReadValue(n.config, v).Refused? <==> !Legible(n', v, true)))
  {
    var n', expr := d'.At(n.id), Expressions(name, d', emits)[n.id];
    PrintedIs(name, d', n.id, emits, other);
    if n'.kind.Dataset? {
      EntryStays(n.config, "table", Str(TextField(n.config, "name", "")));
    } else {
      CallReads(n, n', expr, other);
    }
  }

  ghost predicate IsPrinted(d': Document, id: string) { id in PrintedIn(d', Order(d')) }

  ghost predicate AllLegible(name: Naming, key: string -> string, d': Document, exprs: map<string, Expr>, other: Printer) {
    forall u :: IsPrinted(d', u) ==> u in d'.Ids() && Legible(d'.At(u), ValueAt(exprs, other, u), Agrees(name, key, u))
  }

  lemma {:induction false} PrintedWell(name: Naming, key: string -> string, d: Document, d': Document, ids: seq<string>,
                                       exprs: map<string, Expr>, other: Printer)
    requires RoundTrips(name, key, d, d', exprs, other)
    ensures forall u :: u in PrintedIn(d', ids) ==> ReadsWell(name, key, d, d', exprs, u)
  {
    if ids != [] { PrintedWell(name, key, d, d', ids[..|ids| - 1], exprs, other); }
  }

  lemma LegibleMeansAccepted(name: Naming, key: string -> string, d: Document, d': Document, emits: Emitters, other: Printer,
                             exprs: map<string, Expr>)
    requires d.UniqueIds() && d'.UniqueIds() && Shape(d, d') && exprs == Expressions(name, d', emits)
    requires RoundTrips(name, key, d, d', exprs, other)
    ensures AllAccepted(name, key, d, ValuesOf(exprs, other), PrintedIn(d', Order(d'))) <==> AllLegible(name, key, d', exprs, other)
  {
    var values := ValuesOf(exprs, other);
    PrintedWell(name, key, d, d', Order(d'), exprs, other);
    forall u | IsPrinted(d', u)
      ensures u in d'.Ids()
      ensures Accepted(name, key, d, values, u) <==> Legible(d'.At(u), ValueAt(exprs, other, u), Agrees(name, key, u))
    {
      assert ReadsWell(name, key, d, d', exprs, u);
      ShapeAt(d, d', u);
      assert d.Has(u, d.At(u));
      NodeRead(name, d', d.At(u), emits, other);
    }
  }

  /** Reconciling d with the module printed for d': it is reported as code-owned exactly when it declares
      nothing or some printed node is not legible; otherwise the literals of every printed node whose
      variable the reader recognises are taken over and nothing else changes. helpers are the functions of
      the prologue. */
  lemma ReconcilesTo(name: Naming, key: string -> string, d: Document, d': Document, style: Style, emits: Emitters, other: Printer,
                     exprs: map<string, Expr>, helpers: seq<PyFunction>)
    requires d.UniqueIds() && d'.UniqueIds() && Shape(d, d') && WellFormed(d') && exprs == Expressions(name, d', emits)
    requires RoundTrips(name, key, d, d', exprs, other) && forall f :: f in helpers ==> !Declaring(f)
    ensures var fs := FunctionsOf(d', Definitions(name, d', Order(d'), style, exprs), other);
            var doc := ReadBack(name, key, d, d', exprs, other);
            Reconciled(key, d, Some(helpers + fs), false) ==
            if CountDefinitions(d.nodes) > 0 && AllLegible(name, key, d', exprs, other) then Visual(doc, doc != d) else Custom(d)
  {
    DeclarationsMatch(name, d, d', style, exprs, other, helpers);
    ReadingStarts(name, key, d, ValuesOf(exprs, other));
    DefinitionsRead(name, key, d, d', Order(d'), style, emits, other, exprs);
    LegibleMeansAccepted(name, key, d, d', emits, other, exprs);
  }

  ghost predicate IsRead(name: Naming, key: string -> string, d': Document, id: string) {
    IsPrinted(d', id) && Agrees(name, key, id)
  }

  /** Every node comes back as it was edited. */
  ghost predicate AllRecovered(name: Naming, key: string -> string, d: Document, d': Document, exprs: map<string, Expr>, other: Printer)
    requires Shape(d, d')
  {
    forall i :: 0 <= i < |d.nodes| ==>
      Recovered(d.nodes[i], d'.nodes[i], ValueAt(exprs, other, d.nodes[i].id), IsRead(name, key, d', d.nodes[i].id))
  }

  lemma ReadBackExactly(name: Naming, key: string -> string, d: Document, d': Document, emits: Emitters, other: Printer,
                        exprs: map<string, Expr>)
    requires d.UniqueIds() && d'.UniqueIds() && Shape(d, d') && exprs == Expressions(name, d', emits)
    requires RoundTrips(name, key, d, d', exprs, other)
    ensures ReadBack(name, key, d, d', exprs, other) == d' <==> AllRecovered(name, key, d, d', exprs, other)
  {
    PrintedWell(name, key, d, d', Order(d'), exprs, other);
    var doc := ReadBack(name, key, d, d', exprs, other);
    forall i | 0 <= i < |d.nodes|
      ensures doc.nodes[i] == d'.nodes[i] <==>
              Recovered(d.nodes[i], d'.nodes[i], ValueAt(exprs, other, d.nodes[i].id), IsRead(name, key, d', d.nodes[i].id))
    {
      NodeReadBack(name, key, d, d', emits, other, exprs, i);
    }
    SameElements(doc.nodes, d'.nodes);
  }

  lemma SameElements<T>(s: seq<T>, t: seq<T>)
    requires |s| == |t|
    ensures s == t <==> forall i :: 0 <= i < |s| ==> s[i] == t[i]
  {
  }

  lemma NodeReadBack(name: Naming, key: string -> string, d: Document, d': Document, emits: Emitters, other: Printer,
                     exprs: map<string, Expr>, i: nat)
    requires d.UniqueIds() && d'.UniqueIds() && Shape(d, d') && exprs == Expressions(name, d', emits) && i < |d.nodes|
    requires IsPrinted(d', d.nodes[i].id) ==> d.nodes[i].id in exprs
    ensures ReadBack(name, key, d, d', exprs, other).nodes[i] == d'.nodes[i] <==>
            Recovered(d.nodes[i], d'.nodes[i], ValueAt(exprs, other, d.nodes[i].id), IsRead(name, key, d', d.nodes[i].id))
  {
    var n, n' := d.nodes[i], d'.nodes[i];
    assert SameButLiterals(n, n') && n in d.nodes && n' in d'.nodes;
    AtUnique(d, n);
    AtUnique(d', n');
    NodeAfter(name, key, d, d', exprs, other, i);
    if IsRead(name, key, d', n.id) { NodeRead(name, d', n, emits, other); }
  }

  lemma NodeAfter(name: Naming, key: string -> string, d: Document, d': Document, exprs: map<string, Expr>, other: Printer, i: nat)
    requires d.UniqueIds() && i < |d.nodes| && (IsPrinted(d', d.nodes[i].id) ==> d.nodes[i].id in exprs)
    ensures var n := d.nodes[i];
            ReadBack(name, key, d, d', exprs, other).nodes[i] ==
            n.(config := if IsRead(name, key, d', n.id) then Effect(n.config, ValueAt(exprs, other, n.id)) else n.config)
  {
    assert d.nodes[i] in d.nodes;
    AtUnique(d, d.nodes[i]);
  }

  /** Printing and reading undo each other: the edited document comes back as visual exactly when the module
      declares something, every printed node is legible and every node is recovered. */
  lemma RoundTripExactly(name: Naming, key: string -> string, d: Document, d': Document, style: Style, emits: Emitters, other: Printer,
                         exprs: map<string, Expr>, helpers: seq<PyFunction>)
    requires d.UniqueIds() && d'.UniqueIds() && Shape(d, d') && WellFormed(d') && exprs == Expressions(name, d', emits)
    requires RoundTrips(name, key, d, d', exprs, other) && forall f :: f in helpers ==> !Declaring(f)
    ensures var fs := FunctionsOf(d', Definitions(name, d', Order(d'), style, exprs), other);
            Reconciled(key, d, Some(helpers + fs), false) == Visual(d', d' != d) <==>
            && CountDefinitions(d.nodes) > 0 && AllLegible(name, key, d', exprs, other)
            && AllRecovered(name, key, d, d', exprs, other)
  {
    ReconcilesTo(name, key, d, d', style, emits, other, exprs, helpers);
    ReadBackExactly(name, key, d, d', emits, other, exprs);
  }

  // ---- Which ids agree ----

  predicate IsPlainChar(c: char) { IsDigit(c) || 'a' <= c <= 'z' }

  /** At most eight lower-case letters and digits. */
  predicate IsShort(id: string) { |id| <= 8 && forall c :: c in id ==> IsPlainChar(c) }

  lemma SuffixShape(id: string)
    ensures |Suffix(id)| <= 8 && forall c :: c in Suffix(id) ==> IsPlainChar(c)
  {
    FilterMembers(Alnum(), id);
    var s := LastEight(Filter(Alnum(), id));
    forall i | 0 <= i < |s| ensures IsPlainChar(Lower(s[i])) {
      assert s[i] in Filter(Alnum(), id);
      assert Alnum()(s[i]);
    }
  }

  lemma PlainSuffixStays(id: string)
    requires IsShort(id)
    ensures Suffix(id) == id
  {
    forall c | c in id ensures Alnum()(c) {}
    FilterKeeps(Alnum(), id);
    forall i | 0 <= i < |id| ensures Lower(id[i]) == id[i] { assert id[i] in id; }
  }

  /** The printed variable is the one the reader expects exactly for short plain ids. */
  lemma AgreesExactly(id: string)
    ensures Agrees(Var, Key, id) <==> IsShort(id)
  {
    assert Var(id, None) == "n_" + Suffix(id) + "" == "n_" + Suffix(id);
    assert ("n_" + Suffix(id))[2..] == Suffix(id) && ("n_" + Dashed(id))[2..] == Dashed(id);
    SuffixShape(id);
    if Agrees(Var, Key, id) {
      assert Suffix(id) == Dashed(id);
      forall i | 0 <= i < |id| ensures IsPlainChar(id[i]) {
        assert Dashed(id)[i] in Suffix(id);
      }
    }
    if IsShort(id) {
      PlainSuffixStays(id);
      forall i | 0 <= i < |id| ensures Dashed(id)[i] == id[i] { assert id[i] in id; }
    }
  }

  lemma KeyIsTaken(d: Document, u: string, b: string)
    requires Key(b) == Var(u, None)
    ensures Dashed(b) == Suffix(u) && |b| <= 8
  {
    assert Var(u, None) == "n_" + Suffix(u) + "" == "n_" + Suffix(u);
    assert ("n_" + Suffix(u))[2..] == Suffix(u) && ("n_" + Dashed(b))[2..] == Dashed(b);
    SuffixShape(u);
  }

  /** With short plain ids the reader mixes nothing up. */
  lemma ShortIdsApply(d: Document, u: string)
    requires (forall n :: n in d.nodes ==> IsShort(n.id)) && IsShort(u)
    ensures NoMixup(Var, ByVar(Key, d.nodes), u)
  {
    var byVar := ByVar(Key, d.nodes);
    ByVarMembers(Key, d.nodes);
    if Var(u, None) in byVar {
      var b := byVar[Var(u, None)];
      KeyIsTaken(d, u, b);
      PlainSuffixStays(u);
      assert IsShort(b);
      forall i | 0 <= i < |b| ensures Dashed(b)[i] == b[i] { assert b[i] in b; }
      assert b == u;
    }
  }

  /** The nodes of all definitions are printed. */
  lemma PrintsWell(name: Naming, d: Document, id: string, u: string, emits: Emitters)
    requires d.UniqueIds() && WellFormed(d) && OutputsPrint(name, d, Order(d), emits) && IsOutput(d, id) && u in DefinitionScope(d, id)
    ensures u in d.Ids() && u in Expressions(name, d, emits)
  {
    ShortOrderMeansCycle(d);
    assert id in Order(d) && DefinitionPrints(name, d, id, emits);
    ScopeListed(d, id);
    assert u in ScopeOrder(d, DefinitionScope(d, id));
  }

  /** With ids longer than eight characters, such as ULIDs, the reader recognises no variable. Whatever
      literals were edited, reconciling returns the old document unchanged: as visual, or as custom when
      nothing is declared or a quality check is printed. */
  lemma LongIdsLoseEdits(d: Document, d': Document, style: Style, emits: Emitters, other: Printer, exprs: map<string, Expr>,
                         helpers: seq<PyFunction>)
    requires d.UniqueIds() && d'.UniqueIds() && Shape(d, d') && WellFormed(d') && exprs == Expressions(Var, d', emits)
    requires OutputsPrint(Var, d', Order(d'), emits) && forall n :: n in d.nodes ==> |n.id| > 8
    requires forall id :: IsOutput(d', id) ==> CdcFits(Var, Key, d, d', ValuesOf(exprs, other), id)
    requires forall f :: f in helpers ==> !Declaring(f)
    ensures var fs := FunctionsOf(d', Definitions(Var, d', Order(d'), style, exprs), other);
            Reconciled(Key, d, Some(helpers + fs), false) ==
            if CountDefinitions(d.nodes) > 0 && (forall u :: IsPrinted(d', u) && u in d'.Ids() ==> !d'.KindAt(u).Quality?)
            then Visual(d, false) else Custom(d)
  {
    ByVarMembers(Key, d.nodes);
    forall u ensures Var(u, None) !in ByVar(Key, d.nodes) {
      if Var(u, None) in ByVar(Key, d.nodes) { KeyIsTaken(d, u, ByVar(Key, d.nodes)[Var(u, None)]); }
    }
    forall id, u | IsOutput(d', id) && u in DefinitionScope(d', id) ensures ReadsWell(Var, Key, d, d', exprs, u) {
      PrintsWell(Var, d', id, u, emits);
    }
    ReconcilesTo(Var, Key, d, d', style, emits, other, exprs, helpers);
    PrintedWell(Var, Key, d, d', Order(d'), exprs, other);
    NothingRead(d, d', exprs, other);
    NothingRefused(d, d', exprs, other);
  }

  lemma NothingRead(d: Document, d': Document, exprs: map<string, Expr>, other: Printer)
    requires d.UniqueIds() && forall n :: n in d.nodes ==> |n.id| > 8
    ensures ReadBack(Var, Key, d, d', exprs, other) == d
  {
    var configs := After(Var, Key, d, ValuesOf(exprs, other), PrintedIn(d', Order(d'))).configs;
    forall u | u in d.Ids() ensures configs[u] == d.At(u).config { LongDisagrees(d, u); }
    ConfigsKept(d, configs);
  }

  lemma NothingRefused(d: Document, d': Document, exprs: map<string, Expr>, other: Printer)
    requires d.UniqueIds() && Shape(d, d') && d'.UniqueIds() && forall n :: n in d.nodes ==> |n.id| > 8
    requires forall u :: IsPrinted(d', u) ==> u in d'.Ids()
    ensures AllLegible(Var, Key, d', exprs, other) <==> forall u :: IsPrinted(d', u) && u in d'.Ids() ==> !d'.KindAt(u).Quality?
  {
    forall u | u in d'.Ids() ensures !Agrees(Var, Key, u) {
      ShapeAt(d, d', u);
      LongDisagrees(d, u);
    }
  }

  lemma LongDisagrees(d: Document, u: string)
    requires u in d.Ids() && forall n :: n in d.nodes ==> |n.id| > 8
    ensures !Agrees(Var, Key, u)
  {
    assert d.Has(u, d.At(u));
    AgreesExactly(u);
  }

  lemma ConfigsKept(d: Document, configs: map<string, Config>)
    requires d.UniqueIds() && forall u :: u in configs && u in d.Ids() ==> configs[u] == d.At(u).config
    ensures WithConfigs(d.nodes, configs) == d.nodes
  {
    forall i | 0 <= i < |d.nodes| ensures WithConfigs(d.nodes, configs)[i] == d.nodes[i] {
      assert d.nodes[i] in d.nodes;
      AtUnique(d, d.nodes[i]);
    }
  }

  /** The round trip for short plain ids: the edited document comes back as visual exactly when the module
      declares something, every printed node is legible, every printed node is recovered and no other node
      was edited. */
  lemma ShortIdsRoundTrip(d: Document, d': Document, style: Style, emits: Emitters, other: Printer, exprs: map<string, Expr>,
                          helpers: seq<PyFunction>)
    requires d.UniqueIds() && d'.UniqueIds() && Shape(d, d') && WellFormed(d') && exprs == Expressions(Var, d', emits)
    requires OutputsPrint(Var, d', Order(d'), emits) && forall n :: n in d.nodes ==> IsShort(n.id)
    requires forall id :: IsOutput(d', id) ==> CdcFits(Var, Key, d, d', ValuesOf(exprs, other), id)
    requires forall f :: f in helpers ==> !Declaring(f)
    ensures var fs := FunctionsOf(d', Definitions(Var, d', Order(d'), style, exprs), other);
            Reconciled(Key, d, Some(helpers + fs), false) == Visual(d', d' != d) <==>
            CountDefinitions(d.nodes) > 0 && PrintedLegible(d', exprs, other) && PrintedRecovered(d, d', exprs, other)
  {
    forall id, u | IsOutput(d', id) && u in DefinitionScope(d', id) ensures ReadsWell(Var, Key, d, d', exprs, u) {
      PrintsWell(Var, d', id, u, emits);
      ShapeAt(d, d', u);
      assert d.Has(u, d.At(u));
      ShortIdsApply(d, u);
    }
    RoundTripExactly(Var, Key, d, d', style, emits, other, exprs, helpers);
    ShortAgree(d, d', exprs, other);
  }

  /** Every printed node is legible. */
  ghost predicate PrintedLegible(d': Document, exprs: map<string, Expr>, other: Printer) {
    forall u :: IsPrinted(d', u) ==> u in d'.Ids() && Legible(d'.At(u), ValueAt(exprs, other, u), true)
  }

  /** Every printed node is recovered, and no other was edited. */
  ghost predicate PrintedRecovered(d: Document, d': Document, exprs: map<string, Expr>, other: Printer)
    requires Shape(d, d')
  {
    forall i :: 0 <= i < |d.nodes| ==>
      Recovered(d.nodes[i], d'.nodes[i], ValueAt(exprs, other, d.nodes[i].id), IsPrinted(d', d.nodes[i].id))
  }

  lemma ShortAgree(d: Document, d': Document, exprs: map<string, Expr>, other: Printer)
    requires d.UniqueIds() && d'.UniqueIds() && Shape(d, d') && forall n :: n in d.nodes ==> IsShort(n.id)
    ensures AllLegible(Var, Key, d', exprs, other) <==> PrintedLegible(d', exprs, other)
    ensures AllRecovered(Var, Key, d, d', exprs, other) <==> PrintedRecovered(d, d', exprs, other)
  {
    forall u | u in d'.Ids() ensures Agrees(Var, Key, u) {
      ShapeAt(d, d', u);
      assert d.Has(u, d.At(u));
      AgreesExactly(u);
    }
    forall i | 0 <= i < |d.nodes| ensures Agrees(Var, Key, d.nodes[i].id) {
      assert d.nodes[i] in d.nodes;
      AgreesExactly(d.nodes[i].id);
    }
  }

  predicate GainsEntry(n: Node) {
    || ((n.kind == Source("dataset_reference") || n.kind.ComponentInput?) && TextAt(n.config, "name") && "table" !in n.config)
    || (n.kind == Transform("flatten_struct") && TextAt(n.config, "column") && "columns" !in n.config)
  }

  lemma GainsAreNotRecovered(n: Node, v: Py)
    requires GainsEntry(n)
    ensures !Recovered(n, n, v, true)
  {
    assert FormOf(n.kind) == if IsReader(n.kind) then Referenced else Flattened;
    assert Typed(FormOf(n.kind), n.config) && !Kept(FormOf(n.kind), n.config);
  }

  /** So even an unedited document with short ids does not come back when it prints a dataset reference or
      a component input without a "table" entry or a struct flattened without that column in "columns". */
  lemma UneditedComesBackChanged(d: Document, style: Style, emits: Emitters, other: Printer, exprs: map<string, Expr>,
                                 helpers: seq<PyFunction>, n: Node)
    requires d.UniqueIds() && WellFormed(d) && exprs == Expressions(Var, d, emits) && OutputsPrint(Var, d, Order(d), emits)
    requires forall n :: n in d.nodes ==> IsShort(n.id)
    requires forall id :: IsOutput(d, id) ==> CdcFits(Var, Key, d, d, ValuesOf(exprs, other), id)
    requires forall f :: f in helpers ==> !Declaring(f)
    requires n in d.nodes && IsPrinted(d, n.id) && GainsEntry(n)
    ensures var fs := FunctionsOf(d, Definitions(Var, d, Order(d), style, exprs), other);
            Reconciled(Key, d, Some(helpers + fs), false) != Visual(d, false)
  {
    ShortIdsRoundTrip(d, d, style, emits, other, exprs, helpers);
    GainsAreNotRecovered(n, ValueAt(exprs, other, n.id));
    var i :| 0 <= i < |d.nodes| && d.nodes[i] == n;
    assert !PrintedRecovered(d, d, exprs, other);
  }

  // ---- Quality checks ----

  lemma CheckIsOther(before: seq<Line>, line: Line, after: seq<Line>, other: Printer)
    requires line.CheckAppend?
    ensures OtherStatement in Statements(before + [line] + after, other)
  {
    StatementsAppend(before + [line], after, other);
    StatementsAppend(before, [line], other);
    assert [line][..0] == [];
    assert Statements([line], other) == [] + StatementOf(line, other);
    assert OtherStatement in StatementOf(line, other);
  }

  lemma {:induction false} BodyHolds(name: Naming, d: Document, ids: seq<string>, style: Style, exprs: map<string, Expr>, u: string,
                                     line: Line)
    requires u in ids && line in BodyPart(name, d, u, style, exprs)
    ensures line in Body(name, d, ids, style, exprs)
  {
    SplitLast(ids);
    if u != ids[|ids| - 1] { BodyHolds(name, d, ids[..|ids| - 1], style, exprs, u, line); }
  }

  lemma {:induction false} FunctionPrinted(name: Naming, d: Document, ids: seq<string>, style: Style, exprs: map<string, Expr>,
                                           other: Printer, id: string)
    requires id in ids && IsOutput(d, id)
    ensures FunctionOf(d, DefinitionOf(name, d, id, style, exprs), other)
            in FunctionsOf(d, Definitions(name, d, ids, style, exprs), other)
  {
    var before, last := ids[..|ids| - 1], ids[|ids| - 1];
    SplitLast(ids);
    var defs := Definitions(name, d, before, style, exprs);
    if id != last { FunctionPrinted(name, d, before, style, exprs, other, id); }
    if IsOutput(d, last) {
      assert Definitions(name, d, ids, style, exprs) == defs + [DefinitionOf(name, d, last, style, exprs)];
      FunctionsGrow(d, defs, DefinitionOf(name, d, last, style, exprs), other);
    } else {
      assert Definitions(name, d, ids, style, exprs) == defs + [] == defs;
    }
  }

  /** The registration printed for a quality check is code the reader does not know: a module that prints one
      is reported as code-owned even when nothing was edited. */
  lemma QualityIsCodeOwned(name: Naming, key: string -> string, d: Document, d': Document, style: Style, emits: Emitters,
                           other: Printer, exprs: map<string, Expr>, helpers: seq<PyFunction>, id: string, u: string)
    requires d.UniqueIds() && d'.UniqueIds() && Shape(d, d') && WellFormed(d') && exprs == Expressions(name, d', emits)
    requires forall f :: f in helpers ==> !Declaring(f)
    requires IsOutput(d', id) && u in DefinitionScope(d', id) && u in exprs && d'.KindAt(u).Quality?
    ensures var fs := FunctionsOf(d', Definitions(name, d', Order(d'), style, exprs), other);
            Reconciled(key, d, Some(helpers + fs), false) == Custom(d)
  {
    var fs := FunctionsOf(d', Definitions(name, d', Order(d'), style, exprs), other);
    DeclarationsMatch(name, d, d', style, exprs, other, helpers);
    ShortOrderMeansCycle(d');
    assert id in Order(d');
    FunctionPrinted(name, d', Order(d'), style, exprs, other, id);
    CheckPrinted(name, d', id, u, style, exprs, other);
    var p := Progress(ConfigsOf(d.nodes), true);
    var f := FunctionOf(d', DefinitionOf(name, d', id, style, exprs), other);
    UnknownStatement(IdList(d.nodes), ByVar(key, d.nodes), p, fs, f);
  }

  lemma UnknownStatement(ids: seq<string>, byVar: map<string, string>, p: Progress, fs: seq<PyFunction>, f: PyFunction)
    requires f in fs && OtherStatement in f.body
    ensures !ReadFunctions(ids, byVar, p, fs).clean
  {
    FunctionsClean(ids, byVar, p, fs);
    assert !StatementLegible(byVar, p.configs.Keys, OtherStatement);
  }

  lemma CheckPrinted(name: Naming, d: Document, id: string, u: string, style: Style, exprs: map<string, Expr>, other: Printer)
    requires d.UniqueIds() && WellFormed(d) && IsOutput(d, id) && u in DefinitionScope(d, id)
    requires u in d.Ids() && u in exprs && d.KindAt(u).Quality?
    ensures OtherStatement in FunctionOf(d, DefinitionOf(name, d, id, style, exprs), other).body
  {
    ScopeListed(d, id);
    var ids := ScopeOrder(d, DefinitionScope(d, id));
    var def := DefinitionOf(name, d, id, style, exprs);
    assert d.Has(u, d.At(u));
    var line := CheckAppend(u);
    RegistrationPrinted(name, d.At(u), exprs[u], style);
    BodyHolds(name, d, ids, style, exprs, u, line);
    PartsText(name, d, ids, style, exprs);
    InTheMiddle(def.head, PartText(def.parts), def.tail, line);
    TextHasOther(DefinitionText(def), line, other);
  }

  lemma InTheMiddle<T>(a: seq<T>, b: seq<T>, c: seq<T>, x: T)
    requires x in b
    ensures x in a + b + c
  {
    var i :| 0 <= i < |b| && b[i] == x;
    assert (a + b + c)[|a| + i] == x;
  }

  lemma TextHasOther(text: seq<Line>, line: Line, other: Printer)
    requires line in text && line.CheckAppend?
    ensures OtherStatement in Statements(text, other)
  {
    var i :| 0 <= i < |text| && text[i] == line;
    assert text == text[..i] + [line] + text[i + 1..];
    CheckIsOther(text[..i], line, text[i + 1..], other);
  }

  lemma RegistrationPrinted(name: Naming, n: Node, expr: Expr, style: Style)
    requires n.kind.Quality?
    ensures CheckAppend(n.id) in NodeLines(name, n, expr, style)
  {
    assert NodeLines(name, n, expr, style)[if style.marked then 1 else 0] == CheckAppend(n.id);
  }
}
