/** What the module generated by python/sdpstudio_codegen/python_backend.py computes, when generating
    it crashes, and what its source map and markers say. */
module PythonCorrectness {
  import opened Sorting
  import opened Digraph
  import opened Documents
  import opened Graph
  import opened Validation
  import opened Meaning
  import opened Scopes
  import opened PythonNames
  import opened PythonProgram
  import opened SourceMap
  import opened PythonBackend
  import opened PythonEmitter
  import opened PythonProject

  // ---- Meaning ----

  ghost predicate TextNames(d: Document) {
    forall n :: n in d.nodes && n.kind.IsDefinition() ==> "name" in n.config && n.config["name"].Str?
  }

  /** Within each definition the last eight letters and digits of the ids tell the nodes apart. */
  ghost predicate ShortIdsApart(d: Document) {
    forall id :: IsOutput(d, id) ==> SuffixesDistinct(DefinitionScope(d, id))
  }

  /** An edge that leaves a split by its accepted port and is printed in the definition of id. */
  ghost predicate UsesAccepted(d: Document, id: string, e: Edge) {
    && ReadsAccepted(d, e) && e.dst.port != Reference
    && (e.dst.node == id
        || (e.dst.node in DefinitionScope(d, id) && e.dst.node in d.Ids() && !d.KindAt(e.dst.node).Dataset?))
  }

  lemma DefinitionsAreNamed(n: Node)
    requires NodeOk(n) && n.kind.IsDefinition()
    ensures HasField(n.config, "name")
  {
    assert "name" in Required(n.kind).value;
  }

  lemma SuitedNames(d: Document)
    requires WellFormed(d) && Suited(Identifier, d) && TextNames(d)
    ensures NamedOutputs(d)
  {
    forall a, b | a in d.nodes && b in d.nodes && SameOutput(a, b) ensures a == b {
      assert NodeOk(a) && NodeOk(b);
      DefinitionsAreNamed(a);
      DefinitionsAreNamed(b);
      assert Clash(Identifier, a, b);
    }
  }

  lemma OutputsPrintable(name: Naming, d: Document, emits: Emitters)
    requires d.UniqueIds() && WellFormed(d) && OutputsPrint(name, d, Order(d), emits)
    requires forall id :: IsOutput(d, id) ==> NamesApart(name, DefinitionScope(d, id))
    ensures Printable(name, d, Expressions(name, d, emits), emits)
  {
    ShortOrderMeansCycle(d);
    forall id | IsOutput(d, id)
      ensures Printed(name, d, Expressions(name, d, emits), DefinitionScope(d, id), emits)
    {
      DefinitionScopeReady(d, id);
      assert id in Order(d);
      ScopeListed(d, id);
    }
  }

  lemma ScopeListed(d: Document, id: string)
    requires d.UniqueIds() && WellFormed(d) && IsOutput(d, id)
    ensures forall u :: u in ScopeOrder(d, DefinitionScope(d, id)) <==> u in DefinitionScope(d, id)
    ensures DefinitionScope(d, id) <= d.Ids()
  {
    ShortOrderMeansCycle(d);
    DefinitionScopeReady(d, id);
    FilterMembers(Within(DefinitionScope(d, id)), Order(d));
    forall u ensures u in ScopeOrder(d, DefinitionScope(d, id)) <==> u in DefinitionScope(d, id) {
      assert Within(DefinitionScope(d, id))(u) <==> u in DefinitionScope(d, id);
    }
  }

  lemma BadNodeUses(d: Document, u: string)
    requires d.UniqueIds() && WellFormed(d) && u in d.Ids() && !d.KindAt(u).Sink?
    ensures BadNode(d, u) <==>
            !d.KindAt(u).Dataset? && exists e :: ReadsAccepted(d, e) && e.dst.port != Reference && e.dst.node == u
  {
    var n := d.At(u);
    assert d.Has(u, n);
    if e :| ReadsAccepted(d, e) && e.dst.port != Reference && e.dst.node == u {
      EdgePorts(d, e);
      InEdgeIs(d, e);
      if !n.kind.Dataset? {
        assert e.dst.port in DataPorts(n.kind);
        assert BadNode(d, u);
      }
    }
    if BadNode(d, u) {
      var p :| p in DataPorts(n.kind) && Connected(d, u, p) && ReadsAccepted(d, InEdge(d, u, p));
      var e := InEdge(d, u, p);
      assert ReadsAccepted(d, e) && e.dst.port != Reference && e.dst.node == u;
    }
  }

  /** A definition stops with an unbound variable exactly when it prints an edge from an accepted port. */
  lemma CleanMeansUnused(d: Document, id: string)
    requires d.UniqueIds() && WellFormed(d) && IsOutput(d, id)
    ensures DefinitionClean(d, id) <==> forall e :: !UsesAccepted(d, id, e)
  {
    ScopeListed(d, id);
    DefinitionScopeReady(d, id);
    assert d.Has(id, d.At(id));
    DefinitionInput(d, d.At(id));
    forall u | u in DefinitionScope(d, id) ensures BadNode(d, u) <==>
      !d.KindAt(u).Dataset? && exists e :: ReadsAccepted(d, e) && e.dst.port != Reference && e.dst.node == u
    {
      BadNodeUses(d, u);
    }
    if e :| UsesAccepted(d, id, e) {
      if e.dst.node != id { assert BadNode(d, e.dst.node); }
      assert !DefinitionClean(d, id);
    }
    if !DefinitionClean(d, id) {
      if Clean(d, ScopeOrder(d, DefinitionScope(d, id))) {
        assert UsesAccepted(d, id, InEdge(d, id, In));
      } else {
        var u :| u in ScopeOrder(d, DefinitionScope(d, id)) && BadNode(d, u);
        var e :| ReadsAccepted(d, e) && e.dst.port != Reference && e.dst.node == u;
        assert UsesAccepted(d, id, e);
      }
    }
  }

  /** Every dataset and sink holds its denotation and no other table changed. */
  ghost predicate StoresMeaning<V(!new)>(d: Document, m: Frames<V>, before: map<string, V>, after: map<string, V>) {
    && (forall n :: n in d.nodes && n.kind.IsDefinition() ==>
          && OutputName(n) in after && PortRef(n.id, Out) in m && after[OutputName(n)] == m[PortRef(n.id, Out)])
    && (forall t :: (t in before || t in after) && (forall n :: n in d.nodes && n.kind.IsDefinition() ==> OutputName(n) != t) ==>
          t in before && t in after && after[t] == before[t])
  }

  /** Every dataset and sink is declared as its own operator, under its name, and nothing else is declared anew. */
  ghost predicate DeclaresKinds(d: Document, before: map<string, Kind>, after: map<string, Kind>) {
    && (forall n :: n in d.nodes && n.kind.IsDefinition() ==> OutputName(n) in after && after[OutputName(n)] == n.kind)
    && (forall t :: (t in before || t in after) && (forall n :: n in d.nodes && n.kind.IsDefinition() ==> OutputName(n) != t) ==>
          t in before && t in after && after[t] == before[t])
  }

  lemma StoredForAll<T>(d: Document, value: map<string, T>, before: map<string, T>, after: map<string, T>)
    requires d.UniqueIds() && WellFormed(d) && Stored(d, value, Order(d), before, after)
    ensures forall n :: n in d.nodes && n.kind.IsDefinition() ==>
              n.id in value && OutputName(n) in after && after[OutputName(n)] == value[n.id]
    ensures forall t :: (t in before || t in after) && (forall n :: n in d.nodes && n.kind.IsDefinition() ==> OutputName(n) != t) ==>
              t in before && t in after && after[t] == before[t]
  {
    ShortOrderMeansCycle(d);
    forall n | n in d.nodes && n.kind.IsDefinition()
      ensures n.id in value && OutputName(n) in after && after[OutputName(n)] == value[n.id]
    {
      AtUnique(d, n);
      assert n.id in Order(d) && IsOutput(d, n.id);
    }
    forall t | (t in before || t in after) && (forall n :: n in d.nodes && n.kind.IsDefinition() ==> OutputName(n) != t)
      ensures t in before && t in after && after[t] == before[t]
    {
      forall id | id in Order(d) && IsOutput(d, id) ensures OutputName(d.At(id)) != t {
        assert d.Has(id, d.At(id));
      }
    }
  }

  /** The nodes that some definition prints. */
  ghost function PrintedNodes(d: Document): set<string> {
    set u | u in d.Ids() && exists id :: IsOutput(d, id) && u in DefinitionScope(d, id)
  }

  ghost predicate ChecksQuality(d: Document, id: string) { id in d.Ids() && d.KindAt(id).Quality? }

  ghost predicate HasPlan(d: Document, id: string) { id in d.Ids() && !d.KindAt(id).Source? }

  /** after is before with the denotation of every node in over. */
  ghost predicate Overlaid<V(!new)>(d: Document, m: Frames<V>, over: set<string>, before: map<string, V>, after: map<string, V>) {
    forall id :: if id in over then id in d.Ids() && FirstRef(d, id) in m && id in after && after[id] == m[FirstRef(d, id)]
                 else (id in after <==> id in before) && (id in before ==> after[id] == before[id])
  }

  /** Of the nodes in ids the quality checks are registered and, with hooks, run on their denotation; with hooks
      the plan captured for one that is no source is that of its denotation. Nothing else is noted. */
  ghost predicate NotesTaken<V(!new)>(d: Document, m: Frames<V>, hooks: bool, ids: set<string>, before: Notes<V>, after: Notes<V>) {
    && after.checks == before.checks + (set id | id in ids && ChecksQuality(d, id))
    && Overlaid(d, m, if hooks then set id | id in ids && ChecksQuality(d, id) else {}, before.tested, after.tested)
    && Overlaid(d, m, if hooks then set id | id in ids && HasPlan(d, id) else {}, before.plans, after.plans)
  }

  /** What running the module leaves behind. */
  ghost predicate Built<V(!new)>(d: Document, m: Frames<V>, hooks: bool, st: Machine<V>, st': Machine<V>) {
    && StoresMeaning(d, m, st.tables, st'.tables)
    && DeclaresKinds(d, st.declared, st'.declared)
    && NotesTaken(d, m, hooks, PrintedNodes(d), st.notes, st'.notes)
  }

  lemma OverlaidTwice<V(!new)>(d: Document, m: Frames<V>, a: set<string>, b: set<string>, x: map<string, V>, y: map<string, V>, z: map<string, V>)
    requires Overlaid(d, m, a, x, y) && Overlaid(d, m, b, y, z)
    ensures Overlaid(d, m, a + b, x, z)
  {
  }

  lemma NotesTakenTwice<V(!new)>(d: Document, m: Frames<V>, hooks: bool, a: set<string>, b: set<string>, x: Notes<V>, y: Notes<V>, z: Notes<V>)
    requires NotesTaken(d, m, hooks, a, x, y) && NotesTaken(d, m, hooks, b, y, z)
    ensures NotesTaken(d, m, hooks, a + b, x, z)
  {
    var checksA, checksB := set id | id in a && ChecksQuality(d, id), set id | id in b && ChecksQuality(d, id);
    var plansA, plansB := set id | id in a && HasPlan(d, id), set id | id in b && HasPlan(d, id);
    assert (set id | id in a + b && ChecksQuality(d, id)) == checksA + checksB;
    assert (set id | id in a + b && HasPlan(d, id)) == plansA + plansB;
    OverlaidTwice(d, m, if hooks then checksA else {}, if hooks then checksB else {}, x.tested, y.tested, z.tested);
    OverlaidTwice(d, m, if hooks then plansA else {}, if hooks then plansB else {}, x.plans, y.plans, z.plans);
  }

  lemma NodeNotesTaken<V(!new)>(d: Document, m: Frames<V>, hooks: bool, id: string, notes: Notes<V>)
    requires d.UniqueIds() && id in d.Ids() && FirstRef(d, id) in m
    ensures NotesTaken(d, m, hooks, {id}, notes, NotedNode(d.At(id), hooks, m[FirstRef(d, id)], notes))
  {
    assert d.Has(id, d.At(id));
    assert (set x | x in {id} && ChecksQuality(d, x)) == if d.KindAt(id).Quality? then {id} else {};
    assert (set x | x in {id} && HasPlan(d, x)) == if d.KindAt(id).Source? then {} else {id};
  }

  lemma NothingNoted<V(!new)>(d: Document, m: Frames<V>, hooks: bool, notes: Notes<V>)
    ensures NotesTaken(d, m, hooks, {}, notes, notes)
  {
    assert (set x: string | x in {} && ChecksQuality(d, x)) == {};
    assert (set x: string | x in {} && HasPlan(d, x)) == {};
  }

  lemma {:induction false} BodyNotesTaken<V(!new)>(d: Document, m: Frames<V>, hooks: bool, ids: seq<string>, notes: Notes<V>)
    requires d.UniqueIds() && forall id :: id in ids ==> id in d.Ids() && FirstRef(d, id) in m
    ensures NotesTaken(d, m, hooks, Members(ids), notes, Noted(d, m, hooks, ids, notes))
  {
    if ids == [] {
      NothingNoted(d, m, hooks, notes);
      assert Members(ids) == {};
    } else {
      var before, id := ids[..|ids| - 1], ids[|ids| - 1];
      SplitLast(ids);
      BodyNotesTaken(d, m, hooks, before, notes);
      var so := Noted(d, m, hooks, before, notes);
      NodeNotesTaken(d, m, hooks, id, so);
      NotesTakenTwice(d, m, hooks, Members(before), {id}, notes, so, Noted(d, m, hooks, ids, notes));
      assert Members(ids) == Members(before) + {id};
    }
  }

  /** The nodes printed in the definitions of the outputs among ids. */
  ghost function PrintedBy(d: Document, ids: seq<string>): set<string> {
    set u | u in d.Ids() && exists id :: id in ids && IsOutput(d, id) && u in DefinitionScope(d, id)
  }

  lemma PrintedGrows(d: Document, ids: seq<string>, id: string)
    ensures PrintedBy(d, ids + [id]) == PrintedBy(d, ids) + (if IsOutput(d, id) then DefinitionScope(d, id) else {})
  {
    var all := ids + [id];
    assert id in all && forall x :: x in ids ==> x in all;
    assert forall x :: x in all ==> x in ids || x == id;
  }

  lemma {:induction false} ModuleNotesTaken<V(!new)>(d: Document, op: Operators<V>, m: Frames<V>, hooks: bool, ids: seq<string>, notes: Notes<V>)
    requires d.UniqueIds() && WellFormed(d) && d.Closed() && IsMeaning(d, op, m)
    ensures NotesTaken(d, m, hooks, PrintedBy(d, ids), notes, ModuleNoted(d, m, hooks, ids, notes))
  {
    if ids == [] {
      NothingNoted(d, m, hooks, notes);
      assert PrintedBy(d, ids) == {};
    } else {
      var before, id := ids[..|ids| - 1], ids[|ids| - 1];
      SplitLast(ids);
      ModuleNotesTaken(d, op, m, hooks, before, notes);
      PrintedGrows(d, before, id);
      if IsOutput(d, id) {
        ScopeNotesTaken(d, op, m, hooks, id, ModuleNoted(d, m, hooks, before, notes));
        NotesTakenTwice(d, m, hooks, PrintedBy(d, before), DefinitionScope(d, id), notes, ModuleNoted(d, m, hooks, before, notes),
                        ModuleNoted(d, m, hooks, ids, notes));
      } else {
        assert PrintedBy(d, ids) == PrintedBy(d, before);
      }
    }
  }

  lemma ScopeNotesTaken<V(!new)>(d: Document, op: Operators<V>, m: Frames<V>, hooks: bool, id: string, notes: Notes<V>)
    requires d.UniqueIds() && WellFormed(d) && d.Closed() && IsMeaning(d, op, m) && IsOutput(d, id)
    ensures NotesTaken(d, m, hooks, DefinitionScope(d, id), notes, Noted(d, m, hooks, ScopeOrder(d, DefinitionScope(d, id)), notes))
  {
    var ids := ScopeOrder(d, DefinitionScope(d, id));
    ScopeListed(d, id);
    forall u | u in ids ensures u in d.Ids() && FirstRef(d, u) in m {
      assert d.Has(u, d.At(u)) && Equation(d, op, m, d.At(u));
    }
    BodyNotesTaken(d, m, hooks, ids, notes);
    assert Members(ids) == DefinitionScope(d, id);
  }

  lemma DoneIsBuilt<V(!new)>(d: Document, op: Operators<V>, m: Frames<V>, hooks: bool, st: Machine<V>, st': Machine<V>)
    requires d.UniqueIds() && WellFormed(d) && d.Closed() && IsMeaning(d, op, m) && ModuleDone(d, m, Order(d), hooks, st, st')
    ensures Built(d, m, hooks, st, st')
  {
    StoresForAll(d, m, st.tables, st'.tables);
    DeclaresForAll(d, st.declared, st'.declared);
    ModuleNotesTaken(d, op, m, hooks, Order(d), st.notes);
    AllPrinted(d);
  }

  lemma AllPrinted(d: Document)
    requires d.UniqueIds() && WellFormed(d)
    ensures PrintedBy(d, Order(d)) == PrintedNodes(d)
  {
    ShortOrderMeansCycle(d);
    forall id | IsOutput(d, id) ensures id in Order(d) {}
  }

  lemma StoresForAll<V(!new)>(d: Document, m: Frames<V>, before: map<string, V>, after: map<string, V>)
    requires d.UniqueIds() && WellFormed(d) && Stored(d, Denotations(d, m), Order(d), before, after)
    ensures StoresMeaning(d, m, before, after)
  {
    StoredForAll(d, Denotations(d, m), before, after);
  }

  lemma DeclaresForAll(d: Document, before: map<string, Kind>, after: map<string, Kind>)
    requires d.UniqueIds() && WellFormed(d) && Stored(d, Kinds(d), Order(d), before, after)
    ensures DeclaresKinds(d, before, after)
  {
    StoredForAll(d, Kinds(d), before, after);
    forall n | n in d.nodes && n.kind.IsDefinition() ensures after[OutputName(n)] == n.kind { AtUnique(d, n); }
  }

  /** Code generation preserves meaning. Run in order against any table store, the generated module leaves every
      dataset and sink equal to its denotation, declared as its own operator, and everything else alone; it
      registers the quality checks of the nodes it prints and, with hooks, runs them on and captures the plans of
      their denotations. Or it stops at an unbound variable, exactly when some definition prints an edge that
      leaves a split by its accepted port. */
  lemma GeneratedModuleMeans<V(!new)>(d: Document, op: Operators<V>, m: Frames<V>, prologue: seq<Line>, style: Style,
                                      emits: Emitters, st: Machine<V>)
    requires d.UniqueIds() && Generates(d, emits) && TextNames(d) && ShortIdsApart(d)
    requires d.Closed() && IsMeaning(d, op, m) && AllText(prologue)
    ensures var defs := Definitions(Var, d, Order(d), style, Expressions(Var, d, emits));
            var r := Run(op, prologue + ModuleText(defs), st);
            if exists id, e :: IsOutput(d, id) && UsesAccepted(d, id, e) then r.None?
            else r.Some? && Built(d, m, style.hooks, st, r.value)
  {
    var exprs := Expressions(Var, d, emits);
    SuitedNames(d);
    forall id | IsOutput(d, id) ensures NamesApart(Var, DefinitionScope(d, id)) { VarNamesApart(DefinitionScope(d, id)); }
    OutputsPrintable(Var, d, emits);
    ModuleMeans(Var, d, op, m, prologue, style, exprs, emits, st);
  }

  /** The same for any naming that keeps the outputs of each definition's nodes apart. */
  lemma ModuleMeans<V(!new)>(name: Naming, d: Document, op: Operators<V>, m: Frames<V>, prologue: seq<Line>, style: Style,
                             exprs: map<string, Expr>, emits: Emitters, st: Machine<V>)
    requires d.UniqueIds() && WellFormed(d) && d.Closed() && NamedOutputs(d) && IsMeaning(d, op, m) && AllText(prologue)
    requires Printable(name, d, exprs, emits)
    ensures var r := Run(op, prologue + ModuleText(Definitions(name, d, Order(d), style, exprs)), st);
            if exists id, e :: IsOutput(d, id) && UsesAccepted(d, id, e) then r.None?
            else r.Some? && Built(d, m, style.hooks, st, r.value)
  {
    var text := ModuleLines(name, d, Order(d), style, exprs);
    DefinitionsText(name, d, Order(d), style, exprs);
    assert Order(d)[..|Order(d)|] == Order(d);
    ModuleRuns(name, d, op, m, |Order(d)|, style, exprs, emits, st);
    TextRuns(op, prologue, st);
    RunAppend(op, prologue, text, st);
    ShortOrderMeansCycle(d);
    forall id | IsOutput(d, id) ensures DefinitionClean(d, id) <==> forall e :: !UsesAccepted(d, id, e) {
      CleanMeansUnused(d, id);
    }
    var r := Run(op, text, st);
    if r.Some? { DoneIsBuilt(d, op, m, style.hooks, st, r.value); }
  }

  /** Why ids must differ in their last eight letters and digits: when both inputs of a combining node
      have one variable, the node combines a dataframe with itself. */
  lemma TwiceTheSame<V(!new)>(op: Operators<V>, kind: Kind, config: Config, v: string, env: map<string, V>, tables: map<string, V>)
    ensures Eval(op, Apply(kind, config, map[Left := v, Right := v], Out), env, tables) ==
            if v in env then Some(op(kind, config, map[Left := env[v], Right := env[v]], Out)) else None
  {
    var args := map[Left := v, Right := v];
    if v in env {
      assert (map p | p in args :: env[args[p]]) == map[Left := env[v], Right := env[v]];
    } else {
      assert Left in args && args[Left] !in env;
    }
  }

  lemma CollidingInputs<V(!new)>(name: Naming, d: Document, op: Operators<V>, id: string, emits: Emitters,
                                 env: map<string, V>, tables: map<string, V>)
    requires d.UniqueIds() && WellFormed(d) && id in d.Ids() && d.KindAt(id).Combine?
    requires Connected(d, id, Left) && Connected(d, id, Right)
    requires ReadVar(name, NodeMap(d.nodes), InEdge(d, id, Left)) == ReadVar(name, NodeMap(d.nodes), InEdge(d, id, Right))
    requires emits(d.KindAt(id), d.At(id).config).Prints?
    ensures OutcomeAt(name, d, id, emits).Emit?
    ensures var v := ReadVar(name, NodeMap(d.nodes), InEdge(d, id, Left));
            Eval(op, OutcomeAt(name, d, id, emits).expr, env, tables) ==
            if v in env then Some(op(d.KindAt(id), d.At(id).config, map[Left := env[v], Right := env[v]], Out)) else None
  {
    ParentsFound(name, d, id);
    var v := ReadVar(name, NodeMap(d.nodes), InEdge(d, id, Left));
    var expr := OutcomeAt(name, d, id, emits).expr;
    assert expr.args == map[Left := v, Right := v];
    TwiceTheSame(op, d.KindAt(id), d.At(id).config, v, env, tables);
  }

  // ---- Functions ----

  /** The Python function that a head defines. */
  function DefinedFunction(head: seq<Line>): Option<string> {
    if head != [] && head[|head| - 1].Def? then Some(FunctionName(head[|head| - 1].flow, head[|head| - 1].output)) else None
  }

  /** Two definitions of an accepted document define functions of one name exactly when one is a sink and the other a
      dataset named like its flow. */
  lemma FunctionsCollideExactly(d: Document, a: Node, b: Node)
    requires WellFormed(d) && Suited(Identifier, d) && TextNames(d) && a in d.nodes && b in d.nodes && a != b
    requires a.kind.IsDefinition() && b.kind.IsDefinition()
    ensures DefinedFunction(OutputHead(a)).Some?
    ensures DefinedFunction(OutputHead(a)) == DefinedFunction(OutputHead(b)) <==>
            || (a.kind.Sink? && b.kind.Dataset? && Identifier(OutputName(b)) == "flow_" + Identifier(OutputName(a)))
            || (b.kind.Sink? && a.kind.Dataset? && Identifier(OutputName(a)) == "flow_" + Identifier(OutputName(b)))
  {
    assert NodeOk(a) && NodeOk(b);
    DefinitionsAreNamed(a);
    DefinitionsAreNamed(b);
    assert !Clash(Identifier, a, b);
    assert OutputName(a) == DeclaredName(a) != "" && OutputName(b) == DeclaredName(b) != "";
    HeadDefines(a);
    HeadDefines(b);
    SamePrefix("flow_", Identifier(OutputName(a)), Identifier(OutputName(b)));
  }

  lemma HeadDefines(n: Node)
    ensures DefinedFunction(OutputHead(n)) == Some(if n.kind.Sink? then "flow_" + Identifier(OutputName(n)) else Identifier(OutputName(n)))
  {
    assert "" + Identifier(OutputName(n)) == Identifier(OutputName(n));
  }

  lemma SamePrefix(prefix: string, x: string, y: string)
    ensures prefix + x == prefix + y <==> x == y
  {
    assert (prefix + x)[|prefix|..] == x && (prefix + y)[|prefix|..] == y;
  }

  // ---- Crashes ----

  /** The nodes whose emitter raises something that is not caught. */
  predicate Unhandled(n: Node, emits: Emitters) {
    if IsReader(n.kind) then !emits(n.kind, n.config).Prints?
    else !n.kind.Dataset? && (n.kind == Utility("parameter") || n.kind == Utility("constant") || emits(n.kind, n.config).OtherError?)
  }

  lemma OutcomeCrashes(name: Naming, d: Document, id: string, u: string, emits: Emitters)
    requires d.UniqueIds() && WellFormed(d) && IsOutput(d, id) && u in DefinitionScope(d, id) && u in d.Ids()
    ensures OutcomeAt(name, d, u, emits).Crash? <==> Unhandled(d.At(u), emits)
  {
    var n := d.At(u);
    assert d.Has(u, n);
    ScopeHasNoSink(d, id, u);
    var e :| e in d.edges && e.src.node == u;
    EdgePorts(d, e);
    assert NodeOk(n);
    ParentsFound(name, d, u);
    PortsFed(d, n);
    if !IsReader(n.kind) && !n.kind.Dataset? { TransformCrashes(n.kind, n.config, ParentsAt(name, d, u), emits); }
  }

  lemma TransformCrashes(kind: Kind, config: Config, parents: map<Port, string>, emits: Emitters)
    requires Required(kind).Some? && OutputPorts(kind) != {} && !IsReader(kind) && !kind.Dataset?
    requires forall p :: p in InputPorts(kind) && !Optional(p) ==> p in parents
    requires forall p :: p in parents ==> p in InputPorts(kind)
    ensures TransformExpr(kind, config, parents, emits).Crash? <==>
            kind == Utility("parameter") || kind == Utility("constant") || emits(kind, config).OtherError?
  {
  }

  /** Generation of an accepted document crashes exactly when the options of a sink cannot be printed, or a
      definition is built from a parameter, a constant, a reader that cannot be printed or a transform whose
      emitter raises anything but a ValueError. */
  lemma CrashesExactly(name: Naming, d: Document, emits: Emitters)
    requires d.UniqueIds() && WellFormed(d)
    ensures OutputsCrash(name, d, Order(d), emits) <==>
            || (exists id :: id in d.Ids() && d.KindAt(id).Sink? && !emits(d.KindAt(id), d.At(id).config).Prints?)
            || (exists id, u :: IsOutput(d, id) && u in DefinitionScope(d, id) && u in d.Ids() && Unhandled(d.At(u), emits))
  {
    ShortOrderMeansCycle(d);
    forall id | IsOutput(d, id)
      ensures DefinitionCrashes(name, d, id, emits) <==>
              || HeadFails(d.At(id), emits)
              || exists u :: u in DefinitionScope(d, id) && u in d.Ids() && Unhandled(d.At(u), emits)
    {
      ScopeListed(d, id);
      forall u | u in DefinitionScope(d, id) ensures OutcomeAt(name, d, u, emits).Crash? <==> Unhandled(d.At(u), emits) {
        OutcomeCrashes(name, d, id, u, emits);
      }
    }
  }

  // ---- Source map and markers ----

  lemma {:induction false} DefinitionsAre(name: Naming, d: Document, ids: seq<string>, style: Style, exprs: map<string, Expr>)
    ensures forall def :: def in Definitions(name, d, ids, style, exprs) ==>
              exists id :: id in ids && IsOutput(d, id) && def == DefinitionOf(name, d, id, style, exprs)
  {
    if ids != [] {
      DefinitionsAre(name, d, ids[..|ids| - 1], style, exprs);
      SplitLast(ids);
    }
  }

  lemma {:induction false} PartsAre(name: Naming, d: Document, ids: seq<string>, style: Style, exprs: map<string, Expr>)
    ensures forall part :: part in Parts(name, d, ids, style, exprs) ==>
              part.node in ids && part.lines == BodyPart(name, d, part.node, style, exprs)
  {
    if ids != [] {
      PartsAre(name, d, ids[..|ids| - 1], style, exprs);
      SplitLast(ids);
    }
  }

  lemma AssignmentsPlain(name: Naming, n: Node, expr: Expr, hooks: bool)
    ensures Plain(Assignments(name, n, expr, hooks)) && Assignments(name, n, expr, hooks) != []
    ensures Assignments(name, n, expr, hooks)[0].Assign? && Assignments(name, n, expr, hooks)[0].v == name(n.id, None)
  {
  }

  /** The lines of a node: never empty; wrapped in markers or free of them; and starting with the
      assignment to the node's variable unless a marker or a check registration comes first. */
  lemma NodeLinesShape(name: Naming, n: Node, expr: Expr, style: Style)
    ensures var lines := NodeLines(name, n, expr, style);
            && lines != [] && (if style.marked then Wrapped(Part(n.id, lines)) else Plain(lines))
            && (lines[0].Assign? <==> !style.marked && !n.kind.Quality?)
            && (lines[0].Assign? ==> lines[0].v == name(n.id, None))
  {
    AssignmentsPlain(name, n, expr, style.hooks);
    var check := if n.kind.Quality? then [CheckAppend(n.id)] else [];
    var plan := if style.hooks && !n.kind.Source? then [CapturePlan(n.id, name(n.id, None))] else [];
    var inner := check + Assignments(name, n, expr, style.hooks) + plan;
    var lines := NodeLines(name, n, expr, style);
    assert Plain(inner) && inner[0] == if n.kind.Quality? then CheckAppend(n.id) else Assignments(name, n, expr, style.hooks)[0];
    if style.marked {
      assert lines == [RegionStart(n.id, false)] + inner + [RegionEnd];
    } else {
      assert lines == inner;
    }
  }

  ghost predicate PartShape(name: Naming, d: Document, style: Style, part: Part) {
    && part.node in d.Ids() && part.lines != []
    && (if style.marked then Wrapped(part) else Plain(part.lines))
    && (part.lines[0].Assign? <==> !style.marked && !d.KindAt(part.node).Quality?)
    && (part.lines[0].Assign? ==> part.lines[0].v == name(part.node, None))
  }

  ghost predicate DefinitionShape(name: Naming, d: Document, style: Style, def: Definition) {
    && Solid(def) && Plain(def.head) && Plain(def.tail) && def.node in d.Ids() && def.tail[0].Return?
    && (def.head[0].Decorator? || def.head[0].SinkDeclaration?)
    && forall part :: part in def.parts ==> PartShape(name, d, style, part)
  }

  lemma PartIsShaped(name: Naming, d: Document, ids: seq<string>, style: Style, emits: Emitters, part: Part)
    requires AllPrint(name, d, ids, emits) && part in Parts(name, d, ids, style, Expressions(name, d, emits))
    ensures PartShape(name, d, style, part)
  {
    var exprs := Expressions(name, d, emits);
    PartsAre(name, d, ids, style, exprs);
    assert d.Has(part.node, d.At(part.node));
    NodeLinesShape(name, d.At(part.node), exprs[part.node], style);
    assert part == Part(part.node, part.lines);
  }

  lemma EndsArePlain(name: Naming, d: Document, id: string, ids: seq<string>)
    requires id in d.Ids() && Incoming(d, id) != []
    ensures Plain(HeadLines(d.At(id), ids)) && |HeadLines(d.At(id), ids)| >= 2
    ensures Plain(ReturnLines(name, d, id)) && ReturnLines(name, d, id) != [] && ReturnLines(name, d, id)[0].Return?
    ensures HeadLines(d.At(id), ids)[0].Decorator? || HeadLines(d.At(id), ids)[0].SinkDeclaration?
  {
  }

  lemma DefinitionIsShaped(name: Naming, d: Document, id: string, style: Style, emits: Emitters)
    requires d.UniqueIds() && WellFormed(d) && IsOutput(d, id)
    requires AllPrint(name, d, ScopeOrder(d, DefinitionScope(d, id)), emits)
    ensures DefinitionShape(name, d, style, DefinitionOf(name, d, id, style, Expressions(name, d, emits)))
  {
    var ids := ScopeOrder(d, DefinitionScope(d, id));
    var def := DefinitionOf(name, d, id, style, Expressions(name, d, emits));
    DefinitionScopeReady(d, id);
    EndsArePlain(name, d, id, ids);
    forall part | part in def.parts ensures PartShape(name, d, style, part) {
      PartIsShaped(name, d, ids, style, emits, part);
    }
    forall i | 0 <= i < |def.parts| ensures def.parts[i].lines != [] { assert def.parts[i] in def.parts; }
  }

  lemma GeneratedShape(name: Naming, d: Document, style: Style, emits: Emitters)
    requires d.UniqueIds() && WellFormed(d) && OutputsPrint(name, d, Order(d), emits)
    ensures forall def :: def in Definitions(name, d, Order(d), style, Expressions(name, d, emits)) ==>
              DefinitionShape(name, d, style, def)
  {
    var exprs := Expressions(name, d, emits);
    DefinitionsAre(name, d, Order(d), style, exprs);
    forall def | def in Definitions(name, d, Order(d), style, exprs) ensures DefinitionShape(name, d, style, def) {
      var id :| id in Order(d) && IsOutput(d, id) && def == DefinitionOf(name, d, id, style, exprs);
      DefinitionIsShaped(name, d, id, style, emits);
    }
  }

  predicate AssignsTo(line: Line, v: string) { line.Assign? && line.v == v }

  /** The range of a node points at the assignment to its variable, unless a marker or the registration
      of a quality check stands above it; the range of an output runs from its declaration to its return. */
  ghost predicate MapsInto(name: Naming, d: Document, style: Style, text: seq<Line>, base: nat, r: SourceRange) {
    && r.node in d.Ids() && base < r.first <= r.last <= base + |text|
    && if IsPoint(r) then
         AssignsTo(text[r.first - base - 1], name(r.node, None)) <==> !style.marked && !d.KindAt(r.node).Quality?
       else
         && (text[r.first - base - 1].Decorator? || text[r.first - base - 1].SinkDeclaration?)
         && text[r.last - base - 1].Return?
  }

  /** The source map of a generated module is laminar, and every range points at what it names. */
  lemma GeneratedSourceMap(name: Naming, d: Document, base: nat, style: Style, emits: Emitters)
    requires d.UniqueIds() && WellFormed(d) && OutputsPrint(name, d, Order(d), emits)
    ensures var defs := Definitions(name, d, Order(d), style, Expressions(name, d, emits));
            && Laminar(ModuleRanges(defs, base), base, base + |ModuleText(defs)|)
            && forall r :: r in ModuleRanges(defs, base) ==> MapsInto(name, d, style, ModuleText(defs), base, r)
  {
    var defs := Definitions(name, d, Order(d), style, Expressions(name, d, emits));
    GeneratedShape(name, d, style, emits);
    forall i | 0 <= i < |defs| ensures Solid(defs[i]) {
      assert defs[i] in defs;
      assert DefinitionShape(name, d, style, defs[i]);
    }
    ModuleLaminar(defs, base);
    forall r | r in ModuleRanges(defs, base) ensures MapsInto(name, d, style, ModuleText(defs), base, r) {
      ModuleRangeAt(defs, base, r);
      var def :| def in defs && PointsInto(def, ModuleText(defs), base, r);
      assert DefinitionShape(name, d, style, def);
      RangeMaps(name, d, style, def, ModuleText(defs), base, r);
    }
  }

  lemma RangeMaps(name: Naming, d: Document, style: Style, def: Definition, text: seq<Line>, base: nat, r: SourceRange)
    requires DefinitionShape(name, d, style, def) && PointsInto(def, text, base, r)
    ensures MapsInto(name, d, style, text, base, r)
  {
    if IsPoint(r) {
      var part :| part in def.parts && part.lines != [] && part.node == r.node && text[r.first - base - 1] == part.lines[0];
      assert PartShape(name, d, style, part);
    }
  }

  lemma {:induction false} UnmarkedParts(name: Naming, d: Document, style: Style, parts: seq<Part>)
    requires !style.marked && forall part :: part in parts ==> PartShape(name, d, style, part)
    ensures Plain(PartText(parts))
  {
    if parts != [] {
      UnmarkedParts(name, d, style, parts[..|parts| - 1]);
      assert PartShape(name, d, style, parts[|parts| - 1]);
    }
  }

  lemma {:induction false} UnmarkedText(name: Naming, d: Document, style: Style, defs: seq<Definition>)
    requires !style.marked && forall def :: def in defs ==> DefinitionShape(name, d, style, def)
    ensures Plain(ModuleText(defs))
  {
    if defs != [] {
      UnmarkedText(name, d, style, defs[..|defs| - 1]);
      assert DefinitionShape(name, d, style, defs[|defs| - 1]);
      UnmarkedParts(name, d, style, defs[|defs| - 1].parts);
    }
  }

  lemma DefinitionMarked(name: Naming, d: Document, style: Style, def: Definition)
    requires style.marked && DefinitionShape(name, d, style, def)
    ensures Marked(def)
  {
    forall j | 0 <= j < |def.parts| ensures Wrapped(def.parts[j]) {
      assert PartShape(name, d, style, def.parts[j]);
    }
  }

  lemma PrologueSkipped(prologue: seq<Line>, text: seq<Line>, base: nat)
    requires Plain(prologue) && base == |prologue|
    ensures Regions(prologue + text, 0, None) == Regions(text, base, None)
  {
    PlainSkipped(prologue, text, 0, None);
  }

  lemma ShapedMarkers(name: Naming, d: Document, style: Style, defs: seq<Definition>, base: nat)
    requires forall def :: def in defs ==> DefinitionShape(name, d, style, def)
    ensures Regions(ModuleText(defs), base, None) == if style.marked then ModuleRegions(defs, base) else []
  {
    var text := ModuleText(defs);
    assert text + [] == text;
    if style.marked {
      forall i | 0 <= i < |defs| ensures Marked(defs[i]) { DefinitionMarked(name, d, style, defs[i]); }
      MarkersRoundTrip(defs, base);
      assert Regions(text + [], base, None) == ModuleRegions(defs, base) + Regions([], base + |text|, None);
    } else {
      UnmarkedText(name, d, style, defs);
      PlainSkipped(text, [], base, None);
    }
  }

  /** With markers on, parsing the generated file gives back the region of every node printed, in
      order, except nodes whose id the marker syntax cannot carry; with markers off it gives nothing. */
  lemma GeneratedMarkers(name: Naming, d: Document, prologue: seq<Line>, style: Style, emits: Emitters)
    requires d.UniqueIds() && WellFormed(d) && OutputsPrint(name, d, Order(d), emits) && Plain(prologue)
    ensures var defs := Definitions(name, d, Order(d), style, Expressions(name, d, emits));
            Regions(prologue + ModuleText(defs), 0, None) == if style.marked then ModuleRegions(defs, |prologue|) else []
  {
    var defs := Definitions(name, d, Order(d), style, Expressions(name, d, emits));
    GeneratedShape(name, d, style, emits);
    var base := |prologue|;
    ShapedMarkers(name, d, style, defs, base);
    PrologueSkipped(prologue, ModuleText(defs), base);
  }
}
