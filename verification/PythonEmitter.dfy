/** The loops of `generate_python_project` (python/sdpstudio_codegen/python_backend.py): the text of the
    module and its source map, or what stops them. */
module PythonEmitter {
  import opened Sorting
  import opened Digraph
  import opened Documents
  import opened Graph
  import opened Validation
  import opened Meaning
  import opened Scopes
  import opened PythonNames
  import opened PythonProgram
  import opened SourceMap
  import opened PythonBackend

  datatype Generated =
    | Emitted(lines: seq<Line>, ranges: seq<SourceRange>)
    | Refused(nodes: seq<string>)
    | Crashed

  ghost function OutcomeAt(name: Naming, d: Document, id: string, emits: Emitters): Outcome
    requires id in d.Ids()
  {
    NodeExpr(d.At(id), ParentsAt(name, d, id), emits)
  }

  /** The expression printed for each node for which one is printed. */
  ghost function Expressions(name: Naming, d: Document, emits: Emitters): map<string, Expr> {
    map id | id in d.Ids() && OutcomeAt(name, d, id, emits).Emit? :: OutcomeAt(name, d, id, emits).expr
  }

  // ---- The module as plain data ----

  ghost function Parts(name: Naming, d: Document, ids: seq<string>, style: Style, exprs: map<string, Expr>): seq<Part> {
    if ids == [] then []
    else
      var id := ids[|ids| - 1];
      Parts(name, d, ids[..|ids| - 1], style, exprs) + [Part(id, BodyPart(name, d, id, style, exprs))]
  }

  ghost function DefinitionOf(name: Naming, d: Document, id: string, style: Style, exprs: map<string, Expr>): Definition
    requires id in d.Ids()
  {
    var ids := ScopeOrder(d, DefinitionScope(d, id));
    Definition(id, HeadLines(d.At(id), ids), Parts(name, d, ids, style, exprs), ReturnLines(name, d, id))
  }

  ghost function Definitions(name: Naming, d: Document, ids: seq<string>, style: Style, exprs: map<string, Expr>): seq<Definition> {
    if ids == [] then []
    else
      var id := ids[|ids| - 1];
      Definitions(name, d, ids[..|ids| - 1], style, exprs)
      + (if IsOutput(d, id) then [DefinitionOf(name, d, id, style, exprs)] else [])
  }

  lemma {:induction false} PartsText(name: Naming, d: Document, ids: seq<string>, style: Style, exprs: map<string, Expr>)
    ensures PartText(Parts(name, d, ids, style, exprs)) == Body(name, d, ids, style, exprs)
  {
    if ids != [] {
      var before, id := ids[..|ids| - 1], ids[|ids| - 1];
      PartsText(name, d, before, style, exprs);
      PartsGrow(Parts(name, d, before, style, exprs), Part(id, BodyPart(name, d, id, style, exprs)), 0);
    }
  }

  /** The text of the definitions is what the machine of the meaning theorem runs. */
  lemma {:induction false} DefinitionsText(name: Naming, d: Document, ids: seq<string>, style: Style, exprs: map<string, Expr>)
    ensures ModuleText(Definitions(name, d, ids, style, exprs)) == ModuleLines(name, d, ids, style, exprs)
  {
    if ids != [] {
      var before, id := ids[..|ids| - 1], ids[|ids| - 1];
      DefinitionsText(name, d, before, style, exprs);
      var defs := Definitions(name, d, before, style, exprs);
      if IsOutput(d, id) {
        PartsText(name, d, ScopeOrder(d, DefinitionScope(d, id)), style, exprs);
        ModuleGrows(defs, DefinitionOf(name, d, id, style, exprs), 0);
      } else {
        assert defs + [] == defs;
      }
    }
  }

  // ---- The loops ----

  method CollectParents(name: Naming, index: map<string, Node>, es: seq<Edge>) returns (parents: map<Port, string>)
    ensures parents == ParentVars(name, index, es)
  {
    parents := map[];
    for i := 0 to |es|
      invariant parents == ParentVars(name, index, es[..i])
    {
      assert es[..i + 1][..i] == es[..i];
      parents := parents[es[i].dst.port := ReadVar(name, index, es[i])];
    }
    assert es[..|es|] == es;
  }

  ghost predicate AllPrint(name: Naming, d: Document, ids: seq<string>, emits: Emitters) {
    forall id :: id in ids ==> id in d.Ids() && OutcomeAt(name, d, id, emits).Emit?
  }

  ghost predicate SomeCrash(name: Naming, d: Document, ids: seq<string>, emits: Emitters) {
    exists id :: id in ids && id in d.Ids() && OutcomeAt(name, d, id, emits).Crash?
  }

  lemma PrintGrows(name: Naming, d: Document, ids: seq<string>, i: nat, emits: Emitters)
    requires i < |ids| && ids[i] in d.Ids()
    ensures AllPrint(name, d, ids[..i + 1], emits) <==>
            AllPrint(name, d, ids[..i], emits) && OutcomeAt(name, d, ids[i], emits).Emit?
    ensures SomeCrash(name, d, ids[..i + 1], emits) <==>
            SomeCrash(name, d, ids[..i], emits) || OutcomeAt(name, d, ids[i], emits).Crash?
  {
    assert ids[..i + 1] == ids[..i] + [ids[i]];
  }

  lemma CrashStays(name: Naming, d: Document, ids: seq<string>, i: nat, emits: Emitters)
    requires i <= |ids| && SomeCrash(name, d, ids[..i], emits)
    ensures SomeCrash(name, d, ids, emits) && !AllPrint(name, d, ids, emits)
  {
    var id :| id in ids[..i] && id in d.Ids() && OutcomeAt(name, d, id, emits).Crash?;
    assert id in ids;
  }

  /** `index.nodes`. */
  ghost predicate Indexes(d: Document, index: map<string, Node>) {
    index == NodeMap(d.nodes) && index.Keys == d.Ids() && forall id :: id in index ==> index[id] == d.At(id)
  }

  /** The node loop of one definition; base lines precede. parts is the text so far, node by node. */
  method EmitBody(name: Naming, d: Document, index: map<string, Node>, ids: seq<string>, style: Style,
                  emits: Emitters, base: nat, ghost exprs: map<string, Expr>)
    returns (r: Generated, ghost parts: seq<Part>)
    requires exprs == Expressions(name, d, emits)
    requires Indexes(d, index) && forall id :: id in ids ==> id in d.Ids()
    ensures r.Crashed? <==> SomeCrash(name, d, ids, emits)
    ensures r.Emitted? <==> AllPrint(name, d, ids, emits)
    ensures r.Emitted? ==> parts == Parts(name, d, ids, style, exprs)
    ensures r.Emitted? ==> LaidOut(parts, base, r.lines, r.ranges)
  {
    parts := [];
    var lines, ranges, refused := [], [], [];
    for i := 0 to |ids|
      invariant !SomeCrash(name, d, ids[..i], emits)
      invariant refused == [] <==> AllPrint(name, d, ids[..i], emits)
      invariant refused == [] ==> parts == Parts(name, d, ids[..i], style, exprs)
      invariant LaidOut(parts, base, lines, ranges)
    {
      var id := ids[i];
      PrintGrows(name, d, ids, i, emits);
      var parents := CollectParents(name, index, Sort(ByPort, Incoming(d, id)));
      var outcome := NodeExpr(index[id], parents, emits);
      assert outcome == OutcomeAt(name, d, id, emits);
      match outcome {
        case Crash =>
          CrashStays(name, d, ids, i + 1, emits);
          return Crashed, [];
        case Refuse => refused := refused + [id];
        case Emit(expr) =>
          var more := NodeLines(name, index[id], expr, style);
          assert exprs[id] == expr && more == BodyPart(name, d, id, style, exprs);
          assert ids[..i + 1][..i] == ids[..i] && ids[..i + 1][i] == id;
          var range := SourceRange(id, base + |lines| + 1, base + |lines| + 1);
          LaidOutGrows(parts, base, lines, ranges, Part(id, more), range);
          parts := parts + [Part(id, more)];
          ranges := ranges + [range];
          lines := lines + more;
      }
    }
    assert ids[..|ids|] == ids;
    r := if refused == [] then Emitted(lines, ranges) else Refused(refused);
  }

  /** One definition: head (decorator and signature), body and tail (return); base lines precede. */
  method EmitDefinition(name: Naming, d: Document, index: map<string, Node>, ids: seq<string>, id: string,
                        head: seq<Line>, tail: seq<Line>, style: Style, emits: Emitters, base: nat,
                        ghost exprs: map<string, Expr>)
    returns (r: Generated, ghost def: Definition)
    requires exprs == Expressions(name, d, emits)
    requires Indexes(d, index) && forall x :: x in ids ==> x in d.Ids()
    ensures r.Crashed? <==> SomeCrash(name, d, ids, emits)
    ensures r.Emitted? <==> AllPrint(name, d, ids, emits)
    ensures r.Emitted? ==> def == Definition(id, head, Parts(name, d, ids, style, exprs), tail)
    ensures r.Emitted? ==> r.lines == DefinitionText(def) && r.ranges == DefinitionRanges(def, base)
  {
    var start := base + |head|;
    var body, parts := EmitBody(name, d, index, ids, style, emits, start, exprs);
    def := Definition(id, head, parts, tail);
    if body.Emitted? {
      var range := SourceRange(id, base + 1, start + |body.lines| + 1);
      DefinitionAssembles(def, base, start, body.lines, body.ranges, range);
      r := Emitted(head + body.lines + tail, body.ranges + [range]);
    } else {
      r := body;
    }
  }

  /** `[nid for nid in topological if nid in needed]`. */
  method OrderedScope(d: Document, order: seq<string>, id: string) returns (ids: seq<string>)
    requires d.UniqueIds() && WellFormed(d) && order == Order(d) && IsOutput(d, id)
    ensures ids == ScopeOrder(d, DefinitionScope(d, id)) && forall x :: x in ids ==> x in d.Ids()
    ensures Incoming(d, id) != []
  {
    WellFormedIsClosed(d);
    DefinitionScopeReady(d, id);
    IncomingMembers(d, id);
    var starts := SourceList(Incoming(d, id));
    assert Members(starts) == Sources(d, id);
    var scope := CollectScope(d, starts);
    ids := Filter(Within(scope), order);
    FilterMembers(Within(scope), order);
    OrderFacts(d);
  }

  /** The definition of output id is printed in full. */
  ghost predicate DefinitionPrints(name: Naming, d: Document, id: string, emits: Emitters)
    requires id in d.Ids()
  {
    !HeadFails(d.At(id), emits) && AllPrint(name, d, ScopeOrder(d, DefinitionScope(d, id)), emits)
  }

  /** An exception escapes while it is printed. */
  ghost predicate DefinitionCrashes(name: Naming, d: Document, id: string, emits: Emitters)
    requires id in d.Ids()
  {
    HeadFails(d.At(id), emits) || SomeCrash(name, d, ScopeOrder(d, DefinitionScope(d, id)), emits)
  }

  lemma CrashedNotPrinted(name: Naming, d: Document, id: string, emits: Emitters)
    requires id in d.Ids() && DefinitionCrashes(name, d, id, emits)
    ensures !DefinitionPrints(name, d, id, emits)
  {
    if !HeadFails(d.At(id), emits) {
      var x :| x in ScopeOrder(d, DefinitionScope(d, id)) && x in d.Ids() && OutcomeAt(name, d, x, emits).Crash?;
    }
  }

  ghost predicate OutputsPrint(name: Naming, d: Document, ids: seq<string>, emits: Emitters) {
    forall id :: id in ids && IsOutput(d, id) ==> DefinitionPrints(name, d, id, emits)
  }

  ghost predicate OutputsCrash(name: Naming, d: Document, ids: seq<string>, emits: Emitters) {
    exists id :: id in ids && IsOutput(d, id) && DefinitionCrashes(name, d, id, emits)
  }

  lemma OutputsGrow(name: Naming, d: Document, ids: seq<string>, i: nat, emits: Emitters)
    requires i < |ids|
    ensures ids[..i + 1] == ids[..i] + [ids[i]] && ids[..i + 1][..i] == ids[..i]
    ensures OutputsPrint(name, d, ids[..i + 1], emits) <==>
            OutputsPrint(name, d, ids[..i], emits) && (IsOutput(d, ids[i]) ==> DefinitionPrints(name, d, ids[i], emits))
    ensures OutputsCrash(name, d, ids[..i + 1], emits) <==>
            OutputsCrash(name, d, ids[..i], emits) || (IsOutput(d, ids[i]) && DefinitionCrashes(name, d, ids[i], emits))
  {
    assert ids[..i + 1] == ids[..i] + [ids[i]];
  }

  lemma OutputsCrashStays(name: Naming, d: Document, ids: seq<string>, i: nat, emits: Emitters)
    requires i <= |ids| && OutputsCrash(name, d, ids[..i], emits)
    ensures OutputsCrash(name, d, ids, emits) && !OutputsPrint(name, d, ids, emits)
  {
    var id :| id in ids[..i] && IsOutput(d, id) && DefinitionCrashes(name, d, id, emits);
    assert id in ids;
    CrashedNotPrinted(name, d, id, emits);
  }

  /** What the definition loop has built after ids. */
  ghost predicate ModuleSoFar(name: Naming, d: Document, ids: seq<string>, style: Style, emits: Emitters,
                              exprs: map<string, Expr>, refused: seq<string>, defs: seq<Definition>) {
    && !OutputsCrash(name, d, ids, emits)
    && (refused == [] <==> OutputsPrint(name, d, ids, emits))
    && (refused == [] ==> defs == Definitions(name, d, ids, style, exprs))
  }

  /** Whether the next node stops the loop, is refused or has its definition, and what that does. */
  lemma ModuleSoFarGrows(name: Naming, d: Document, ids: seq<string>, i: nat, style: Style, emits: Emitters,
                         exprs: map<string, Expr>, refused: seq<string>, defs: seq<Definition>)
    requires i < |ids| && ModuleSoFar(name, d, ids[..i], style, emits, exprs, refused, defs)
    ensures !IsOutput(d, ids[i]) ==> ModuleSoFar(name, d, ids[..i + 1], style, emits, exprs, refused, defs)
    ensures IsOutput(d, ids[i]) ==>
              var crashes, prints := DefinitionCrashes(name, d, ids[i], emits), DefinitionPrints(name, d, ids[i], emits);
              && (crashes ==> OutputsCrash(name, d, ids, emits) && !OutputsPrint(name, d, ids, emits))
              && (!crashes && !prints ==>
                    ModuleSoFar(name, d, ids[..i + 1], style, emits, exprs, refused + [ids[i]], defs))
              && (!crashes && prints ==>
                    ModuleSoFar(name, d, ids[..i + 1], style, emits, exprs, refused,
                                defs + [DefinitionOf(name, d, ids[i], style, exprs)]))
  {
    OutputsGrow(name, d, ids, i, emits);
    assert defs + [] == defs;
    if OutputsCrash(name, d, ids[..i + 1], emits) { OutputsCrashStays(name, d, ids, i + 1, emits); }
  }

  /** The text and the source map of the definitions after the prologue. */
  ghost predicate ModuleLaidOut(prologue: seq<Line>, defs: seq<Definition>, lines: seq<Line>, ranges: seq<SourceRange>) {
    lines == prologue + ModuleText(defs) && ranges == ModuleRanges(defs, |prologue|)
  }

  lemma ModuleLaidOutGrows(prologue: seq<Line>, defs: seq<Definition>, lines: seq<Line>, ranges: seq<SourceRange>, def: Definition)
    requires ModuleLaidOut(prologue, defs, lines, ranges)
    ensures ModuleLaidOut(prologue, defs + [def], lines + DefinitionText(def), ranges + DefinitionRanges(def, |lines|))
  {
    ModuleGrows(defs, def, |prologue|);
    AppendAssociates(prologue, ModuleText(defs), DefinitionText(def));
  }

  /** One output: its head may fail to print, and its scope follows the order. */
  method EmitOutput(name: Naming, d: Document, index: map<string, Node>, order: seq<string>, id: string, style: Style,
                    emits: Emitters, base: nat, ghost exprs: map<string, Expr>)
    returns (r: Generated, ghost def: Definition)
    requires d.UniqueIds() && WellFormed(d) && order == Order(d) && IsOutput(d, id) && Indexes(d, index)
    requires exprs == Expressions(name, d, emits)
    ensures r.Crashed? <==> DefinitionCrashes(name, d, id, emits)
    ensures r.Emitted? <==> DefinitionPrints(name, d, id, emits)
    ensures r.Emitted? ==> def == DefinitionOf(name, d, id, style, exprs)
    ensures r.Emitted? ==> r.lines == DefinitionText(def) && r.ranges == DefinitionRanges(def, base)
  {
    if HeadFails(index[id], emits) { return Crashed, Definition(id, [], [], []); }
    var ids := OrderedScope(d, order, id);
    var head, tail := HeadLines(index[id], ids), TailLines(ReadVar(name, index, Incoming(d, id)[0]));
    r, def := EmitDefinition(name, d, index, ids, id, head, tail, style, emits, base, exprs);
  }

  /** Where the definition loop stands after i nodes of the order. */
  ghost predicate ModuleState(name: Naming, d: Document, order: seq<string>, i: nat, prologue: seq<Line>, style: Style, emits: Emitters,
                              refused: seq<string>, defs: seq<Definition>, lines: seq<Line>, ranges: seq<SourceRange>)
    requires i <= |order|
  {
    && ModuleSoFar(name, d, order[..i], style, emits, Expressions(name, d, emits), refused, defs)
    && ModuleLaidOut(prologue, defs, lines, ranges)
  }

  /** One more node: no output, a crash, a refusal or a definition. */
  lemma ModuleStateGrows(name: Naming, d: Document, order: seq<string>, i: nat, prologue: seq<Line>, style: Style, emits: Emitters,
                         refused: seq<string>, defs: seq<Definition>, lines: seq<Line>, ranges: seq<SourceRange>)
    requires i < |order| && ModuleState(name, d, order, i, prologue, style, emits, refused, defs, lines, ranges)
    ensures !IsOutput(d, order[i]) ==> ModuleState(name, d, order, i + 1, prologue, style, emits, refused, defs, lines, ranges)
    ensures IsOutput(d, order[i]) ==>
              var def := DefinitionOf(name, d, order[i], style, Expressions(name, d, emits));
              if DefinitionCrashes(name, d, order[i], emits)
              then OutputsCrash(name, d, order, emits) && !OutputsPrint(name, d, order, emits)
              else if DefinitionPrints(name, d, order[i], emits)
              then ModuleState(name, d, order, i + 1, prologue, style, emits, refused, defs + [def],
                               lines + DefinitionText(def), ranges + DefinitionRanges(def, |lines|))
              else ModuleState(name, d, order, i + 1, prologue, style, emits, refused + [order[i]], defs, lines, ranges)
  {
    ModuleSoFarGrows(name, d, order, i, style, emits, Expressions(name, d, emits), refused, defs);
    if IsOutput(d, order[i]) {
      ModuleLaidOutGrows(prologue, defs, lines, ranges, DefinitionOf(name, d, order[i], style, Expressions(name, d, emits)));
    }
  }

  lemma OrderedExists(d: Document, i: nat)
    requires d.UniqueIds() && i < |Order(d)|
    ensures Order(d)[i] in d.Ids()
  {
    OrderFacts(d);
    assert Order(d)[i] in Order(d);
  }

  /** The definition loop on a validated, lowered document. */
  method EmitModule(name: Naming, d: Document, order: seq<string>, prologue: seq<Line>, style: Style, emits: Emitters)
    returns (r: Generated)
    requires d.UniqueIds() && WellFormed(d) && order == Order(d)
    ensures r.Crashed? <==> OutputsCrash(name, d, order, emits)
    ensures r.Emitted? <==> OutputsPrint(name, d, order, emits)
    ensures r.Emitted? ==>
              var defs := Definitions(name, d, order, style, Expressions(name, d, emits));
              r.lines == prologue + ModuleText(defs) && r.ranges == ModuleRanges(defs, |prologue|)
  {
    ghost var exprs := Expressions(name, d, emits);
    ghost var defs := [];
    var index := NodeMap(d.nodes);
    NodeMapIsAt(d);
    var lines, ranges, refused := prologue, [], [];
    for i := 0 to |order|
      invariant ModuleState(name, d, order, i, prologue, style, emits, refused, defs, lines, ranges)
    {
      var id := order[i];
      OrderedExists(d, i);
      ModuleStateGrows(name, d, order, i, prologue, style, emits, refused, defs, lines, ranges);
      if index[id].kind.IsDefinition() {
        var one, def := EmitOutput(name, d, index, order, id, style, emits, |lines|, exprs);
        match one
        case Crashed => return Crashed;
        case Refused(_) => refused := refused + [id];
        case Emitted(more, moreRanges) =>
          defs := defs + [def];
          ranges := ranges + moreRanges;
          lines := lines + more;
      }
    }
    assert order[..|order|] == order;
    r := if refused == [] then Emitted(lines, ranges) else Refused(refused);
  }
}
