/** `generate_python_project` end to end, and what its output computes
    (python/sdpstudio_codegen/python_backend.py). */
module PythonProject {
  import opened Sorting
  import opened Digraph
  import opened Documents
  import opened Graph
  import opened Validation
  import opened Meaning
  import opened Lowering
  import opened Scopes
  import opened PythonNames
  import opened PythonProgram
  import opened SourceMap
  import opened PythonBackend
  import opened PythonEmitter
  import opened PythonDeterminism

  // ---- _semantic_problems ----

  datatype SemanticProblem =
    | ViewOfStream(node: string)
    | StreamingTableOfBatch(node: string)
    | SinkOfBatch(node: string)
    | JoinWithoutCondition(node: string)
    | DuplicateName(name: string)
    | IdentifierCollision(name: string)

  /** `str(config.get("name", ""))`. */
  function DeclaredName(n: Node): string { TextField(n.config, "name", "") }

  predicate NeedsCondition(n: Node) {
    && n.kind == Combine("join")
    && !("how" in n.config && n.config["how"] == Str("cross")) && !Flag(n.config, "condition")
  }

  ghost predicate ModeFits(n: Node, streaming: bool) {
    && (n.kind == Dataset("materialized_view") ==> !streaming)
    && (n.kind == Dataset("streaming_table") ==> streaming)
    && (n.kind == Sink("external") ==> streaming)
  }

  predicate Declares(n: Node) { n.kind.IsDefinition() && DeclaredName(n) != "" }

  /** Declared names stay apart as Python identifiers. */
  ghost predicate IdentifiersApart(ident: string -> string, nodes: seq<Node>) {
    forall i, j :: 0 <= i < j < |nodes| && Declares(nodes[i]) && Declares(nodes[j]) ==>
      ident(DeclaredName(nodes[i])) != ident(DeclaredName(nodes[j]))
  }

  ghost predicate NodesFit(nodes: seq<Node>, modes: map<string, bool>) {
    forall n :: n in nodes ==> ModeFits(n, n.id in modes && modes[n.id]) && !NeedsCondition(n)
  }

  /** What is wrong with a node by itself. */
  predicate ModeFault(n: Node, streaming: bool, p: SemanticProblem) {
    match p
    case ViewOfStream(id) => id == n.id && n.kind == Dataset("materialized_view") && streaming
    case StreamingTableOfBatch(id) => id == n.id && n.kind == Dataset("streaming_table") && !streaming
    case SinkOfBatch(id) => id == n.id && n.kind == Sink("external") && !streaming
    case JoinWithoutCondition(id) =>
      && id == n.id && n.kind == Combine("join") && !Flag(n.config, "condition")
      && ("how" in n.config ==> n.config["how"] != Str("cross"))
    case _ => false
  }

  method NodeProblems(n: Node, streaming: bool) returns (problems: seq<SemanticProblem>)
    ensures problems == [] <==> ModeFits(n, streaming) && !NeedsCondition(n)
    ensures forall p :: p in problems <==> ModeFault(n, streaming, p)
  {
    problems := [];
    if n.kind == Dataset("materialized_view") && streaming { problems := problems + [ViewOfStream(n.id)]; }
    if n.kind == Dataset("streaming_table") && !streaming { problems := problems + [StreamingTableOfBatch(n.id)]; }
    if n.kind == Sink("external") && !streaming { problems := problems + [SinkOfBatch(n.id)]; }
    if NeedsCondition(n) { problems := problems + [JoinWithoutCondition(n.id)]; }
  }

  ghost predicate NameBefore(nodes: seq<Node>, k: nat, x: string)
    requires k <= |nodes|
  {
    exists i :: 0 <= i < k && Declares(nodes[i]) && DeclaredName(nodes[i]) == x
  }

  ghost predicate IdentifierBefore(ident: string -> string, nodes: seq<Node>, k: nat, x: string)
    requires k <= |nodes|
  {
    exists i :: 0 <= i < k && Declares(nodes[i]) && ident(DeclaredName(nodes[i])) == x
  }

  /** The name of the k-th node repeats one before it, or its identifier does. */
  ghost predicate NameFault(ident: string -> string, nodes: seq<Node>, k: nat, p: SemanticProblem)
    requires k < |nodes|
  {
    match p
    case DuplicateName(x) => Declares(nodes[k]) && DeclaredName(nodes[k]) == x && NameBefore(nodes, k, x)
    case IdentifierCollision(x) => Declares(nodes[k]) && DeclaredName(nodes[k]) == x && IdentifierBefore(ident, nodes, k, ident(x))
    case _ => false
  }

  /** A problem of one of the first k nodes. */
  ghost predicate SemanticFault(ident: string -> string, nodes: seq<Node>, modes: map<string, bool>, k: nat, p: SemanticProblem)
    requires k <= |nodes|
  {
    exists i :: 0 <= i < k && NodeOrNameFault(ident, nodes, modes, i, p)
  }

  ghost predicate NodeOrNameFault(ident: string -> string, nodes: seq<Node>, modes: map<string, bool>, i: nat, p: SemanticProblem)
    requires i < |nodes|
  {
    ModeFault(nodes[i], nodes[i].id in modes && modes[nodes[i].id], p) || NameFault(ident, nodes, i, p)
  }

  ghost predicate FaultsFound(ident: string -> string, nodes: seq<Node>, modes: map<string, bool>, k: nat,
                              problems: seq<SemanticProblem>)
    requires k <= |nodes|
  {
    forall p :: p in problems <==> SemanticFault(ident, nodes, modes, k, p)
  }

  /** The k-th node adds its own problems and those of its name. */
  lemma FaultsFoundNext(ident: string -> string, nodes: seq<Node>, modes: map<string, bool>, k: nat, names: map<string, string>,
                        identifiers: map<string, string>, before: seq<SemanticProblem>, own: seq<SemanticProblem>,
                        clashes: seq<SemanticProblem>)
    requires forall i, j :: 0 <= i < j < |nodes| ==> nodes[i].id != nodes[j].id
    requires k < |nodes| && Remembers(ident, nodes, k, names, identifiers) && FaultsFound(ident, nodes, modes, k, before)
    requires forall p :: p in own <==> ModeFault(nodes[k], nodes[k].id in modes && modes[nodes[k].id], p)
    requires forall p :: p in clashes <==> ClashFault(ident, nodes[k], names, identifiers, p)
    ensures FaultsFound(ident, nodes, modes, k + 1, before + own + clashes)
  {
    forall p ensures p in before + own + clashes <==> SemanticFault(ident, nodes, modes, k + 1, p) {
      SemanticFaultGrows(ident, nodes, modes, k, p);
      NameFaultFound(ident, nodes, k, names, identifiers, p);
      assert p in before + own + clashes <==> p in before || p in own || p in clashes;
    }
  }

  lemma SemanticFaultGrows(ident: string -> string, nodes: seq<Node>, modes: map<string, bool>, k: nat, p: SemanticProblem)
    requires k < |nodes|
    ensures SemanticFault(ident, nodes, modes, k + 1, p) <==>
            SemanticFault(ident, nodes, modes, k, p) || NodeOrNameFault(ident, nodes, modes, k, p)
  {
  }

  lemma ApartGrows(ident: string -> string, nodes: seq<Node>, k: nat)
    requires k < |nodes|
    ensures IdentifiersApart(ident, nodes[..k + 1]) <==>
            && IdentifiersApart(ident, nodes[..k])
            && (Declares(nodes[k]) ==> !IdentifierBefore(ident, nodes, k, ident(DeclaredName(nodes[k]))))
  {
    var before, all := nodes[..k], nodes[..k + 1];
    assert forall i :: 0 <= i < k ==> all[i] == before[i] == nodes[i];
    assert all[k] == nodes[k];
  }

  /** identifiers remembers, for each identifier seen, an earlier node. */
  ghost predicate Remembers(ident: string -> string, nodes: seq<Node>, k: nat, names: map<string, string>,
                            identifiers: map<string, string>)
    requires k <= |nodes|
  {
    && (forall x :: x in names <==> NameBefore(nodes, k, x))
    && (forall x :: x in identifiers <==> IdentifierBefore(ident, nodes, k, x))
    && (forall x :: x in identifiers ==> exists i :: 0 <= i < k && nodes[i].id == identifiers[x])
  }

  lemma RememberNode(ident: string -> string, nodes: seq<Node>, k: nat, names: map<string, string>,
                     identifiers: map<string, string>)
    requires k < |nodes| && Remembers(ident, nodes, k, names, identifiers)
    ensures var n := nodes[k];
            if Declares(n)
            then Remembers(ident, nodes, k + 1, names[DeclaredName(n) := n.id], identifiers[ident(DeclaredName(n)) := n.id])
            else Remembers(ident, nodes, k + 1, names, identifiers)
  {
    var n := nodes[k];
    forall x ensures NameBefore(nodes, k + 1, x) <==> NameBefore(nodes, k, x) || (Declares(n) && DeclaredName(n) == x) {}
    forall x ensures IdentifierBefore(ident, nodes, k + 1, x) <==>
                     IdentifierBefore(ident, nodes, k, x) || (Declares(n) && ident(DeclaredName(n)) == x) {}
  }

  ghost predicate Clashes(ident: string -> string, n: Node, names: map<string, string>, identifiers: map<string, string>) {
    && Declares(n)
    && (DeclaredName(n) in names
        || (ident(DeclaredName(n)) in identifiers && identifiers[ident(DeclaredName(n))] != n.id))
  }

  /** What the last two checks report of a node, given what they remember of the nodes before it. */
  ghost predicate ClashFault(ident: string -> string, n: Node, names: map<string, string>, identifiers: map<string, string>,
                             p: SemanticProblem)
  {
    && Declares(n)
    && match p
       case DuplicateName(x) => x == DeclaredName(n) && x in names
       case IdentifierCollision(x) => x == DeclaredName(n) && ident(x) in identifiers && identifiers[ident(x)] != n.id
       case _ => false
  }

  lemma NodeGrows(ident: string -> string, nodes: seq<Node>, k: nat, modes: map<string, bool>,
                  names: map<string, string>, identifiers: map<string, string>)
    requires forall i, j :: 0 <= i < j < |nodes| ==> nodes[i].id != nodes[j].id
    requires k < |nodes| && Remembers(ident, nodes, k, names, identifiers)
    ensures NodesFit(nodes[..k + 1], modes) && IdentifiersApart(ident, nodes[..k + 1]) <==>
            && NodesFit(nodes[..k], modes) && IdentifiersApart(ident, nodes[..k])
            && ModeFits(nodes[k], nodes[k].id in modes && modes[nodes[k].id]) && !NeedsCondition(nodes[k])
            && !Clashes(ident, nodes[k], names, identifiers)
  {
    var n := nodes[k];
    ApartGrows(ident, nodes, k);
    assert nodes[..k + 1] == nodes[..k] + [n];
    if Declares(n) && NameBefore(nodes, k, DeclaredName(n)) {
      assert IdentifierBefore(ident, nodes, k, ident(DeclaredName(n)));
    }
    if Declares(n) && ident(DeclaredName(n)) in identifiers {
      var i :| 0 <= i < k && nodes[i].id == identifiers[ident(DeclaredName(n))];
      assert nodes[i].id != nodes[k].id;
    }
  }

  /** The last two checks for one node: a repeated name, and an identifier another node has taken. */
  method NameProblems(ident: string -> string, n: Node, names: map<string, string>, identifiers: map<string, string>)
    returns (problems: seq<SemanticProblem>, names': map<string, string>, identifiers': map<string, string>)
    ensures problems == [] <==> !Clashes(ident, n, names, identifiers)
    ensures forall p :: p in problems <==> ClashFault(ident, n, names, identifiers, p)
    ensures if Declares(n)
            then names' == names[DeclaredName(n) := n.id] && identifiers' == identifiers[ident(DeclaredName(n)) := n.id]
            else names' == names && identifiers' == identifiers
  {
    problems, names', identifiers' := [], names, identifiers;
    if Declares(n) {
      var name := DeclaredName(n);
      if name in names { problems := problems + [DuplicateName(name)]; }
      names' := names[name := n.id];
      if ident(name) in identifiers && names'[name] != identifiers[ident(name)] {
        problems := problems + [IdentifierCollision(name)];
      }
      identifiers' := identifiers[ident(name) := n.id];
    }
  }

  lemma NameFaultFound(ident: string -> string, nodes: seq<Node>, k: nat, names: map<string, string>,
                       identifiers: map<string, string>, p: SemanticProblem)
    requires forall i, j :: 0 <= i < j < |nodes| ==> nodes[i].id != nodes[j].id
    requires k < |nodes| && Remembers(ident, nodes, k, names, identifiers)
    ensures NameFault(ident, nodes, k, p) <==>
            ClashFault(ident, nodes[k], names, identifiers, p)
  {
    if p.IdentifierCollision? && ident(p.name) in identifiers {
      var i :| 0 <= i < k && nodes[i].id == identifiers[ident(p.name)];
      assert nodes[i].id != nodes[k].id;
    }
  }

  /** `_semantic_problems`: modes fit their outputs, joins have conditions, and no two declared names give
      the same identifier. names and identifiers remember the last node seen with each. */
  method SemanticProblems(ident: string -> string, nodes: seq<Node>, modes: map<string, bool>)
    returns (problems: seq<SemanticProblem>)
    requires forall i, j :: 0 <= i < j < |nodes| ==> nodes[i].id != nodes[j].id
    ensures problems == [] <==> NodesFit(nodes, modes) && IdentifiersApart(ident, nodes)
    ensures forall p :: p in problems <==> SemanticFault(ident, nodes, modes, |nodes|, p)
  {
    problems := [];
    var names: map<string, string> := map[];
    var identifiers: map<string, string> := map[];
    for k := 0 to |nodes|
      invariant problems == [] <==> NodesFit(nodes[..k], modes) && IdentifiersApart(ident, nodes[..k])
      invariant Remembers(ident, nodes, k, names, identifiers)
      invariant FaultsFound(ident, nodes, modes, k, problems)
    {
      var n := nodes[k];
      NodeGrows(ident, nodes, k, modes, names, identifiers);
      RememberNode(ident, nodes, k, names, identifiers);
      var own := NodeProblems(n, n.id in modes && modes[n.id]);
      var clashes, names', identifiers' := NameProblems(ident, n, names, identifiers);
      FaultsFoundNext(ident, nodes, modes, k, names, identifiers, problems, own, clashes);
      problems := problems + own + clashes;
      names, identifiers := names', identifiers';
    }
    assert nodes[..|nodes|] == nodes;
  }

  // ---- generate_python_project ----

  /** What the generator checks beyond the structure of the graph. */
  ghost predicate Suited(ident: string -> string, d: Document) {
    && (forall n :: n in d.nodes ==> NodeSuited(n, Streams(d, n.id)) && SplitSuited(n))
    && (forall a, b :: a in d.nodes && b in d.nodes && Clash(ident, a, b) ==> a == b)
  }

  /** A split has one of the known conditions, give or take case and blanks around it. */
  ghost predicate SplitSuited(n: Node) {
    n.kind.Split? ==>
      && "condition" in n.config && n.config["condition"].Str?
      && LowerAll(StripRight(StripLeft(n.config["condition"].s))) in {"not_null", "not null", "non_empty", "not_empty"}
  }

  lemma SplitSuitedExactly(n: Node)
    ensures SplitSupported(n) <==> SplitSuited(n)
  {
  }

  /** A materialized view is fed in batches, a streaming table and a sink by streams, and a join has a condition or
      is a cross join. */
  ghost predicate NodeSuited(n: Node, streaming: bool) {
    match n.kind
    case Dataset(op) => (op == "materialized_view" ==> !streaming) && (op == "streaming_table" ==> streaming)
    case Sink(op) => op == "external" ==> streaming
    case Combine(op) => op == "join" ==> Flag(n.config, "condition") || ("how" in n.config && n.config["how"] == Str("cross"))
    case _ => true
  }

  ghost predicate Clash(ident: string -> string, a: Node, b: Node) {
    Declares(a) && Declares(b) && ident(DeclaredName(a)) == ident(DeclaredName(b))
  }

  /** The check of the condition of a quarantine split. */
  predicate SplitSupported(n: Node) {
    n.kind.Split? ==>
      LowerAll(StripRight(StripLeft(TextField(n.config, "condition", "")))) in {"not_null", "not null", "non_empty", "not_empty"}
  }

  lemma ApartIsPairwise(ident: string -> string, nodes: seq<Node>)
    requires forall i, j :: 0 <= i < j < |nodes| ==> nodes[i].id != nodes[j].id
    ensures IdentifiersApart(ident, nodes) <==>
            forall a, b :: a in nodes && b in nodes && Clash(ident, a, b) ==> a == b
  {
    if IdentifiersApart(ident, nodes) {
      forall a, b | a in nodes && b in nodes && Clash(ident, a, b) ensures a == b {
        var i :| 0 <= i < |nodes| && nodes[i] == a;
        var j :| 0 <= j < |nodes| && nodes[j] == b;
        assert !(i < j) && !(j < i);
      }
    } else {
      var i, j :| 0 <= i < j < |nodes| && Declares(nodes[i]) && Declares(nodes[j])
                  && ident(DeclaredName(nodes[i])) == ident(DeclaredName(nodes[j]));
      assert nodes[i] in nodes && nodes[j] in nodes && Clash(ident, nodes[i], nodes[j]);
    }
  }

  method SplitsSupported(nodes: seq<Node>) returns (ok: bool)
    ensures ok <==> forall n :: n in nodes ==> SplitSupported(n)
  {
    for i := 0 to |nodes|
      invariant forall k :: 0 <= k < i ==> SplitSupported(nodes[k])
    {
      if !SplitSupported(nodes[i]) { return false; }
    }
    return true;
  }

  /** An edge from a node that can be ordered to one that cannot, or that does not exist. */
  ghost predicate LeavesOrder(d: Document, e: Edge) {
    e in d.edges && e.src.node in Order(d) && e.dst.node !in Order(d)
  }

  /** Of a cyclic document the view keeps the nodes that can be ordered, and every edge. */
  lemma ViewOfAny(d: Document, p: Pipeline)
    requires d.UniqueIds() && LowersNodes(d, p.nodes) && p.flows == FlowsOf(Sort(ById, d.edges))
    ensures var v := GraphView(p);
            && v.UniqueIds() && v.Ids() == Members(Order(d)) == Members(Order(v))
            && multiset(v.edges) == multiset(d.edges)
  {
    var v := GraphView(p);
    ViewNodes(d, p);
    ViewEdges(d, p);
    OrderFacts(d);
    forall i | 0 <= i < |v.nodes| ensures v.nodes[i].id == Order(d)[i] { assert d.Has(Order(d)[i], v.nodes[i]); }
    forall i, j | 0 <= i < j < |v.edges| ensures v.edges[i].id != v.edges[j].id {
      SharedIdRepeats((e: Edge) => e.id, d.edges, v.edges, i, j);
    }
    ViewIds(d, v);
    forall a ensures !OnCycle(v.Arcs(), a) {
      if OnCycle(v.Arcs(), a) { ViewHasNoCycle(d, v, a); assert false; }
    }
    ShortOrderMeansCycle(v);
    OrderFacts(v);
  }

  lemma ViewIds(d: Document, v: Document)
    requires |v.nodes| == |Order(d)| && forall i :: 0 <= i < |v.nodes| ==> v.nodes[i].id == Order(d)[i]
    ensures v.Ids() == Members(Order(d))
  {
    forall x ensures x in v.Ids() <==> x in Order(d) {
      if x in v.Ids() {
        var n :| n in v.nodes && n.id == x;
        var i :| 0 <= i < |v.nodes| && v.nodes[i] == n;
      }
      if x in Order(d) {
        var i :| 0 <= i < |Order(d)| && Order(d)[i] == x;
        assert v.nodes[i] in v.nodes;
      }
    }
  }

  lemma ViewHasNoCycle(d: Document, v: Document, a: string)
    requires d.UniqueIds() && v.Ids() == Members(Order(d)) && multiset(v.edges) == multiset(d.edges)
    ensures !OnCycle(v.Arcs(), a)
  {
    if OnCycle(v.Arcs(), a) {
      OrderFacts(d);
      forall s, t | (s, t) in v.Arcs() ensures (s, t) in d.Arcs() {
        var e :| e in v.edges && e.src.node == s && e.dst.node == t;
        assert e in multiset(d.edges);
      }
      WalksInLarger(v.Arcs(), d.Arcs(), a, a);
      ArcsAreBetweenNodes(v, a, a);
      OrderIsAcyclicPart(d, a);
      assert Feeds(d.Arcs(), a, a);
      assert false;
    }
  }

  lemma ViewFails(d: Document, v: Document)
    requires v.Ids() == Members(Order(d)) == Members(Order(v)) && multiset(v.edges) == multiset(d.edges)
    ensures (exists e :: e in v.edges && e.src.node in Order(v) && e.dst.node !in v.Ids())
            <==> exists e :: LeavesOrder(d, e)
  {
    forall e ensures e in v.edges <==> e in d.edges {
      assert e in v.edges <==> e in multiset(v.edges);
      assert e in d.edges <==> e in multiset(d.edges);
    }
    forall x ensures x in Order(v) <==> x in Members(Order(v)) {}
    forall x ensures x in Order(d) <==> x in Members(Order(d)) {}
    if e :| e in v.edges && e.src.node in Order(v) && e.dst.node !in v.Ids() { assert LeavesOrder(d, e); }
    if e :| LeavesOrder(d, e) { assert e in v.edges && e.src.node in Order(v) && e.dst.node !in v.Ids(); }
  }

  lemma ViewModes(d: Document, v: Document, modes: map<string, bool>, n: Node)
    requires v.UniqueIds() && WellFormed(v) && d.Ids() == v.Ids() && n in v.nodes
    requires forall id :: id in d.Ids() ==> (Streams(v, id) <==> Streams(d, id))
    requires modes.Keys == Members(Order(v)) && forall id :: id in Order(v) ==> ModeRule(v, modes, id)
    ensures (n.id in modes && modes[n.id]) <==> Streams(d, n.id)
  {
    WellFormedSourcesAreRoots(v);
    ShortOrderMeansCycle(v);
    AtUnique(v, n);
    var k :| 0 <= k < |Order(v)| && Order(v)[k] == n.id;
    ModesAreReachability(v, modes, k);
  }

  /** On a well-formed document the checks made on the view decide Suited. */
  lemma ViewSuited(ident: string -> string, d: Document, v: Document, modes: map<string, bool>)
    requires d.UniqueIds() && v.UniqueIds() && WellFormed(d) && SameGraph(d, v)
    requires forall id :: id in d.Ids() ==> (Streams(v, id) <==> Streams(d, id))
    requires modes.Keys == Members(Order(v)) && forall id :: id in Order(v) ==> ModeRule(v, modes, id)
    ensures NodesFit(v.nodes, modes) && IdentifiersApart(ident, v.nodes) && (forall n :: n in v.nodes ==> SplitSupported(n))
            <==> Suited(ident, d)
  {
    SameGraphMembers(d, v);
    WellFormedIgnoresListing(d, v);
    ApartIsPairwise(ident, v.nodes);
    forall n | n in v.nodes ensures SplitSupported(n) <==> SplitSuited(n) { SplitSuitedExactly(n); }
    forall n | n in v.nodes ensures (n.id in modes && modes[n.id]) <==> Streams(d, n.id) { ViewModes(d, v, modes, n); }
    SuitedByModes(ident, d, v.nodes, modes);
  }

  lemma SuitedByModes(ident: string -> string, d: Document, nodes: seq<Node>, modes: map<string, bool>)
    requires (forall n :: n in nodes <==> n in d.nodes) && forall n :: n in nodes ==> ((n.id in modes && modes[n.id]) <==> Streams(d, n.id))
    requires IdentifiersApart(ident, nodes) <==> forall a, b :: a in nodes && b in nodes && Clash(ident, a, b) ==> a == b
    requires forall n :: n in nodes ==> (SplitSupported(n) <==> SplitSuited(n))
    ensures NodesFit(nodes, modes) && IdentifiersApart(ident, nodes) && (forall n :: n in nodes ==> SplitSupported(n))
            <==> Suited(ident, d)
  {
  }

  datatype Generation =
    | Module(lines: seq<Line>, ranges: seq<SourceRange>)
    | Problems
    | Exception

  ghost predicate Generates(d: Document, emits: Emitters) {
    WellFormed(d) && Suited(Identifier, d) && OutputsPrint(Var, d, Order(d), emits)
  }

  lemma WellFormedStaysOrdered(d: Document)
    requires d.UniqueIds() && WellFormed(d)
    ensures forall e :: !LeavesOrder(d, e)
  {
    WellFormedIsClosed(d);
    ShortOrderMeansCycle(d);
  }

  lemma NoEscape(d: Document)
    requires d.UniqueIds() && exists e :: e in d.edges && e.src.node in Order(d) && e.dst.node !in d.Ids()
    ensures exists e :: LeavesOrder(d, e)
  {
    OrderFacts(d);
    var e :| e in d.edges && e.src.node in Order(d) && e.dst.node !in d.Ids();
    assert LeavesOrder(d, e);
  }

  /** `generate_python_project`. It validates and lowers the document, then works on the graph view
      alone. A module is generated exactly for the documents that pass every check, and it is a
      function of the document. An exception escapes exactly when an edge leads from a node that can be
      ordered to one that cannot (even if the document is rejected anyway), or when an accepted
      document has a sink or a node whose printing raises something that is not caught. */
  method GeneratePython(d: Document, prologue: seq<Line>, style: Style, emits: Emitters) returns (r: Generation)
    requires d.UniqueIds()
    ensures r.Module? <==> Generates(d, emits)
    ensures r.Module? ==>
              var defs := Definitions(Var, d, Order(d), style, Expressions(Var, d, emits));
              r.lines == prologue + ModuleText(defs) && r.ranges == ModuleRanges(defs, |prologue|)
    ensures r.Exception? <==>
              || (exists e :: LeavesOrder(d, e))
              || (WellFormed(d) && Suited(Identifier, d) && OutputsCrash(Var, d, Order(d), emits))
  {
    if WellFormed(d) { WellFormedStaysOrdered(d); }
    var checked := ValidateGraph(d);
    if checked.Failure? {
      NoEscape(d);
      return Exception;
    }
    var order := TopologicalOrder(d);
    var p := LowerPipeline(d, order.value);
    var view := GraphView(p);
    ViewOfAny(d, p);
    ViewFails(d, view);
    var viewOrder := TopologicalOrder(view);
    if viewOrder.Failure? { return Exception; }
    var modes := InferModes(view, viewOrder.value);
    var semantic := SemanticProblems(Identifier, view.nodes, modes);
    if WellFormed(d) {
      LoweringKeepsGraph(d, p);
      ViewSuited(Identifier, d, view, modes);
    }
    if checked.value != [] || semantic != [] { return Problems; }
    var splits := SplitsSupported(view.nodes);
    if !splits { return Problems; }
    WellFormedIgnoresListing(d, view);
    CompilationIgnoresListing(Var, d, view, style, emits);
    var emitted := EmitModule(Var, view, viewOrder.value, prologue, style, emits);
    match emitted
    case Crashed => r := Exception;
    case Refused(_) => r := Problems;
    case Emitted(lines, ranges) => r := Module(lines, ranges);
  }
}
