/** The remaining queries of `GraphIndex` (python/sdpstudio_core/graph.py): ancestors, descendants, weakly
    connected components and traces. */
module Closures {
  import opened Sorting
  import opened Digraph
  import opened Documents
  import opened Graph
  import opened Validation
  import opened Scopes

  /** Every edge as a step, whether or not its ends exist. */
  ghost function Steps(d: Document): Relation { set e | e in d.edges :: (e.src.node, e.dst.node) }

  ghost function Converse(rel: Relation): Relation { set a | a in rel :: (a.1, a.0) }

  lemma StepMembers(d: Document, a: string, b: string)
    ensures (a, b) in Steps(d) <==> exists e :: e in d.edges && e.src.node == a && e.dst.node == b
    ensures (a, b) in Converse(Steps(d)) <==> (b, a) in Steps(d)
  {
    if (b, a) in Steps(d) { assert ((b, a).1, (b, a).0) == (a, b); }
  }

  lemma ConverseReaches(rel: Relation, a: string, b: string)
    requires Reaches(rel, a, b)
    ensures Reaches(Converse(rel), b, a)
  {
    var w :| Walk(rel, w) && w[0] == a && w[|w| - 1] == b;
    var r := seq(|w|, i requires 0 <= i < |w| => w[|w| - 1 - i]);
    forall i | 0 <= i < |r| - 1 ensures (r[i], r[i + 1]) in Converse(rel) {
      var k := |w| - 2 - i;
      assert (w[k], w[k + 1]) in rel && r[i] == w[k + 1] && r[i + 1] == w[k];
      assert ((w[k], w[k + 1]).1, (w[k], w[k + 1]).0) == (r[i], r[i + 1]);
    }
    assert Walk(Converse(rel), r);
  }

  lemma ConverseTwice(rel: Relation)
    ensures Converse(Converse(rel)) == rel
  {
    forall a ensures a in Converse(Converse(rel)) <==> a in rel {
      if a in rel {
        assert (a.1, a.0) in Converse(rel);
        assert ((a.1, a.0).1, (a.1, a.0).0) == a;
      }
    }
  }

  function TargetList(es: seq<Edge>): (r: seq<string>)
    ensures forall e :: e in es ==> e.dst.node in r
    ensures forall s :: s in r ==> exists e :: e in es && e.dst.node == s
  {
    if es == [] then [] else
      assert es == [es[0]] + es[1..];
      [es[0].dst.node] + TargetList(es[1..])
  }

  /** The nodes one edge away, downstream or upstream. */
  function Neighbours(d: Document, x: string, forward: bool): seq<string> {
    if forward then TargetList(Outgoing(d, x)) else SourceList(Incoming(d, x))
  }

  /** Steps towards a node of the search: from its neighbours to it. */
  ghost function Towards(d: Document, forward: bool): Relation { if forward then Converse(Steps(d)) else Steps(d) }

  lemma NeighboursAre(d: Document, x: string, forward: bool)
    ensures forall y :: y in Neighbours(d, x, forward) <==> (y, x) in Towards(d, forward)
  {
    OutgoingMembers(d, x);
    IncomingMembers(d, x);
    forall y ensures y in Neighbours(d, x, forward) <==> (y, x) in Towards(d, forward) {
      StepMembers(d, y, x);
      StepMembers(d, x, y);
    }
  }

  ghost function Ends(d: Document): set<string> {
    (set e | e in d.edges :: e.src.node) + (set e | e in d.edges :: e.dst.node)
  }

  ghost predicate Found(d: Document, id: string, forward: bool, seen: set<string>) {
    forall y :: y in seen <==> Reaches(Towards(d, forward), y, id)
  }

  /** What has been seen leads to id, and a neighbour of anything seen, or of id, is seen unless that is
      still waiting. */
  ghost predicate Explored(rel: Relation, id: string, seen: set<string>, stack: seq<string>) {
    && (forall y :: y in seen ==> Reaches(rel, y, id))
    && (forall y :: y in stack ==> y == id || y in seen)
    && (forall y, x :: (y, x) in rel && (x == id || x in seen) ==> y in seen || x in stack)
  }

  lemma ExploredIsFound(rel: Relation, id: string, seen: set<string>)
    requires Explored(rel, id, seen, [])
    ensures forall y :: y in seen <==> Reaches(rel, y, id)
  {
    forall y | Reaches(rel, y, id) ensures y in seen {
      var _, last := ReachesEnds(rel, y, id);
      if y != last { BackwardClosed(rel, seen, y, last); }
    }
  }

  lemma ExploreNode(rel: Relation, id: string, seen: set<string>, rest: seq<string>, x: string, more: seq<string>, unseen: seq<string>)
    requires Explored(rel, id, seen, rest + [x])
    requires forall y :: y in more <==> (y, x) in rel
    requires forall y :: y in unseen <==> y in more && y !in seen
    ensures Explored(rel, id, seen + Members(unseen), rest + unseen)
  {
    assert x in rest + [x];
    forall y | y in unseen ensures Reaches(rel, y, id) { StepThenReaches(rel, y, x, id); }
  }

  /** The neighbours that were not seen, each once. */
  method Unseen(more: seq<string>, seen: set<string>) returns (unseen: seq<string>)
    ensures forall y :: y in unseen <==> y in more && y !in seen
  {
    unseen := [];
    for i := 0 to |more|
      invariant forall y :: y in unseen <==> y in more[..i] && y !in seen
    {
      assert more[..i + 1] == more[..i] + [more[i]];
      if more[i] !in seen && more[i] !in unseen { unseen := unseen + [more[i]]; }
    }
    assert more[..|more|] == more;
  }

  lemma ExploreStep(d: Document, id: string, forward: bool, seen: set<string>, rest: seq<string>, x: string, unseen: seq<string>)
    requires Explored(Towards(d, forward), id, seen, rest + [x]) && seen <= Ends(d)
    requires forall y :: y in unseen <==> y in Neighbours(d, x, forward) && y !in seen
    ensures var grown := seen + Members(unseen);
            && Explored(Towards(d, forward), id, grown, rest + unseen) && grown <= Ends(d)
            && (if unseen == [] then grown == seen && rest + unseen == rest else |Ends(d) - grown| < |Ends(d) - seen|)
  {
    NeighboursAre(d, x, forward);
    ExploreNode(Towards(d, forward), id, seen, rest, x, Neighbours(d, x, forward), unseen);
    NeighboursEnd(d, x, forward);
    SearchProgress(Ends(d), seen, unseen);
  }

  /** The worklist of `ancestors` and `descendants`. */
  method Explore(d: Document, id: string, forward: bool) returns (seen: set<string>)
    ensures Found(d, id, forward, seen)
  {
    ghost var rel := Towards(d, forward);
    ghost var ends := Ends(d);
    var stack := [id];
    seen := {};
    while stack != []
      invariant Explored(rel, id, seen, stack) && seen <= ends
      decreases |ends - seen|, |stack|
    {
      var x, rest := stack[|stack| - 1], stack[..|stack| - 1];
      SplitLast(stack);
      var more := Neighbours(d, x, forward);
      var unseen := Unseen(more, seen);
      ExploreStep(d, id, forward, seen, rest, x, unseen);
      var grown := seen + set y | y in unseen;
      assert grown == seen + Members(unseen);
      seen, stack := grown, rest + unseen;
    }
    ExploredIsFound(rel, id, seen);
  }

  lemma SearchProgress(ends: set<string>, seen: set<string>, unseen: seq<string>)
    requires seen <= ends && forall y :: y in unseen ==> y in ends && y !in seen
    ensures seen + Members(unseen) <= ends
    ensures unseen == [] ==> seen + Members(unseen) == seen
    ensures unseen != [] ==> |ends - (seen + Members(unseen))| < |ends - seen|
  {
    if unseen != [] {
      var grown := seen + Members(unseen);
      assert unseen[0] in grown && unseen[0] in ends - seen;
      assert ends - grown <= ends - seen - {unseen[0]};
      Cardinality(ends - grown, ends - seen - {unseen[0]});
    }
  }

  lemma NeighboursEnd(d: Document, x: string, forward: bool)
    ensures forall y :: y in Neighbours(d, x, forward) ==> y in Ends(d)
  {
    OutgoingMembers(d, x);
    IncomingMembers(d, x);
  }

  /** `ancestors`: everything that reaches the node by one or more edges. */
  method Ancestors(d: Document, id: string) returns (seen: set<string>)
    ensures forall a :: a in seen <==> Reaches(Steps(d), a, id)
  {
    seen := Explore(d, id, false);
  }

  /** `descendants`: everything the node reaches by one or more edges. */
  method Descendants(d: Document, id: string) returns (seen: set<string>)
    ensures forall b :: b in seen <==> Reaches(Steps(d), id, b)
  {
    seen := Explore(d, id, true);
    forall b ensures Reaches(Converse(Steps(d)), b, id) <==> Reaches(Steps(d), id, b) { ReachesBackwards(Steps(d), id, b); }
  }

  /** Ancestors and descendants are converses. */
  lemma ReachesBackwards(rel: Relation, a: string, b: string)
    ensures Reaches(Converse(rel), b, a) <==> Reaches(rel, a, b)
  {
    if Reaches(rel, a, b) { ConverseReaches(rel, a, b); }
    if Reaches(Converse(rel), b, a) {
      ConverseReaches(Converse(rel), b, a);
      ConverseTwice(rel);
    }
  }

  // ---- trace_to_sources ----

  function Among(s: set<string>, id: string): string -> bool { (n: string) => n in s || n == id }

  /** `trace_to_sources`. */
  method TraceToSources(d: Document, id: string) returns (r: Result<seq<string>, string>)
    requires d.UniqueIds()
    ensures r.Success? ==> IsTrace(d, id, r.value)
    ensures r.Failure? <==> exists e :: e in d.edges && e.src.node in Order(d) && e.dst.node !in d.Ids()
  {
    var ancestors := Ancestors(d, id);
    var order := TopologicalOrder(d);
    if order.Failure? { return order; }
    r := Success(Filter(Among(ancestors, id), order.value));
    FilterMembers(Among(ancestors, id), order.value);
    forall n ensures n in r.value <==> n in Order(d) && Feeds(Steps(d), n, id) {
      assert Among(ancestors, id)(n) <==> n in ancestors || n == id;
    }
    OrderFacts(d);
    FilterOrdered(d.Arcs(), Among(ancestors, id), order.value);
  }

  /** The ordered nodes that lead to id, in topological order. */
  ghost predicate IsTrace(d: Document, id: string, trace: seq<string>) {
    && (forall n :: n in trace <==> n in Order(d) && Feeds(Steps(d), n, id))
    && Distinct(trace)
    && forall i, j :: 0 <= i < |trace| && 0 <= j < |trace| && (trace[i], trace[j]) in d.Arcs() ==> i < j
  }

  lemma {:induction false} FilterOrdered(rel: Relation, p: string -> bool, order: seq<string>)
    requires Ordered(rel, order)
    ensures var t := Filter(p, order);
            Distinct(t) && forall i, j :: 0 <= i < |t| && 0 <= j < |t| && (t[i], t[j]) in rel ==> i < j
  {
    FilterDistinct(p, order);
    KeepsOrder(rel, p, order, |order|);
    assert order[..|order|] == order;
  }

  lemma {:induction false} KeepsOrder(rel: Relation, p: string -> bool, order: seq<string>, n: nat)
    requires Ordered(rel, order) && n <= |order|
    ensures var t := Filter(p, order[..n]);
            forall i, j :: 0 <= i < |t| && 0 <= j < |t| && (t[i], t[j]) in rel ==> i < j
  {
    if n > 0 {
      KeepsOrder(rel, p, order, n - 1);
      FilterSplitsAt(p, order, n - 1);
      FilterMembers(p, order[..n - 1]);
      var t, last := Filter(p, order[..n - 1]), order[n - 1];
      forall j | 0 <= j < |t| ensures (last, t[j]) !in rel {
        assert t[j] in t && t[j] in order[..n - 1];
        LastHasNoArcBack(rel, order, n - 1, t[j]);
      }
      LastHasNoArcBack(rel, order, n - 1, last);
    }
  }

  lemma LastHasNoArcBack(rel: Relation, order: seq<string>, n: nat, x: string)
    requires Ordered(rel, order) && n < |order| && x in order[..n + 1]
    ensures (order[n], x) !in rel
  {
    var k :| 0 <= k <= n && order[k] == x;
    assert order[n] !in order[..k];
  }

  /** On an acyclic graph the trace is closed under parents and ends with the requested node. */
  lemma TraceEndsAtNode(d: Document, id: string, trace: seq<string>)
    requires d.UniqueIds() && d.Closed() && Acyclic(d.Arcs()) && id in d.Ids() && IsTrace(d, id, trace)
    ensures trace != [] && trace[|trace| - 1] == id
    ensures forall e :: e in d.edges && e.dst.node in trace ==> e.src.node in trace
  {
    ShortOrderMeansCycle(d);
    assert id in trace;
    forall e | e in d.edges && e.dst.node in trace ensures e.src.node in trace {
      StepMembers(d, e.src.node, e.dst.node);
      StepThenReaches(Steps(d), e.src.node, e.dst.node, id);
    }
    var last := trace[|trace| - 1];
    assert last in trace;
    forall x | x in trace ensures (last, x) !in d.Arcs() {
      var j :| 0 <= j < |trace| && trace[j] == x;
    }
    if last != id {
      var first, _ := ReachesEnds(Steps(d), last, id);
      StepMembers(d, last, first);
      ArcMembers(d, last, first);
    }
  }

  // ---- connected_components ----

  /** Arcs taken in both directions. */
  ghost function Weak(d: Document): Relation { d.Arcs() + Converse(d.Arcs()) }

  /** The nodes weakly connected to x. */
  ghost function ClassOf(d: Document, x: string): set<string> { set y | y in d.Ids() && Feeds(Weak(d), y, x) }

  lemma WeakIsSymmetric(d: Document)
    ensures forall a, b :: (a, b) in Weak(d) ==> (b, a) in Weak(d) && a in d.Ids() && b in d.Ids()
  {
    forall a, b | (a, b) in Weak(d) ensures (b, a) in Weak(d) && a in d.Ids() && b in d.Ids() {
      if (a, b) in d.Arcs() {
        assert ((a, b).1, (a, b).0) == (b, a);
        assert (b, a) in Converse(d.Arcs());
      } else {
        var p :| p in d.Arcs() && (p.1, p.0) == (a, b);
        assert p == (b, a);
      }
    }
  }

  lemma WeaklyBack(d: Document, a: string, b: string)
    requires Feeds(Weak(d), a, b)
    ensures Feeds(Weak(d), b, a)
  {
    if a != b {
      WeakIsSymmetric(d);
      ConverseReaches(Weak(d), a, b);
      forall p ensures p in Converse(Weak(d)) ==> p in Weak(d) {
        if p in Converse(Weak(d)) {
          var q :| q in Weak(d) && (q.1, q.0) == p;
          assert (q.0, q.1) in Weak(d);
        }
      }
      WalksInLarger(Converse(Weak(d)), Weak(d), b, a);
    }
  }

  /** Weak connection is an equivalence: classes that share a node are equal. */
  lemma ClassesAgree(d: Document, x: string, y: string)
    requires Feeds(Weak(d), y, x)
    ensures ClassOf(d, x) == ClassOf(d, y)
  {
    WeaklyBack(d, y, x);
    forall z ensures Feeds(Weak(d), z, x) <==> Feeds(Weak(d), z, y) {
      if Feeds(Weak(d), z, x) && z != x && x != y { ReachesTransitive(Weak(d), z, x, y); }
      if Feeds(Weak(d), z, y) && z != y && x != y { ReachesTransitive(Weak(d), z, y, x); }
    }
  }

  function Reversed(s: seq<string>): (r: seq<string>)
    ensures forall x :: x in r <==> x in s
  {
    if s == [] then [] else Reversed(s[1..]) + [s[0]]
  }

  ghost predicate Neighbouring(es: seq<Edge>, ids: set<string>, neighbours: map<string, set<string>>) {
    neighbours.Keys == ids && forall x, y :: x in ids ==> (y in neighbours[x] <==> Touches(es, ids, x, y))
  }

  /** `neighbours`. */
  method WeakNeighbours(d: Document) returns (neighbours: map<string, set<string>>)
    ensures neighbours.Keys == d.Ids()
    ensures forall x :: x in d.Ids() ==> forall y :: y in neighbours[x] <==> (y, x) in Weak(d)
  {
    var ids := d.Ids();
    neighbours := map id | id in ids :: {};
    for i := 0 to |d.edges|
      invariant Neighbouring(d.edges[..i], ids, neighbours)
    {
      var e := d.edges[i];
      NeighbouringGrows(d.edges, i, ids, neighbours);
      if e.src.node in ids && e.dst.node in ids {
        var one := neighbours[e.src.node := neighbours[e.src.node] + {e.dst.node}];
        neighbours := one[e.dst.node := one[e.dst.node] + {e.src.node}];
      }
    }
    assert d.edges[..|d.edges|] == d.edges;
    forall x, y | x in ids ensures y in neighbours[x] <==> (y, x) in Weak(d) { TouchesIsWeak(d, x, y); }
  }

  ghost predicate Touches(es: seq<Edge>, ids: set<string>, x: string, y: string) {
    exists e :: e in es && e.src.node in ids && e.dst.node in ids
                && ((e.src.node == x && e.dst.node == y) || (e.src.node == y && e.dst.node == x))
  }

  lemma TouchesGrows(es: seq<Edge>, i: nat, ids: set<string>)
    requires i < |es|
    ensures forall x, y :: Touches(es[..i + 1], ids, x, y) <==> Touches(es[..i], ids, x, y) || Touches([es[i]], ids, x, y)
  {
    assert es[..i + 1] == es[..i] + [es[i]];
    assert es[i] in es[..i + 1];
  }

  lemma NeighbouringGrows(es: seq<Edge>, i: nat, ids: set<string>, neighbours: map<string, set<string>>)
    requires i < |es| && Neighbouring(es[..i], ids, neighbours)
    ensures var e := es[i];
            if e.src.node in ids && e.dst.node in ids
            then var one := neighbours[e.src.node := neighbours[e.src.node] + {e.dst.node}];
                 Neighbouring(es[..i + 1], ids, one[e.dst.node := one[e.dst.node] + {e.src.node}])
            else Neighbouring(es[..i + 1], ids, neighbours)
  {
    TouchesGrows(es, i, ids);
  }

  lemma TouchesIsWeak(d: Document, x: string, y: string)
    ensures Touches(d.edges, d.Ids(), x, y) <==> (y, x) in Weak(d)
  {
    ArcMembers(d, x, y);
    ArcMembers(d, y, x);
    if (x, y) in d.Arcs() { assert ((x, y).1, (x, y).0) == (y, x); }
    if (y, x) in Converse(d.Arcs()) {
      var p :| p in d.Arcs() && (p.1, p.0) == (y, x);
      assert p == (x, y);
    }
  }

  /** Every weak neighbour of a member is a member or waits. */
  ghost predicate Spread(rel: Relation, component: set<string>, stack: seq<string>) {
    forall y, x :: (y, x) in rel && x in component ==> y in component || y in stack
  }

  lemma SpreadStep(rel: Relation, component: set<string>, rest: seq<string>, x: string, more: seq<string>)
    requires Spread(rel, component, rest + [x])
    requires x !in component ==> forall y :: (y, x) in rel ==> y in more || y in component + {x}
    ensures Spread(rel, component + {x}, rest + more)
    ensures x in component ==> Spread(rel, component, rest)
  {
  }

  /** The inner loop: the component of start. */
  method Component(d: Document, neighbours: map<string, set<string>>, start: string) returns (component: set<string>)
    requires start in d.Ids() && neighbours.Keys == d.Ids()
    requires forall x :: x in d.Ids() ==> forall y :: y in neighbours[x] <==> (y, x) in Weak(d)
    ensures component == ClassOf(d, start)
  {
    ghost var rel, goal := Weak(d), ClassOf(d, start);
    var stack := [start];
    component := {};
    while stack != []
      invariant Spread(rel, component, stack) && component <= goal && forall y :: y in stack ==> y in goal
      invariant start in component || start in stack
      decreases |goal - component|, |stack|
    {
      var x, rest := stack[|stack| - 1], stack[..|stack| - 1];
      SplitLast(stack);
      assert x in goal;
      if x in component {
        SpreadStep(rel, component, rest, x, []);
        stack := rest;
      } else {
        var more := Reversed(SortedKeys(neighbours[x] - (component + {x})));
        SpreadStep(rel, component, rest, x, more);
        NeighboursInClass(d, start, x, more);
        assert goal - (component + {x}) == goal - component - {x};
        component, stack := component + {x}, rest + more;
      }
    }
    ClassFilled(d, start, component);
  }

  lemma NeighboursInClass(d: Document, start: string, x: string, more: seq<string>)
    requires x in ClassOf(d, start) && forall y :: y in more ==> (y, x) in Weak(d)
    ensures forall y :: y in more ==> y in ClassOf(d, start)
  {
    WeakIsSymmetric(d);
    forall y | y in more ensures y in ClassOf(d, start) { StepThenReaches(Weak(d), y, x, start); }
  }

  lemma ClassFilled(d: Document, start: string, component: set<string>)
    requires Spread(Weak(d), component, []) && component <= ClassOf(d, start) && start in component
    ensures component == ClassOf(d, start)
  {
    forall y | y in ClassOf(d, start) ensures y in component {
      if y != start { BackwardClosed(Weak(d), component, y, start); }
    }
  }

  /** The components found so far: whole classes of distinct least nodes in increasing order. */
  ghost predicate AreComponents(d: Document, components: seq<set<string>>) {
    && (forall i :: 0 <= i < |components| ==> components[i] != {} && components[i] == ClassOf(d, Least(components[i])))
    && (forall i, j :: 0 <= i < j < |components| ==>
          components[i] != {} && components[j] != {} && components[i] !! components[j]
          && TextLeq(Least(components[i]), Least(components[j])) && Least(components[i]) != Least(components[j]))
  }

  ghost function Union(components: seq<set<string>>): set<string> {
    if components == [] then {} else Union(components[..|components| - 1]) + components[|components| - 1]
  }

  lemma {:induction false} UnionMembers(components: seq<set<string>>, x: string)
    ensures x in Union(components) <==> exists i :: 0 <= i < |components| && x in components[i]
  {
    if components != [] { UnionMembers(components[..|components| - 1], x); }
  }

  /** The class of the least remaining node is new, lies in what remains, and has that node as its least. */
  lemma NextComponent(d: Document, components: seq<set<string>>, start: string)
    requires AreComponents(d, components) && d.Ids() - Union(components) != {} && start == Least(d.Ids() - Union(components))
    requires forall i :: 0 <= i < |components| ==> components[i] != {} && TextLeq(Least(components[i]), start)
    ensures var next := ClassOf(d, start);
            && start in next && next !! Union(components) && Least(next) == start
            && AreComponents(d, components + [next]) && Union(components + [next]) == Union(components) + next
  {
    var next := ClassOf(d, start);
    var all := components + [next];
    assert all[..|components|] == components;
    assert Feeds(Weak(d), start, start);
    forall i | 0 <= i < |components| ensures components[i] !! next && Least(components[i]) != start {
      ClassIsNew(d, components, i, start);
    }
    forall x | x in next ensures x !in Union(components) { UnionMembers(components, x); }
    assert next <= d.Ids() - Union(components);
    assert IsLeast(next, start);
    LeastUnique(next);
    ComponentsGrow(d, components, next);
  }

  lemma ComponentsGrow(d: Document, components: seq<set<string>>, next: set<string>)
    requires AreComponents(d, components) && next != {} && next == ClassOf(d, Least(next))
    requires forall i :: 0 <= i < |components| ==>
               && components[i] != {} && components[i] !! next
               && TextLeq(Least(components[i]), Least(next)) && Least(components[i]) != Least(next)
    ensures AreComponents(d, components + [next])
  {
  }

  lemma ClassIsNew(d: Document, components: seq<set<string>>, i: nat, start: string)
    requires AreComponents(d, components) && i < |components| && start in d.Ids() && start !in Union(components)
    ensures components[i] !! ClassOf(d, start) && Least(components[i]) != start
  {
    var other := Least(components[i]);
    UnionMembers(components, start);
    assert other in components[i] && start !in components[i];
    assert Feeds(Weak(d), start, start) && start in ClassOf(d, start);
    forall x | x in components[i] ensures x !in ClassOf(d, start) {
      ClassesAgree(d, other, x);
      if x in ClassOf(d, start) { ClassesAgree(d, start, x); }
    }
  }

  /** The components so far; what remains is greater than their least nodes. */
  ghost predicate Gathered(d: Document, components: seq<set<string>>, remaining: set<string>) {
    && AreComponents(d, components) && remaining == d.Ids() - Union(components) && Union(components) <= d.Ids()
    && forall i, x :: 0 <= i < |components| && x in remaining ==> components[i] != {} && TextLeq(Least(components[i]), x)
  }

  lemma GatherNext(d: Document, components: seq<set<string>>, remaining: set<string>)
    requires Gathered(d, components, remaining) && remaining != {}
    ensures var next := ClassOf(d, Least(remaining));
            Gathered(d, components + [next], remaining - next) && remaining - next < remaining
  {
    var start := Least(remaining);
    var next := ClassOf(d, start);
    NextComponent(d, components, start);
    var all := components + [next];
    forall i, x | 0 <= i < |all| && x in remaining - next ensures all[i] != {} && TextLeq(Least(all[i]), x) {
      if i < |components| { assert all[i] == components[i]; } else { assert IsLeast(remaining, start); }
    }
    assert start in remaining && start !in remaining - next;
  }

  /** `connected_components`: the classes of weak connection, each once, by increasing least node. */
  method ConnectedComponents(d: Document) returns (components: seq<set<string>>)
    ensures AreComponents(d, components) && Union(components) == d.Ids()
  {
    var neighbours := WeakNeighbours(d);
    var remaining := d.Ids();
    components := [];
    while remaining != {}
      invariant Gathered(d, components, remaining)
      decreases remaining
    {
      var start := Least(remaining);
      var component := Component(d, neighbours, start);
      GatherNext(d, components, remaining);
      remaining := remaining - component;
      components := components + [component];
    }
  }
}
