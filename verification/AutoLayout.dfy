/** `autoLayout` (web/app.js): nodes are placed in columns by the length of the longest path that reaches
    them, and in rows by their place in the node list. */
module AutoLayout {
  import opened Sorting
  import opened Digraph
  import opened Documents
  import opened Graph

  function Larger(a: nat, b: nat): nat { if a < b then b else a }

  /** `layer[id]||0`. */
  function LayerOf(layer: map<string, nat>, id: string): nat { if id in layer then layer[id] else 0 }

  /** The edges from v to a node, v being a node. */
  function Inside(ids: set<string>, v: string): Edge -> bool {
    (e: Edge) => e.src.node == v && e.src.node in ids && e.dst.node in ids
  }

  function Out(d: Document, ids: set<string>, v: string): seq<Edge> { Filter(Inside(ids, v), d.edges) }

  lemma OutLeaves(d: Document, v: string)
    requires v in d.Ids()
    ensures Leaves(d, v, Out(d, d.Ids(), v))
    ensures forall e :: e in Out(d, d.Ids(), v) ==> e.dst.node in d.Ids()
  {
    FilterMembers(Inside(d.Ids(), v), d.edges);
    forall e | e in d.edges && e.src.node == v && e.dst.node in d.Ids() ensures e in Out(d, d.Ids(), v) {
      assert Inside(d.Ids(), v)(e);
    }
  }

  /** out lists the edges among es by their source. */
  ghost predicate Indexed(ids: set<string>, es: seq<Edge>, out: map<string, seq<Edge>>) {
    out.Keys == ids && forall v :: v in ids ==> out[v] == Filter(Inside(ids, v), es)
  }

  lemma IndexedGrows(ids: set<string>, es: seq<Edge>, i: nat, out: map<string, seq<Edge>>)
    requires i < |es| && Indexed(ids, es[..i], out)
    ensures var e := es[i];
            if e.src.node in ids && e.dst.node in ids
            then Indexed(ids, es[..i + 1], out[e.src.node := out[e.src.node] + [e]])
            else Indexed(ids, es[..i + 1], out)
  {
    forall v | v in ids
      ensures Filter(Inside(ids, v), es[..i + 1])
              == if es[i].src.node == v && es[i].dst.node in ids then out[v] + [es[i]] else out[v]
    {
      FilterSplitsAt(Inside(ids, v), es, i);
      assert out[v] + [] == out[v];
    }
  }

  /** The first loop: indegrees and outgoing edges, of edges between nodes only. */
  method IndexEdges(d: Document) returns (indegree: map<string, int>, out: map<string, seq<Edge>>)
    ensures indegree.Keys == out.Keys == d.Ids()
    ensures forall t :: t in d.Ids() ==> indegree[t] == Pending(d, d.edges, {}, t)
    ensures forall v :: v in d.Ids() ==> out[v] == Out(d, d.Ids(), v)
  {
    var ids := d.Ids();
    indegree := CountIndegrees(d);
    out := map id | id in ids :: [];
    for i := 0 to |d.edges|
      invariant Indexed(ids, d.edges[..i], out)
    {
      var e := d.edges[i];
      IndexedGrows(ids, d.edges, i, out);
      if e.src.node in ids && e.dst.node in ids {
        out := out[e.src.node := out[e.src.node] + [e]];
      }
    }
    assert d.edges[..|d.edges|] == d.edges;
  }

  lemma {:induction false} CountInside(ids: set<string>, v: string, es: seq<Edge>, t: string)
    requires v in ids && t in ids
    ensures CountInto(Filter(Inside(ids, v), es), t) == CountInto(Filter(FromNode(v), es), t)
  {
    if es != [] {
      var e, rest := es[0], es[1..];
      CountInside(ids, v, rest, t);
      CountHead(e, Filter(Inside(ids, v), rest), t);
      CountHead(e, Filter(FromNode(v), rest), t);
      assert Inside(ids, v)(e) <==> e.src.node == v && e.dst.node in ids;
      assert FromNode(v)(e) <==> e.src.node == v;
      if e.src.node == v {
        assert Filter(FromNode(v), es) == [e] + Filter(FromNode(v), rest);
        if e.dst.node in ids {
          assert Filter(Inside(ids, v), es) == [e] + Filter(Inside(ids, v), rest);
        } else {
          assert Filter(Inside(ids, v), es) == [] + Filter(Inside(ids, v), rest) == Filter(Inside(ids, v), rest);
        }
      } else {
        assert Filter(FromNode(v), es) == [] + Filter(FromNode(v), rest) == Filter(FromNode(v), rest);
        assert Filter(Inside(ids, v), es) == [] + Filter(Inside(ids, v), rest) == Filter(Inside(ids, v), rest);
      }
    }
  }

  /** What the counters come down to once v is finished. */
  lemma PopCounters(d: Document, done: seq<string>, v: string, indegree: map<string, int>)
    returns (rest: map<string, int>)
    requires v in d.Ids() && v !in done && indegree.Keys == d.Ids()
    requires forall t :: t in d.Ids() ==> indegree[t] == Pending(d, d.edges, Members(done), t)
    ensures Counted(indegree, rest, Out(d, d.Ids(), v)) && Settles(d, Members(done + [v]), rest)
    ensures forall t :: t in d.Ids() ==> rest[t] == Pending(d, d.edges, Members(done + [v]), t)
  {
    var done' := Members(done + [v]);
    assert done' == Members(done) + {v};
    rest := map t | t in d.Ids() :: Pending(d, d.edges, done', t);
    PopAllInside(d, Members(done), v);
  }

  lemma PopAllInside(d: Document, done: set<string>, v: string)
    requires v in d.Ids() && v !in done
    ensures forall t :: t in d.Ids() ==>
              Pending(d, d.edges, done, t) == Pending(d, d.edges, done + {v}, t) + CountInto(Out(d, d.Ids(), v), t)
    ensures forall t :: t in d.Ids() ==> (Pending(d, d.edges, done + {v}, t) == 0 <==> Ready(d, done + {v}, t))
  {
    forall t | t in d.Ids()
      ensures Pending(d, d.edges, done, t) == Pending(d, d.edges, done + {v}, t) + CountInto(Out(d, d.Ids(), v), t)
      ensures Pending(d, d.edges, done + {v}, t) == 0 <==> Ready(d, done + {v}, t)
    {
      PopInside(d, done, v, t);
    }
  }

  lemma PopInside(d: Document, done: set<string>, v: string, t: string)
    requires v in d.Ids() && v !in done && t in d.Ids()
    ensures Pending(d, d.edges, done, t) == Pending(d, d.edges, done + {v}, t) + CountInto(Out(d, d.Ids(), v), t)
    ensures Pending(d, d.edges, done + {v}, t) == 0 <==> Ready(d, done + {v}, t)
  {
    PendingSplits(d, d.edges, done, v, t);
    CountInside(d.Ids(), v, d.edges, t);
    PendingZero(d, done + {v}, t);
  }

  // ---- Relaxing the edges of one node ----

  /** The layers once the edges es of a node at layer at are relaxed. */
  ghost predicate Relaxed(before: map<string, nat>, after: map<string, nat>, es: seq<Edge>, at: nat) {
    forall t {:trigger LastInto(es, t)} :: LayerOf(after, t) == if LastInto(es, t) then LayerOf(before, t) else Larger(LayerOf(before, t), at + 1)
  }

  lemma RelaxOne(before: map<string, nat>, after: map<string, nat>, es: seq<Edge>, i: nat, at: nat)
    requires i < |es| && Relaxed(before, after, es[..i], at)
    ensures var t := es[i].dst.node; Relaxed(before, after[t := Larger(LayerOf(after, t), at + 1)], es[..i + 1], at)
  {
    var next := es[..i + 1];
    assert next == es[..i] + [es[i]] && es[i] in next;
    var after' := after[es[i].dst.node := Larger(LayerOf(after, es[i].dst.node), at + 1)];
    forall t
      ensures LayerOf(after', t) == if LastInto(next, t) then LayerOf(before, t) else Larger(LayerOf(before, t), at + 1)
    {
      assert LastInto(next, t) <==> LastInto(es[..i], t) && es[i].dst.node != t;
      assert LayerOf(after, t) == if LastInto(es[..i], t) then LayerOf(before, t) else Larger(LayerOf(before, t), at + 1);
    }
  }

  /** Where the inner loop stands after i edges. */
  ghost predicate Relaxing(d: Document, done: set<string>, es: seq<Edge>, i: nat, at: nat, before: map<string, nat>,
                           rest: map<string, int>, layer: map<string, nat>, counts: map<string, int>, released: seq<string>)
    requires i <= |es|
  {
    && Releasing(d, done, es, i, rest, counts, released)
    && Relaxed(before, layer, es[..i], at)
  }

  lemma RelaxNext(d: Document, done: set<string>, es: seq<Edge>, i: nat, v: string, before: map<string, nat>,
                  rest: map<string, int>, layer: map<string, nat>, counts: map<string, int>, released: seq<string>)
    requires i < |es| && es[i].dst.node in rest && Settles(d, done, rest) && forall e :: e in es ==> e.dst.node != v
    requires Relaxing(d, done, es, i, LayerOf(before, v), before, rest, layer, counts, released)
    ensures es[i].dst.node in counts
    ensures var t := es[i].dst.node;
            Relaxing(d, done, es, i + 1, LayerOf(before, v), before, rest,
                     layer[t := Larger(LayerOf(layer, t), LayerOf(layer, v) + 1)], counts[t := counts[t] - 1],
                     if counts[t] == 1 then released + [t] else released)
  {
    var at := LayerOf(before, v);
    SourceStays(before, layer, es, i, at, v);
    RelaxOne(before, layer, es, i, at);
    CountDown(d, done, es, i, rest, counts, released);
  }

  lemma RelaxEnds(d: Document, done: set<string>, es: seq<Edge>, at: nat, before: map<string, nat>,
                  rest: map<string, int>, layer: map<string, nat>, counts: map<string, int>, released: seq<string>)
    requires Relaxing(d, done, es, |es|, at, before, rest, layer, counts, released)
    ensures Relaxed(before, layer, es, at) && counts == rest && released == Released(d, done, es)
  {
    assert es[..|es|] == es;
    ReleasingEnds(d, done, es, rest, counts, released);
  }

  lemma RelaxStarts(d: Document, done: set<string>, es: seq<Edge>, at: nat, before: map<string, nat>,
                    rest: map<string, int>, counts: map<string, int>)
    requires Counted(counts, rest, es)
    ensures Relaxing(d, done, es, 0, at, before, rest, before, counts, [])
  {
    assert es[..0] == [];
    ReleasingStarts(d, done, es, rest, counts);
  }

  /** The layer of a node stays while the edges that leave it for others are relaxed. */
  lemma SourceStays(before: map<string, nat>, layer: map<string, nat>, es: seq<Edge>, i: nat, at: nat, v: string)
    requires i <= |es| && Relaxed(before, layer, es[..i], at) && forall e :: e in es ==> e.dst.node != v
    ensures LayerOf(layer, v) == LayerOf(before, v)
  {
    assert forall e :: e in es[..i] ==> e in es;
    assert LastInto(es[..i], v);
  }

  /** One edge: its target is raised, counted down and queued at zero. */
  method RelaxTarget(d: Document, v: string, es: seq<Edge>, i: nat, layer: map<string, nat>, indegree: map<string, int>,
                     released: seq<string>, ghost done: set<string>, ghost first: map<string, nat>, ghost rest: map<string, int>)
    returns (layer': map<string, nat>, indegree': map<string, int>, released': seq<string>)
    requires i < |es| && Settles(d, done, rest) && forall e :: e in es ==> e.dst.node in rest && e.dst.node != v
    requires Relaxing(d, done, es, i, LayerOf(first, v), first, rest, layer, indegree, released)
    ensures Relaxing(d, done, es, i + 1, LayerOf(first, v), first, rest, layer', indegree', released')
  {
    var t := es[i].dst.node;
    assert es[i] in es;
    RelaxNext(d, done, es, i, v, first, rest, layer, indegree, released);
    var next := Larger(LayerOf(layer, t), LayerOf(layer, v) + 1);
    var left := indegree[t] - 1;
    layer', indegree' := layer[t := next], indegree[t := left];
    released' := if left == 0 then released + [t] else released;
  }

  /** The inner loop: raise the targets' layers, count them down and release those that reach zero. */
  method RelaxTargets(d: Document, v: string, es: seq<Edge>, layer: map<string, nat>, indegree: map<string, int>,
                      ghost done: set<string>, ghost rest: map<string, int>)
    returns (layer': map<string, nat>, indegree': map<string, int>, released: seq<string>)
    requires Counted(indegree, rest, es) && Settles(d, done, rest)
    requires forall e :: e in es ==> e.dst.node in rest && e.dst.node != v
    ensures Relaxed(layer, layer', es, LayerOf(layer, v)) && indegree' == rest && released == Released(d, done, es)
  {
    ghost var at := LayerOf(layer, v);
    layer', indegree', released := layer, indegree, [];
    RelaxStarts(d, done, es, at, layer, rest, indegree);
    for i := 0 to |es|
      invariant Relaxing(d, done, es, i, at, layer, rest, layer', indegree', released)
    {
      layer', indegree', released := RelaxTarget(d, v, es, i, layer', indegree', released, done, layer, rest);
    }
    RelaxEnds(d, done, es, at, layer, rest, layer', indegree', released);
  }

  // ---- What the layers are ----

  /** A walk of k steps ends at v. */
  ghost predicate WalkTo(rel: Relation, v: string, k: nat)
    decreases k
  {
    k == 0 || exists u :: (u, v) in rel && WalkTo(rel, u, k - 1)
  }

  /** The longest walk that ends at v has k steps. */
  ghost predicate Longest(rel: Relation, v: string, k: nat) {
    WalkTo(rel, v, k) && forall j: nat :: WalkTo(rel, v, j) ==> j <= k
  }

  /** The layer of t is one more than the highest of its finished predecessors, and 0 without any. */
  ghost predicate LayerOk(rel: Relation, done: seq<string>, layer: map<string, nat>, t: string) {
    && (forall u :: u in done && (u, t) in rel ==> LayerOf(layer, u) + 1 <= LayerOf(layer, t))
    && (LayerOf(layer, t) == 0 || exists u :: u in done && (u, t) in rel && LayerOf(layer, u) + 1 == LayerOf(layer, t))
  }

  lemma OutArcs(d: Document, v: string, t: string)
    requires v in d.Ids()
    ensures (v, t) in d.Arcs() <==> !LastInto(Out(d, d.Ids(), v), t)
  {
    OutLeaves(d, v);
    ArcMembers(d, v, t);
    var es := Out(d, d.Ids(), v);
    if (v, t) in d.Arcs() {
      var e :| e in d.edges && e.src.node == v && e.dst.node == t;
      assert e in es;
    }
    if !LastInto(es, t) {
      var e :| e in es && e.dst.node == t;
    }
  }

  /** Finishing v raises exactly the layers of its targets, none of which is finished. */
  lemma FinishKeepsLayers(d: Document, done: seq<string>, v: string, before: map<string, nat>, after: map<string, nat>)
    requires v in d.Ids() && v !in done && Ordered(d.Arcs(), done + [v])
    requires Relaxed(before, after, Out(d, d.Ids(), v), LayerOf(before, v))
    requires forall t :: LayerOk(d.Arcs(), done, before, t)
    ensures forall t :: LayerOk(d.Arcs(), done + [v], after, t)
  {
    var rel, all := d.Arcs(), done + [v];
    forall u | u in all ensures LayerOf(after, u) == LayerOf(before, u) {
      OutArcs(d, v, u);
      NoBackArc(rel, done, v, u);
    }
    forall t ensures LayerOk(rel, all, after, t) {
      OutArcs(d, v, t);
      assert LayerOk(rel, done, before, t);
      assert v in all && forall u :: u in done ==> u in all;
      if LayerOf(after, t) != 0 && LayerOf(after, t) == LayerOf(before, t) {
        var u :| u in done && (u, t) in rel && LayerOf(before, u) + 1 == LayerOf(before, t);
        assert LayerOf(after, u) + 1 == LayerOf(after, t);
      }
    }
  }

  lemma NoBackArc(rel: Relation, done: seq<string>, v: string, u: string)
    requires Ordered(rel, done + [v]) && u in done + [v] && v !in done
    ensures (v, u) !in rel
  {
    var all := done + [v];
    var i :| 0 <= i < |all| && all[i] == u;
    assert all[..i] == done[..i];
  }

  /** Finished nodes sit at the length of the longest walk that reaches them. */
  lemma {:induction false} LayersAreLongest(rel: Relation, done: seq<string>, layer: map<string, nat>, i: nat)
    requires Ordered(rel, done) && i < |done| && forall t {:trigger LayerOk(rel, done, layer, t)} :: LayerOk(rel, done, layer, t)
    ensures Longest(rel, done[i], LayerOf(layer, done[i]))
    decreases i
  {
    var t := done[i];
    assert LayerOk(rel, done, layer, t);
    if LayerOf(layer, t) > 0 {
      var u :| u in done && (u, t) in rel && LayerOf(layer, u) + 1 == LayerOf(layer, t);
      assert u in done[..i];
      var j :| 0 <= j < i && done[j] == u;
      LayersAreLongest(rel, done, layer, j);
    }
    forall k: nat | WalkTo(rel, t, k) ensures k <= LayerOf(layer, t) {
      if k > 0 {
        var u :| (u, t) in rel && WalkTo(rel, u, k - 1);
        assert u in done[..i];
        var j :| 0 <= j < i && done[j] == u;
        LayersAreLongest(rel, done, layer, j);
      }
    }
  }

  // ---- The queue ----

  ghost predicate CountsPending(d: Document, done: seq<string>, indegree: map<string, int>) {
    indegree.Keys == d.Ids() && forall t :: t in d.Ids() ==> indegree[t] == Pending(d, d.edges, Members(done), t)
  }

  lemma QueueStarts(d: Document, indegree: map<string, int>, zero: string -> bool)
    requires d.UniqueIds() && CountsPending(d, [], indegree) && Members([]) == {}
    requires forall id :: zero(id) <==> id in indegree && indegree[id] == 0
    ensures KahnInvariant(d, [], Filter(zero, IdList(d.nodes)))
  {
    var queue := Filter(zero, IdList(d.nodes));
    IdListIsIds(d);
    FilterMembers(zero, IdList(d.nodes));
    FilterDistinct(zero, IdList(d.nodes));
    forall x | x in d.Ids() ensures x in queue <==> Ready(d, {}, x) { PendingZero(d, {}, x); }
    StartsWith(d, queue);
  }

  lemma StartsWith(d: Document, queue: seq<string>)
    requires Distinct(queue) && (forall x :: x in queue ==> x in d.Ids()) && Members([]) == {}
    requires forall x {:trigger Ready(d, {}, x)} :: x in d.Ids() ==> (x in queue <==> Ready(d, {}, x))
    ensures KahnInvariant(d, [], queue)
  {
    assert [] + queue == queue;
  }

  /** What the queue loop leaves: the finished nodes are those neither on nor behind a cycle, and the layers
      are right with respect to them. */
  ghost predicate Layered(d: Document, done: seq<string>, layer: map<string, nat>) {
    && Ordered(d.Arcs(), done)
    && (forall n :: n in done <==> n in d.Ids() && forall c :: Feeds(d.Arcs(), c, n) ==> !OnCycle(d.Arcs(), c))
    && (forall t {:trigger LayerOk(d.Arcs(), done, layer, t)} :: LayerOk(d.Arcs(), done, layer, t))
  }

  lemma FinishedIsAcyclicPart(d: Document, done: seq<string>)
    requires KahnInvariant(d, done, [])
    ensures forall n :: n in done <==> n in d.Ids() && forall c :: Feeds(d.Arcs(), c, n) ==> !OnCycle(d.Arcs(), c)
  {
    assert done + [] == done;
    forall n ensures n in done <==> n in d.Ids() && forall c :: Feeds(d.Arcs(), c, n) ==> !OnCycle(d.Arcs(), c) {
      if n in done {
        forall c | Feeds(d.Arcs(), c, n) ensures !OnCycle(d.Arcs(), c) { OrderedAvoidsCycles(d.Arcs(), done, c, n); }
      } else if n in d.Ids() {
        var c := LeftOverFedByCycle(d, done, n);
      }
    }
  }

  /** v is neither on nor behind a cycle. */
  ghost predicate Clear(rel: Relation, v: string) { forall c :: Feeds(rel, c, v) ==> !OnCycle(rel, c) }

  lemma ClearIsLongest(d: Document, done: seq<string>, layer: map<string, nat>)
    requires Layered(d, done, layer)
    ensures forall v :: v in d.Ids() && Clear(d.Arcs(), v) ==> Longest(d.Arcs(), v, LayerOf(layer, v))
  {
    forall v | v in d.Ids() && Clear(d.Arcs(), v) ensures Longest(d.Arcs(), v, LayerOf(layer, v)) {
      assert v in done;
      var i :| 0 <= i < |done| && done[i] == v;
      LayersAreLongest(d.Arcs(), done, layer, i);
    }
  }

  /** The queue loop. It ends on cyclic graphs too: each round finishes one more node. */
  method AssignLayers(d: Document) returns (layer: map<string, nat>, ghost done: seq<string>)
    requires d.UniqueIds()
    ensures Layered(d, done, layer)
    ensures forall v :: v in d.Ids() && Clear(d.Arcs(), v) ==> Longest(d.Arcs(), v, LayerOf(layer, v))
  {
    var indegree, out := IndexEdges(d);
    var zero := (id: string) => id in indegree && indegree[id] == 0;
    done := [];
    assert Members(done) == {};
    QueueStarts(d, indegree, zero);
    var queue := Filter(zero, IdList(d.nodes));
    layer := map id | id in queue :: 0;
    while queue != []
      invariant KahnInvariant(d, done, queue) && CountsPending(d, done, indegree)
      invariant forall t {:trigger LayerOk(d.Arcs(), done, layer, t)} :: LayerOk(d.Arcs(), done, layer, t)
      decreases |d.nodes| - |done|
    {
      QueueFits(d, done, queue);
      var v := queue[0];
      FinishStep(d, done, queue);
      ghost var rest := PopCounters(d, done, v, indegree);
      ghost var before := layer;
      var released;
      layer, indegree, released := RelaxTargets(d, v, out[v], layer, indegree, Members(done + [v]), rest);
      FinishKeepsLayers(d, done, v, before, layer);
      done := done + [v];
      queue := queue[1..] + released;
    }
    FinishedIsAcyclicPart(d, done);
    assert done + [] == done;
    ClearIsLongest(d, done, layer);
  }

  /** One round of the queue. */
  lemma FinishStep(d: Document, done: seq<string>, queue: seq<string>)
    requires KahnInvariant(d, done, queue) && queue != []
    ensures var v := queue[0];
            && v in d.Ids() && v !in done && Ordered(d.Arcs(), done + [v])
            && (forall e :: e in Out(d, d.Ids(), v) ==> e.dst.node in d.Ids() && e.dst.node != v)
            && KahnInvariant(d, done + [v], queue[1..] + Released(d, Members(done + [v]), Out(d, d.Ids(), v)))
  {
    var v := queue[0];
    assert v in done + queue;
    OutLeaves(d, v);
    KahnStepKeeps(d, done, queue, Out(d, d.Ids(), v));
    forall e | e in Out(d, d.Ids(), v) ensures e.dst.node != v {
      if e.dst.node == v {
        ArcMembers(d, v, v);
        NoBackArc(d.Arcs(), done, v, v);
      }
    }
  }

  // ---- Acyclic graphs ----

  /** On an acyclic graph every node sits at the length of the longest path that reaches it, so every edge goes
      to a later column. */
  lemma AcyclicLayout(d: Document, done: seq<string>, layer: map<string, nat>)
    requires Layered(d, done, layer) && Acyclic(d.Arcs())
    ensures forall v :: v in d.Ids() ==> Longest(d.Arcs(), v, LayerOf(layer, v))
    ensures forall u, v :: (u, v) in d.Arcs() ==> LayerOf(layer, u) < LayerOf(layer, v)
  {
    ClearIsLongest(d, done, layer);
    forall v | v in d.Ids() ensures Clear(d.Arcs(), v) {}
    forall u, v | (u, v) in d.Arcs() ensures LayerOf(layer, u) < LayerOf(layer, v) {
      ArcMembers(d, u, v);
      assert u in done && LayerOk(d.Arcs(), done, layer, v);
    }
  }

  // ---- Positions ----

  datatype Position = Position(x: int, y: int)

  /** The indices below n whose layer is l. */
  function IndicesAt(layers: seq<nat>, l: nat, n: nat): seq<nat>
    requires n <= |layers|
  {
    if n == 0 then [] else IndicesAt(layers, l, n - 1) + (if layers[n - 1] == l then [n - 1] else [])
  }

  /** Columns are 260 wide and rows 130 high, from (70, 70). */
  function Place(layers: seq<nat>, i: nat): Position
    requires i < |layers|
  {
    Position(70 + layers[i] * 260, 70 + |IndicesAt(layers, layers[i], i)| * 130)
  }

  lemma {:induction false} IndexHasRow(layers: seq<nat>, i: nat, n: nat)
    requires i < n <= |layers|
    ensures var row := |IndicesAt(layers, layers[i], i)|;
            row < |IndicesAt(layers, layers[i], n)| && IndicesAt(layers, layers[i], n)[row] == i
  {
    if i < n - 1 { IndexHasRow(layers, i, n - 1); }
  }

  lemma {:induction false} RowHasIndex(layers: seq<nat>, l: nat, n: nat, k: nat)
    requires n <= |layers| && k < |IndicesAt(layers, l, n)|
    ensures var i := IndicesAt(layers, l, n)[k]; i < n && layers[i] == l && |IndicesAt(layers, l, i)| == k
  {
    if k < |IndicesAt(layers, l, n - 1)| { RowHasIndex(layers, l, n - 1, k); }
  }

  /** No two nodes are placed on top of each other. */
  lemma PlacesDiffer(layers: seq<nat>, i: nat, j: nat)
    requires i < j < |layers|
    ensures Place(layers, i) != Place(layers, j)
  {
    if layers[i] == layers[j] { IndexHasRow(layers, i, j); }
  }

  predicate AtLayer(layers: seq<nat>, l: nat, j: int) { 0 <= j < |layers| && layers[j] == l }

  lemma {:induction false} RowsAreIndices(layers: seq<nat>, l: nat, n: nat)
    requires n <= |layers|
    ensures |IndicesAt(layers, l, n)| == |set j | 0 <= j < n && AtLayer(layers, l, j)|
  {
    if n == 0 {
      assert (set j | 0 <= j < n && AtLayer(layers, l, j)) == {};
    } else {
      RowsAreIndices(layers, l, n - 1);
      var before := set j | 0 <= j < n - 1 && AtLayer(layers, l, j);
      assert (set j | 0 <= j < n && AtLayer(layers, l, j)) == before + (if layers[n - 1] == l then {n - 1} else {});
    }
  }

  /** A node stands in the column of its layer, below the nodes of that layer listed before it. */
  lemma PlaceIs(layers: seq<nat>, i: nat)
    requires i < |layers|
    ensures Place(layers, i).x == 70 + 260 * layers[i]
    ensures Place(layers, i).y == 70 + 130 * |set j | 0 <= j < i && AtLayer(layers, layers[i], j)|
  {
    RowsAreIndices(layers, layers[i], i);
  }

  /** The buckets of the first n nodes. */
  ghost predicate Buckets(layers: seq<nat>, n: nat, buckets: map<nat, seq<nat>>)
    requires n <= |layers|
  {
    && (forall l :: l in buckets <==> l in layers[..n])
    && (forall l :: l in buckets ==> buckets[l] == IndicesAt(layers, l, n))
  }

  lemma {:induction false} NoIndices(layers: seq<nat>, l: nat, n: nat)
    requires n <= |layers| && l !in layers[..n]
    ensures IndicesAt(layers, l, n) == []
  {
    if n > 0 {
      TakeGrows(layers, n - 1);
      NoIndices(layers, l, n - 1);
    }
  }

  lemma BucketsGrow(layers: seq<nat>, n: nat, buckets: map<nat, seq<nat>>)
    requires n < |layers| && Buckets(layers, n, buckets)
    ensures var l := layers[n];
            Buckets(layers, n + 1, buckets[l := (if l in buckets then buckets[l] else []) + [n]])
  {
    TakeGrows(layers, n);
    if layers[n] !in buckets { NoIndices(layers, layers[n], n); }
  }

  /** `buckets[layer] ??= []` and push. */
  method FillBuckets(layers: seq<nat>) returns (buckets: map<nat, seq<nat>>)
    ensures Buckets(layers, |layers|, buckets)
  {
    buckets := map[];
    for i := 0 to |layers|
      invariant Buckets(layers, i, buckets)
    {
      BucketsGrow(layers, i, buckets);
      var l := layers[i];
      buckets := buckets[l := (if l in buckets then buckets[l] else []) + [i]];
    }
  }

  /** Move the nodes of every bucket to their column, one below the other. */
  method PlaceBuckets(layers: seq<nat>, buckets: map<nat, seq<nat>>, positions: array<Position>)
    requires positions.Length == |layers|
    requires Buckets(layers, |layers|, buckets)
    modifies positions
    ensures forall i :: 0 <= i < |layers| ==> positions[i] == Place(layers, i)
  {
    var left := buckets.Keys;
    assert layers[..|layers|] == layers;
    while left != {}
      invariant left <= buckets.Keys
      invariant forall i :: 0 <= i < |layers| && layers[i] !in left ==> positions[i] == Place(layers, i)
      decreases left
    {
      var l :| l in left;
      PlaceBucket(layers, l, buckets[l], positions);
      left := left - {l};
    }
  }

  method PlaceBucket(layers: seq<nat>, l: nat, bucket: seq<nat>, positions: array<Position>)
    requires positions.Length == |layers| && bucket == IndicesAt(layers, l, |layers|)
    modifies positions
    ensures forall i :: 0 <= i < |layers| ==>
              positions[i] == if layers[i] == l then Place(layers, i) else old(positions[i])
  {
    for k := 0 to |bucket|
      invariant forall i :: 0 <= i < |layers| ==>
                  positions[i] == if layers[i] == l && |IndicesAt(layers, l, i)| < k then Place(layers, i) else old(positions[i])
    {
      RowHasIndex(layers, l, |layers|, k);
      forall i | 0 <= i < |layers| && layers[i] == l && |IndicesAt(layers, l, i)| == k ensures i == bucket[k] {
        IndexHasRow(layers, i, |layers|);
      }
      positions[bucket[k]] := Position(70 + l * 260, 70 + k * 130);
    }
    forall i | 0 <= i < |layers| && layers[i] == l ensures |IndicesAt(layers, l, i)| < |bucket| {
      IndexHasRow(layers, i, |layers|);
    }
  }

  function LayersOf(d: Document, layer: map<string, nat>): seq<nat> {
    seq(|d.nodes|, i requires 0 <= i < |d.nodes| => LayerOf(layer, d.nodes[i].id))
  }

  /** `autoLayout`: positions[i] is the position of the i-th node. */
  method Layout(d: Document, positions: array<Position>) returns (layer: map<string, nat>, ghost done: seq<string>)
    requires d.UniqueIds() && positions.Length == |d.nodes|
    modifies positions
    ensures Layered(d, done, layer)
    ensures forall i :: 0 <= i < |d.nodes| ==> positions[i] == Place(LayersOf(d, layer), i)
    ensures forall i :: 0 <= i < |d.nodes| ==> positions[i].x == 70 + 260 * LayerOf(layer, d.nodes[i].id)
    ensures Acyclic(d.Arcs()) ==>
              forall i, j :: 0 <= i < |d.nodes| && 0 <= j < |d.nodes| && (d.nodes[i].id, d.nodes[j].id) in d.Arcs() ==>
                positions[i].x < positions[j].x
  {
    layer, done := AssignLayers(d);
    var layers := LayersOf(d, layer);
    var buckets := FillBuckets(layers);
    PlaceBuckets(layers, buckets, positions);
    forall i | 0 <= i < |d.nodes| ensures positions[i].x == 70 + 260 * LayerOf(layer, d.nodes[i].id) { PlaceIs(layers, i); }
    if Acyclic(d.Arcs()) { AcyclicLayout(d, done, layer); }
  }
}
