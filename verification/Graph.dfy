/** `GraphIndex` (python/sdpstudio_core/graph.py): Kahn's order and what it means. */
module Graph {
  import opened Sorting
  import opened Digraph
  import opened Documents

  predicate ById(a: Edge, b: Edge) { TextLeq(a.id, b.id) }

  lemma ByIdPreorder()
    ensures Preorder(ById)
  {
    TextPreorder();
  }

  function SortedOutgoing(d: Document, v: string): seq<Edge> { Sort(ById, Outgoing(d, v)) }

  /** Every edge into t from an existing node comes from a finished node. */
  ghost predicate Ready(d: Document, done: set<string>, t: string) {
    forall e :: e in d.edges && e.dst.node == t && e.src.node in d.Ids() ==> e.src.node in done
  }

  ghost predicate LastInto(es: seq<Edge>, t: string) {
    forall e :: e in es ==> e.dst.node != t
  }

  /** The nodes that the outgoing edges es of the node just finished release, in order: each at
      the last of the edges leading to it. */
  ghost function Released(d: Document, done: set<string>, es: seq<Edge>): seq<string> {
    if es == [] then []
    else
      var t := es[0].dst.node;
      (if t in d.Ids() && LastInto(es[1..], t) && Ready(d, done, t) then [t] else [])
      + Released(d, done, es[1..])
  }

  ghost function Members(s: seq<string>): set<string> { set x | x in s }

  ghost function Kahn(d: Document, done: seq<string>, queue: seq<string>): seq<string>
    decreases |d.nodes| - |done|
  {
    if queue == [] || |done| >= |d.nodes| then done
    else
      var done' := done + [queue[0]];
      Kahn(d, done', queue[1..] + Released(d, Members(done'), SortedOutgoing(d, queue[0])))
  }

  function IdList(nodes: seq<Node>): seq<string> {
    if nodes == [] then [] else [nodes[0].id] + IdList(nodes[1..])
  }

  ghost function IsRoot(d: Document): string -> bool { (id: string) => Ready(d, {}, id) }

  ghost function Roots(d: Document): seq<string> {
    Sort(TextLeq, Filter(IsRoot(d), IdList(d.nodes)))
  }

  /** The value of `topological_order`. */
  ghost function Order(d: Document): seq<string> { Kahn(d, [], Roots(d)) }

  // ---- What the order is ----

  ghost predicate KahnInvariant(d: Document, done: seq<string>, queue: seq<string>) {
    var all := done + queue;
    && Distinct(all)
    && (forall x :: x in all ==> x in d.Ids())
    && (forall x {:trigger Ready(d, Members(done), x)} :: x in d.Ids() ==> (x in all <==> Ready(d, Members(done), x)))
    && Ordered(d.Arcs(), done)
  }

  lemma {:induction false} ReleasedMembers(d: Document, done: set<string>, es: seq<Edge>)
    ensures forall t :: t in Released(d, done, es) <==>
                        t in d.Ids() && Ready(d, done, t) && !LastInto(es, t)
    ensures Distinct(Released(d, done, es))
  {
    if es != [] {
      ReleasedMembers(d, done, es[1..]);
      var t0 := es[0].dst.node;
      var rest := Released(d, done, es[1..]);
      forall t ensures t in Released(d, done, es) <==> t in d.Ids() && Ready(d, done, t) && !LastInto(es, t) {
        assert es == [es[0]] + es[1..];
        if t != t0 {
          assert LastInto(es, t) <==> LastInto(es[1..], t);
        } else {
          assert es[0] in es && !LastInto(es, t);
        }
      }
      forall i | 0 <= i < |rest| ensures LastInto(es[1..], t0) ==> rest[i] != t0 {
        assert rest[i] in rest;
      }
    }
  }

  lemma SortedOutgoingMembers(d: Document, v: string)
    ensures forall e :: e in SortedOutgoing(d, v) <==> e in d.edges && e.src.node == v
    ensures |SortedOutgoing(d, v)| == |Outgoing(d, v)|
    ensures multiset(SortedOutgoing(d, v)) == multiset(Outgoing(d, v))
  {
    ByIdPreorder();
    SortIsSorted(ById, Outgoing(d, v));
    OutgoingMembers(d, v);
  }

  /** es are the edges that leave v for an existing node, and perhaps others that leave v. */
  ghost predicate Leaves(d: Document, v: string, es: seq<Edge>) {
    && (forall e :: e in es ==> e in d.edges && e.src.node == v)
    && (forall e :: e in d.edges && e.src.node == v && e.dst.node in d.Ids() ==> e in es)
  }

  lemma KahnStepMembers(d: Document, done: seq<string>, queue: seq<string>, es: seq<Edge>, released: seq<string>)
    requires KahnInvariant(d, done, queue) && queue != [] && Leaves(d, queue[0], es)
    requires released == Released(d, Members(done + [queue[0]]), es)
    ensures Members(done + [queue[0]]) == Members(done) + {queue[0]}
    ensures queue[0] in d.Ids() && queue[0] !in done
    ensures Distinct(released) && forall x :: x in released ==> x !in done + queue && x in d.Ids()
    ensures forall x {:trigger Ready(d, Members(done + [queue[0]]), x)} :: x in d.Ids() ==>
              (x in done + queue + released <==> Ready(d, Members(done + [queue[0]]), x))
  {
    var v := queue[0];
    var done' := done + [v];
    ReleasedMembers(d, Members(done'), es);
    assert Members(done') == Members(done) + {v};
    var all := done + queue;
    assert v == all[|done|];
    assert forall i :: 0 <= i < |done| ==> done[i] == all[i];
    assert v !in done;
    forall x | x in released ensures x !in all {
      var e :| e in es && e.dst.node == x;
      assert !Ready(d, Members(done), x);
    }
    forall x | x in d.Ids() ensures x in all + released <==> Ready(d, Members(done'), x) {
      assert x in all <==> Ready(d, Members(done), x);
      assert x in released <==> Ready(d, Members(done'), x) && !LastInto(es, x);
      if Ready(d, Members(done'), x) && !Ready(d, Members(done), x) {
        var e :| e in d.edges && e.dst.node == x && e.src.node in d.Ids() && e.src.node !in done;
        assert e.src.node == v && e in es;
        assert !LastInto(es, x);
      }
    }
  }

  lemma KahnStepOrdered(d: Document, done: seq<string>, v: string)
    requires Ordered(d.Arcs(), done) && Ready(d, Members(done), v) && v !in done
    ensures Ordered(d.Arcs(), done + [v])
  {
    var done' := done + [v];
    forall u, i | 0 <= i < |done'| && (u, done'[i]) in d.Arcs() ensures u in done'[..i] {
      if i < |done| {
        assert done'[i] == done[i] && done'[..i] == done[..i];
      } else {
        assert done'[..i] == done;
      }
    }
  }

  /** Finishing the head of the queue and queueing what it releases keeps the invariant. */
  lemma KahnStepKeeps(d: Document, done: seq<string>, queue: seq<string>, es: seq<Edge>)
    requires KahnInvariant(d, done, queue) && queue != [] && Leaves(d, queue[0], es)
    ensures var done' := done + [queue[0]];
            KahnInvariant(d, done', queue[1..] + Released(d, Members(done'), es))
    ensures queue[0] in d.Ids() && queue[0] !in done
  {
    var done' := done + [queue[0]];
    var released := Released(d, Members(done'), es);
    KahnStepMembers(d, done, queue, es, released);
    assert queue[0] in done + queue;
    KahnStepOrdered(d, done, queue[0]);
    DistinctAppend(done + queue, released);
    assert done' + (queue[1..] + released) == done + queue + released;
  }

  lemma RootsMembers(d: Document)
    requires d.UniqueIds()
    ensures forall x :: x in Roots(d) <==> x in d.Ids() && Ready(d, {}, x)
    ensures Distinct(Roots(d))
  {
    TextPreorder();
    IdListMembers(d.nodes);
    var list := Filter(IsRoot(d), IdList(d.nodes));
    FilterMembers(IsRoot(d), IdList(d.nodes));
    FilterDistinct(IsRoot(d), IdList(d.nodes));
    SortIsSorted(TextLeq, list);
    forall i, j | 0 <= i < j < |Roots(d)| ensures Roots(d)[i] != Roots(d)[j] {
      TwoPlaces(Roots(d), i, j);
      OnePlace(list, Roots(d)[i]);
    }
    IdListIsIds(d);
  }

  lemma IdListIsIds(d: Document)
    ensures forall x :: x in IdList(d.nodes) <==> x in d.Ids()
    ensures d.UniqueIds() ==> Distinct(IdList(d.nodes))
  {
    IdListMembers(d.nodes);
    forall x ensures x in IdList(d.nodes) <==> x in d.Ids() {
      if x in IdList(d.nodes) { var i :| 0 <= i < |d.nodes| && d.nodes[i].id == x; }
      if x in d.Ids() {
        var n :| n in d.nodes && n.id == x;
        var i :| 0 <= i < |d.nodes| && d.nodes[i] == n;
        assert IdList(d.nodes)[i] == x;
      }
    }
  }

  lemma {:induction false} IdListMembers(nodes: seq<Node>)
    ensures |IdList(nodes)| == |nodes|
    ensures forall i :: 0 <= i < |nodes| ==> IdList(nodes)[i] == nodes[i].id
  {
    if nodes != [] { IdListMembers(nodes[1..]); }
  }

  lemma KahnStarts(d: Document)
    requires d.UniqueIds()
    ensures KahnInvariant(d, [], Roots(d))
  {
    RootsMembers(d);
    NothingDone(d, Roots(d));
  }

  /** At the start exactly the nodes without inputs are queued. */
  lemma NothingDone(d: Document, roots: seq<string>)
    requires Distinct(roots) && forall x :: x in roots <==> x in d.Ids() && Ready(d, {}, x)
    ensures KahnInvariant(d, [], roots)
  {
    assert [] + roots == roots;
    assert Members([]) == {};
  }

  lemma QueueFits(d: Document, done: seq<string>, queue: seq<string>)
    requires d.UniqueIds() && KahnInvariant(d, done, queue)
    ensures |done| + |queue| <= |d.nodes|
  {
    DistinctWithin(done + queue, d.Ids());
    IdCount(d);
  }

  lemma {:induction false} KahnKeeps(d: Document, done: seq<string>, queue: seq<string>)
    requires d.UniqueIds() && KahnInvariant(d, done, queue)
    ensures KahnInvariant(d, Kahn(d, done, queue), [])
    ensures done <= Kahn(d, done, queue)
    ensures queue != [] ==> queue[0] in Kahn(d, done, queue)
    decreases |d.nodes| - |done|
  {
    QueueFits(d, done, queue);
    if queue != [] {
      SortedOutgoingMembers(d, queue[0]);
      KahnStepKeeps(d, done, queue, SortedOutgoing(d, queue[0]));
      var done' := done + [queue[0]];
      KahnKeeps(d, done', queue[1..] + Released(d, Members(done'), SortedOutgoing(d, queue[0])));
      assert Kahn(d, done, queue)[|done|] == done'[|done|] == queue[0];
    }
  }

  /** The order lists nodes once, every edge's source before its target, and stops only when
      each node left over has an edge from a node left over. */
  lemma OrderFacts(d: Document)
    requires d.UniqueIds()
    ensures Ordered(d.Arcs(), Order(d))
    ensures forall x :: x in Order(d) ==> x in d.Ids()
    ensures forall x {:trigger Ready(d, Members(Order(d)), x)} ::
              x in d.Ids() && Ready(d, Members(Order(d)), x) ==> x in Order(d)
  {
    KahnStarts(d);
    KahnKeeps(d, [], Roots(d));
    assert Order(d) + [] == Order(d);
  }

  lemma ArcsAreBetweenNodes(d: Document, a: string, b: string)
    requires Reaches(d.Arcs(), a, b)
    ensures a in d.Ids() && b in d.Ids()
  {
    var _, _ := ReachesEnds(d.Arcs(), a, b);
  }

  lemma LeftOverFedByCycle(d: Document, order: seq<string>, n: string) returns (c: string)
    requires forall x {:trigger Ready(d, Members(order), x)} ::
               x in d.Ids() && Ready(d, Members(order), x) ==> x in order
    requires n in d.Ids() && n !in order
    ensures OnCycle(d.Arcs(), c) && Feeds(d.Arcs(), c, n)
  {
    var rel, left := d.Arcs(), d.Ids() - Members(order);
    forall v | v in left ensures FedFrom(rel, left, v) {
      assert !Ready(d, Members(order), v);
      var e :| e in d.edges && e.dst.node == v && e.src.node in d.Ids() && e.src.node !in Members(order);
      ArcMembers(d, e.src.node, v);
      assert e.src.node in left && (e.src.node, v) in rel;
    }
    c := FedByCycle(rel, left, n);
  }

  /** The order is exactly the part of the graph that is neither on a cycle nor behind one. */
  lemma OrderIsAcyclicPart(d: Document, n: string)
    requires d.UniqueIds()
    ensures n in Order(d) <==>
            n in d.Ids() && forall c :: Feeds(d.Arcs(), c, n) ==> !OnCycle(d.Arcs(), c)
  {
    OrderFacts(d);
    if n in Order(d) {
      forall c | Feeds(d.Arcs(), c, n) ensures !OnCycle(d.Arcs(), c) {
        OrderedAvoidsCycles(d.Arcs(), Order(d), c, n);
      }
    } else if n in d.Ids() {
      var c := LeftOverFedByCycle(d, Order(d), n);
    }
  }

  /** The length test of `validate_graph` detects cycles exactly. */
  lemma ShortOrderMeansCycle(d: Document)
    requires d.UniqueIds()
    ensures |Order(d)| != |d.nodes| <==> !Acyclic(d.Arcs())
    ensures |Order(d)| <= |d.nodes|
    ensures Acyclic(d.Arcs()) ==> forall x :: x in d.Ids() <==> x in Order(d)
  {
    OrderFacts(d);
    IdCount(d);
    DistinctWithin(Order(d), d.Ids());
    if |Order(d)| == |d.nodes| {
      forall a ensures !OnCycle(d.Arcs(), a) {
        if OnCycle(d.Arcs(), a) {
          ArcsAreBetweenNodes(d, a, a);
          OrderIsAcyclicPart(d, a);
          assert Feeds(d.Arcs(), a, a);
        }
      }
    }
    if Acyclic(d.Arcs()) {
      forall x | x in d.Ids() ensures x in Order(d) { OrderIsAcyclicPart(d, x); }
      assert Members(Order(d)) == d.Ids();
      DistinctCount(Order(d));
    }
  }

  // ---- First in, first out ----

  /** x has all its inputs once k nodes of the order are finished, and not before. */
  ghost predicate ReleasedAfter(d: Document, order: seq<string>, x: string, k: nat)
    requires k <= |order|
  {
    Ready(d, Members(order[..k]), x) && (k > 0 ==> !Ready(d, Members(order[..k - 1]), x))
  }

  /** Some edge from v to y has an id no smaller than that of any edge from v to x. */
  ghost predicate LaterEdge(d: Document, v: string, x: string, y: string) {
    exists e :: e in d.edges && e.src.node == v && e.dst.node == y && EdgesUpTo(d, v, x, e.id)
  }

  ghost predicate EdgesUpTo(d: Document, v: string, x: string, id: string) {
    forall f :: f in d.edges && f.src.node == v && f.dst.node == x ==> TextLeq(f.id, id)
  }

  /** x is released no later than y; at the same time by id when neither has inputs, and by the last edge from the
      node that releases both otherwise. */
  ghost predicate Precedes(d: Document, order: seq<string>, x: string, k: nat, y: string, l: nat)
    requires k <= |order| && l <= |order|
  {
    k <= l && (k == l ==> if k == 0 then TextLeq(x, y) else LaterEdge(d, order[k - 1], x, y))
  }

  ghost predicate FirstOut(d: Document, done: seq<string>, all: seq<string>) {
    forall i, j, k, l {:trigger ReleasedAfter(d, done, all[i], k), ReleasedAfter(d, done, all[j], l)} ::
      (0 <= i < j < |all| && 0 <= k <= |done| && 0 <= l <= |done|
       && ReleasedAfter(d, done, all[i], k) && ReleasedAfter(d, done, all[j], l)) ==> Precedes(d, done, all[i], k, all[j], l)
  }

  /** The i-th node is released by the nodes before it. */
  ghost predicate ReleasedBefore(d: Document, order: seq<string>, i: nat)
    requires i < |order|
  {
    exists k :: 0 <= k <= i && ReleasedAfter(d, order, order[i], k)
  }

  ghost predicate AllReleased(d: Document, order: seq<string>) {
    forall i {:trigger ReleasedBefore(d, order, i)} :: 0 <= i < |order| ==> ReleasedBefore(d, order, i)
  }

  lemma FirstIsLeast(es: seq<Edge>, e: Edge)
    requires Sorted(ById, es) && es != [] && e in es[1..]
    ensures TextLeq(es[0].id, e.id)
  {
    var a :| 0 <= a < |es[1..]| && es[1..][a] == e;
    assert ById(es[0], es[a + 1]);
  }

  lemma RestSorted(es: seq<Edge>)
    requires Sorted(ById, es) && es != []
    ensures Sorted(ById, es[1..])
  {
  }

  /** The edge at the head does not matter to the targets queued after it. */
  lemma HeadIsEarlier(es: seq<Edge>, e: Edge, t: string)
    requires Sorted(ById, es) && es != [] && e in es[1..]
    requires forall f :: f in es[1..] && f.dst.node == t ==> TextLeq(f.id, e.id)
    ensures e in es && forall f :: f in es && f.dst.node == t ==> TextLeq(f.id, e.id)
  {
    FirstIsLeast(es, e);
    assert es == [es[0]] + es[1..];
  }

  /** The last of the edges to a released target. */
  lemma TargetEdge(d: Document, done: set<string>, es: seq<Edge>, j: nat) returns (e: Edge)
    requires j < |Released(d, done, es)|
    ensures e in es && e.dst.node == Released(d, done, es)[j]
  {
    ReleasedMembers(d, done, es);
    assert Released(d, done, es)[j] in Released(d, done, es);
    e :| e in es && e.dst.node == Released(d, done, es)[j];
  }

  /** The releasing loop queues its targets by their last edges. */
  lemma {:induction false} ReleasedByLastEdge(d: Document, done: set<string>, es: seq<Edge>, i: nat, j: nat) returns (e: Edge)
    requires Sorted(ById, es) && i < j < |Released(d, done, es)|
    ensures e in es && e.dst.node == Released(d, done, es)[j]
    ensures forall f :: f in es && f.dst.node == Released(d, done, es)[i] ==> TextLeq(f.id, e.id)
  {
    var t, rest := es[0].dst.node, Released(d, done, es[1..]);
    RestSorted(es);
    if t in d.Ids() && LastInto(es[1..], t) && Ready(d, done, t) {
      assert Released(d, done, es) == [t] + rest;
      if i == 0 {
        e := TargetEdge(d, done, es[1..], j - 1);
        HeadIsEarlier(es, e, t);
      } else {
        e := ReleasedByLastEdge(d, done, es[1..], i - 1, j - 1);
        HeadIsEarlier(es, e, rest[i - 1]);
      }
    } else {
      assert Released(d, done, es) == [] + rest == rest;
      e := ReleasedByLastEdge(d, done, es[1..], i, j);
      HeadIsEarlier(es, e, rest[i]);
    }
  }

  lemma ReadyGrows(d: Document, done: seq<string>, k: nat, x: string)
    requires k <= |done| && Ready(d, Members(done[..k]), x)
    ensures Ready(d, Members(done), x)
  {
    forall u | u in Members(done[..k]) ensures u in Members(done) { assert u in done[..k]; }
  }

  /** One more finished node leaves earlier releases where they were. */
  lemma ReleaseStays(d: Document, done: seq<string>, v: string, x: string, k: nat)
    requires k <= |done| + 1 && ReleasedAfter(d, done + [v], x, k)
    ensures Ready(d, Members(done), x) ==> k <= |done| && ReleasedAfter(d, done, x, k)
    ensures !Ready(d, Members(done), x) ==> k == |done| + 1
  {
    var done' := done + [v];
    assert done'[..|done|] == done;
    if k <= |done| {
      assert done'[..k] == done[..k] && (k > 0 ==> done'[..k - 1] == done[..k - 1]);
      ReadyGrows(d, done, k, x);
    }
  }

  /** The targets released together are queued by their last edges. */
  lemma ReleasedPrecede(d: Document, done: seq<string>, v: string, i: nat, j: nat)
    requires i < j < |Released(d, Members(done + [v]), SortedOutgoing(d, v))|
    ensures var released := Released(d, Members(done + [v]), SortedOutgoing(d, v)); LaterEdge(d, v, released[i], released[j])
  {
    ByIdPreorder();
    SortIsSorted(ById, Outgoing(d, v));
    SortedOutgoingMembers(d, v);
    var released := Released(d, Members(done + [v]), SortedOutgoing(d, v));
    var e := ReleasedByLastEdge(d, Members(done + [v]), SortedOutgoing(d, v), i, j);
    assert EdgesUpTo(d, v, released[i], e.id);
  }

  /** Two nodes that were queued before v finishes. */
  lemma KnownPrecede(d: Document, done: seq<string>, known: seq<string>, v: string, i: nat, j: nat, k: nat, l: nat)
    requires FirstOut(d, done, known) && i < j < |known| && k <= |done| + 1 && l <= |done| + 1
    requires Ready(d, Members(done), known[i]) && Ready(d, Members(done), known[j])
    requires ReleasedAfter(d, done + [v], known[i], k) && ReleasedAfter(d, done + [v], known[j], l)
    ensures Precedes(d, done + [v], known[i], k, known[j], l)
  {
    ReleaseStays(d, done, v, known[i], k);
    ReleaseStays(d, done, v, known[j], l);
    assert Precedes(d, done, known[i], k, known[j], l);
  }

  /** A node that v releases comes after all that was queued before, and after those v released before it. */
  lemma NewPrecede(d: Document, done: seq<string>, v: string, x: string, k: nat, y: string, l: nat)
    requires k <= |done| + 1 && l <= |done| + 1 && !Ready(d, Members(done), y)
    requires Ready(d, Members(done), x) || LaterEdge(d, v, x, y)
    requires ReleasedAfter(d, done + [v], x, k) && ReleasedAfter(d, done + [v], y, l)
    ensures Precedes(d, done + [v], x, k, y, l)
  {
    ReleaseStays(d, done, v, x, k);
    ReleaseStays(d, done, v, y, l);
  }

  /** Which nodes are ready before the head of the queue is finished. */
  lemma ReadyBefore(d: Document, done: seq<string>, queue: seq<string>, i: nat)
    requires KahnInvariant(d, done, queue) && queue != []
    requires i < |done + queue + Released(d, Members(done + [queue[0]]), SortedOutgoing(d, queue[0]))|
    ensures var all := done + queue + Released(d, Members(done + [queue[0]]), SortedOutgoing(d, queue[0]));
            Ready(d, Members(done), all[i]) <==> i < |done + queue|
  {
    var v := queue[0];
    var known, released := done + queue, Released(d, Members(done + [v]), SortedOutgoing(d, v));
    if i < |known| {
      assert (known + released)[i] == known[i] && known[i] in known;
    } else {
      NewWasNotReady(d, done, queue, released[i - |known|]);
      assert (known + released)[i] == released[i - |known|];
    }
  }

  lemma NewWasNotReady(d: Document, done: seq<string>, queue: seq<string>, x: string)
    requires KahnInvariant(d, done, queue) && queue != []
    requires x in Released(d, Members(done + [queue[0]]), SortedOutgoing(d, queue[0]))
    ensures !Ready(d, Members(done), x)
  {
    SortedOutgoingMembers(d, queue[0]);
    KahnStepMembers(d, done, queue, SortedOutgoing(d, queue[0]), Released(d, Members(done + [queue[0]]), SortedOutgoing(d, queue[0])));
  }

  lemma FirstOutStep(d: Document, done: seq<string>, queue: seq<string>, i: nat, j: nat, k: nat, l: nat)
    requires KahnInvariant(d, done, queue) && queue != [] && FirstOut(d, done, done + queue)
    requires var all := done + queue + Released(d, Members(done + [queue[0]]), SortedOutgoing(d, queue[0]));
             && i < j < |all| && k <= |done| + 1 && l <= |done| + 1
             && ReleasedAfter(d, done + [queue[0]], all[i], k) && ReleasedAfter(d, done + [queue[0]], all[j], l)
    ensures var all := done + queue + Released(d, Members(done + [queue[0]]), SortedOutgoing(d, queue[0]));
            Precedes(d, done + [queue[0]], all[i], k, all[j], l)
  {
    var v := queue[0];
    var known, released := done + queue, Released(d, Members(done + [v]), SortedOutgoing(d, v));
    var all := known + released;
    ReadyBefore(d, done, queue, i);
    ReadyBefore(d, done, queue, j);
    if j < |known| {
      assert all[i] == known[i] && all[j] == known[j];
      KnownPrecede(d, done, known, v, i, j, k, l);
    } else {
      if i >= |known| {
        assert all[i] == released[i - |known|] && all[j] == released[j - |known|];
        ReleasedPrecede(d, done, v, i - |known|, j - |known|);
      }
      NewPrecede(d, done, v, all[i], k, all[j], l);
    }
  }

  lemma QueueMoves<T>(done: seq<T>, queue: seq<T>, released: seq<T>)
    requires queue != []
    ensures (done + [queue[0]]) + (queue[1..] + released) == done + queue + released
  {
  }

  lemma {:induction false} KahnFirstOut(d: Document, done: seq<string>, queue: seq<string>)
    requires d.UniqueIds() && KahnInvariant(d, done, queue) && FirstOut(d, done, done + queue)
    ensures FirstOut(d, Kahn(d, done, queue), Kahn(d, done, queue))
    decreases |d.nodes| - |done|
  {
    QueueFits(d, done, queue);
    if queue != [] {
      SortedOutgoingMembers(d, queue[0]);
      KahnStepKeeps(d, done, queue, SortedOutgoing(d, queue[0]));
      var done' := done + [queue[0]];
      var released := Released(d, Members(done'), SortedOutgoing(d, queue[0]));
      var all := done + queue + released;
      QueueMoves(done, queue, released);
      forall i, j, k, l | 0 <= i < j < |all| && 0 <= k <= |done'| && 0 <= l <= |done'|
        && ReleasedAfter(d, done', all[i], k) && ReleasedAfter(d, done', all[j], l)
        ensures Precedes(d, done', all[i], k, all[j], l)
      {
        FirstOutStep(d, done, queue, i, j, k, l);
      }
      KahnFirstOut(d, done', queue[1..] + released);
    } else {
      assert done + queue == done;
    }
  }

  /** The queue is first in, first out: nodes leave it in the order in which their last inputs finished, those
      without inputs by id, and those released by one node by their last edges from it. */
  lemma FirstInFirstOut(d: Document)
    requires d.UniqueIds()
    ensures FirstOut(d, Order(d), Order(d)) && AllReleased(d, Order(d))
  {
    KahnStarts(d);
    RootsFirstOut(d);
    KahnFirstOut(d, [], Roots(d));
    OrderFacts(d);
    forall i | 0 <= i < |Order(d)| ensures ReleasedBefore(d, Order(d), i) {
      ReadyAtOwnPlace(d, i);
      FirstReady(d, Order(d), Order(d)[i], i);
    }
  }

  lemma RootsFirstOut(d: Document)
    ensures FirstOut(d, [], [] + Roots(d))
  {
    TextPreorder();
    SortIsSorted(TextLeq, Filter(IsRoot(d), IdList(d.nodes)));
    assert [] + Roots(d) == Roots(d);
  }

  lemma ReadyAtOwnPlace(d: Document, i: nat)
    requires d.UniqueIds() && i < |Order(d)|
    ensures Ready(d, Members(Order(d)[..i]), Order(d)[i])
  {
    OrderFacts(d);
    forall e | e in d.edges && e.dst.node == Order(d)[i] && e.src.node in d.Ids() ensures e.src.node in Members(Order(d)[..i]) {
      assert Order(d)[i] in Order(d);
      ArcMembers(d, e.src.node, Order(d)[i]);
    }
  }

  lemma {:induction false} FirstReady(d: Document, order: seq<string>, x: string, n: nat)
    requires n <= |order| && Ready(d, Members(order[..n]), x)
    ensures exists k :: 0 <= k <= n && ReleasedAfter(d, order, x, k)
  {
    if n > 0 && Ready(d, Members(order[..n - 1]), x) {
      FirstReady(d, order, x, n - 1);
    } else {
      assert ReleasedAfter(d, order, x, n);
    }
  }

  lemma NoMutualPrecedence(d: Document, order: seq<string>, order': seq<string>, x: string, k: nat, y: string, l: nat, n: nat)
    requires d.UniqueIds() && k <= n && l <= n && n <= |order| && n <= |order'| && order[..n] == order'[..n]
    requires Precedes(d, order, x, k, y, l) && Precedes(d, order', y, l, x, k)
    ensures x == y
  {
    if k == 0 {
      TextAntisymmetric(x, y);
    } else {
      assert order[k - 1] == order[..n][k - 1] == order'[k - 1];
      var v := order[k - 1];
      var e :| e in d.edges && e.src.node == v && e.dst.node == y && EdgesUpTo(d, v, x, e.id);
      var f :| f in d.edges && f.src.node == v && f.dst.node == x && EdgesUpTo(d, v, y, f.id);
      TextAntisymmetric(e.id, f.id);
      EdgeUnique(d, e, f);
    }
  }

  /** The order is the only arrangement of its nodes in which they leave first in, first out. */
  lemma {:induction false} OnlyFirstOut(d: Document, order: seq<string>, n: nat)
    requires d.UniqueIds() && Distinct(order) && Members(order) == Members(Order(d)) && FirstOut(d, order, order)
    requires AllReleased(d, order) && n <= |order|
    ensures |order| == |Order(d)| && order[..n] == Order(d)[..n]
  {
    FirstInFirstOut(d);
    OrderFacts(d);
    DistinctCount(order);
    DistinctCount(Order(d));
    if n > 0 {
      OnlyFirstOut(d, order, n - 1);
      NextAgrees(d, order, n - 1);
      TakeGrows(order, n - 1);
      TakeGrows(Order(d), n - 1);
    }
  }

  lemma NextAgrees(d: Document, order: seq<string>, n: nat)
    requires d.UniqueIds() && Distinct(order) && Distinct(Order(d)) && Members(order) == Members(Order(d))
    requires n < |order| == |Order(d)| && order[..n] == Order(d)[..n]
    requires FirstOut(d, order, order) && FirstOut(d, Order(d), Order(d))
    requires AllReleased(d, order) && AllReleased(d, Order(d))
    ensures order[n] == Order(d)[n]
  {
    var x, y := order[n], Order(d)[n];
    if x != y {
      var a := PlaceAfter(order, Order(d), n);
      var b := PlaceAfter(Order(d), order, n);
      assert ReleasedBefore(d, order, n) && ReleasedBefore(d, Order(d), n);
      var k :| 0 <= k <= n && ReleasedAfter(d, order, x, k);
      var l :| 0 <= l <= n && ReleasedAfter(d, Order(d), y, l);
      SameRelease(d, order, Order(d), x, k, n);
      SameRelease(d, Order(d), order, y, l, n);
      assert Precedes(d, order, order[n], k, order[b], l);
      assert Precedes(d, Order(d), Order(d)[n], l, Order(d)[a], k);
      NoMutualPrecedence(d, order, Order(d), x, k, y, l, n);
    }
  }

  /** Where the n-th member of one arrangement stands in another that agrees before n. */
  lemma PlaceAfter(s: seq<string>, t: seq<string>, n: nat) returns (a: nat)
    requires Distinct(s) && Distinct(t) && Members(s) == Members(t) && n < |s| == |t| && s[..n] == t[..n] && s[n] != t[n]
    ensures n < a < |t| && t[a] == s[n]
  {
    assert s[n] in Members(s) && s[n] in Members(t);
    a :| 0 <= a < |t| && t[a] == s[n];
    assert forall i :: 0 <= i < n ==> t[i] == t[..n][i] == s[i];
  }

  lemma SameRelease(d: Document, order: seq<string>, order': seq<string>, x: string, k: nat, n: nat)
    requires k <= n && n <= |order| && n <= |order'| && order[..n] == order'[..n] && ReleasedAfter(d, order, x, k)
    ensures ReleasedAfter(d, order', x, k)
  {
    assert order[..k] == order[..n][..k] == order'[..k];
    if k > 0 { assert order[..k - 1] == order[..n][..k - 1] == order'[..k - 1]; }
  }

  // ---- Determinism ----

  lemma {:induction false} ReleasedSame(d: Document, d': Document, done: set<string>, es: seq<Edge>)
    requires SameGraph(d, d')
    ensures Released(d, done, es) == Released(d', done, es)
  {
    if es != [] {
      SameGraphMembers(d, d');
      ReleasedSame(d, d', done, es[1..]);
      var t := es[0].dst.node;
      assert Ready(d, done, t) <==> Ready(d', done, t);
    }
  }

  lemma SortedOutgoingSame(d: Document, d': Document, v: string)
    requires SameGraph(d, d') && d.UniqueIds()
    ensures SortedOutgoing(d, v) == SortedOutgoing(d', v)
  {
    ByIdPreorder();
    OutgoingMembers(d, v);
    FilterPermutes(FromNode(v), d.edges, d'.edges);
    forall a, b | a in Outgoing(d, v) && b in Outgoing(d, v) && ById(a, b) && ById(b, a) ensures a == b {
      TextAntisymmetric(a.id, b.id);
      EdgeUnique(d, a, b);
    }
    SortForgetsOrder(ById, Outgoing(d, v), Outgoing(d', v));
  }

  lemma {:induction false} KahnSame(d: Document, d': Document, done: seq<string>, queue: seq<string>)
    requires SameGraph(d, d') && d.UniqueIds()
    ensures Kahn(d, done, queue) == Kahn(d', done, queue)
    decreases |d.nodes| - |done|
  {
    SameGraphMembers(d, d');
    if queue != [] && |done| < |d.nodes| {
      var done' := done + [queue[0]];
      SortedOutgoingSame(d, d', queue[0]);
      ReleasedSame(d, d', Members(done'), SortedOutgoing(d, queue[0]));
      KahnSame(d, d', done', queue[1..] + Released(d, Members(done'), SortedOutgoing(d, queue[0])));
    }
  }

  lemma {:induction false} IdListCount(nodes: seq<Node>, x: string, p: string -> bool)
    ensures multiset(IdList(nodes))[x] == |Filter(HasId(x), nodes)|
  {
    if nodes != [] {
      IdListCount(nodes[1..], x, p);
      assert IdList(nodes) == [nodes[0].id] + IdList(nodes[1..]);
    }
  }

  function HasId(x: string): Node -> bool { (n: Node) => n.id == x }

  lemma RootsSame(d: Document, d': Document)
    requires SameGraph(d, d')
    ensures Roots(d) == Roots(d')
  {
    SameGraphMembers(d, d');
    TextPreorder();
    var a, b := Filter(IsRoot(d), IdList(d.nodes)), Filter(IsRoot(d'), IdList(d'.nodes));
    forall x ensures multiset(a)[x] == multiset(b)[x] {
      FilterMultiset(IsRoot(d), IdList(d.nodes), x);
      FilterMultiset(IsRoot(d'), IdList(d'.nodes), x);
      IdListCount(d.nodes, x, IsRoot(d));
      IdListCount(d'.nodes, x, IsRoot(d));
      FilterPermutes(HasId(x), d.nodes, d'.nodes);
      assert |Filter(HasId(x), d.nodes)| == |multiset(Filter(HasId(x), d.nodes))|;
      assert |Filter(HasId(x), d'.nodes)| == |multiset(Filter(HasId(x), d'.nodes))|;
      assert Ready(d, {}, x) <==> Ready(d', {}, x);
    }
    MultisetExtensional(multiset(a), multiset(b));
    forall x, y | x in a && y in a && TextLeq(x, y) && TextLeq(y, x) ensures x == y {
      TextAntisymmetric(x, y);
    }
    SortForgetsOrder(TextLeq, a, b);
  }

  /** The order depends on which nodes and edges there are, not on how they are listed. */
  lemma OrderIgnoresListing(d: Document, d': Document)
    requires SameGraph(d, d') && d.UniqueIds()
    ensures Order(d) == Order(d')
  {
    RootsSame(d, d');
    KahnSame(d, d', [], Roots(d));
  }

  // ---- The counting loop ----

  ghost function Waiting(d: Document, done: set<string>, t: string): Edge -> bool {
    (e: Edge) => e.dst.node == t && e.src.node in d.Ids() && e.src.node !in done
  }

  /** What `indegree[t]` counts once the nodes in done are finished. */
  ghost function Pending(d: Document, es: seq<Edge>, done: set<string>, t: string): nat {
    |Filter(Waiting(d, done, t), es)|
  }

  function CountInto(es: seq<Edge>, t: string): nat {
    if es == [] then 0 else (if es[0].dst.node == t then 1 else 0) + CountInto(es[1..], t)
  }

  lemma {:induction false} CountIsFilter(es: seq<Edge>, t: string)
    ensures CountInto(es, t) == |Filter(IntoNode(t), es)|
  {
    if es != [] { CountIsFilter(es[1..], t); }
  }

  lemma PendingZero(d: Document, done: set<string>, t: string)
    ensures Pending(d, d.edges, done, t) == 0 <==> Ready(d, done, t)
  {
    var fs := Filter(Waiting(d, done, t), d.edges);
    FilterMembers(Waiting(d, done, t), d.edges);
    if |fs| > 0 { assert fs[0] in fs; }
    if !Ready(d, done, t) {
      var e :| e in d.edges && e.dst.node == t && e.src.node in d.Ids() && e.src.node !in done;
      assert e in fs;
    }
  }

  lemma CountHead(e: Edge, es: seq<Edge>, t: string)
    ensures CountInto([e] + es, t) == (if e.dst.node == t then 1 else 0) + CountInto(es, t)
  {
    assert ([e] + es)[1..] == es;
  }

  lemma ReleasedHead(d: Document, done: set<string>, e: Edge, es: seq<Edge>)
    ensures Released(d, done, [e] + es) ==
            (if e.dst.node in d.Ids() && LastInto(es, e.dst.node) && Ready(d, done, e.dst.node)
             then [e.dst.node] else []) + Released(d, done, es)
  {
    assert ([e] + es)[1..] == es;
  }

  lemma CountZero(es: seq<Edge>, t: string)
    ensures CountInto(es, t) == 0 <==> LastInto(es, t)
  {
    var fs := Filter(IntoNode(t), es);
    FilterMembers(IntoNode(t), es);
    CountIsFilter(es, t);
    if |fs| > 0 { assert fs[0] in fs; }
    if !LastInto(es, t) {
      var e :| e in es && e.dst.node == t;
      assert e in fs;
    }
  }

  lemma {:induction false} PendingSplits(d: Document, es: seq<Edge>, done: set<string>, v: string, t: string)
    requires v in d.Ids() && v !in done
    ensures Pending(d, es, done, t) == Pending(d, es, done + {v}, t) + CountInto(Filter(FromNode(v), es), t)
  {
    if es != [] {
      PendingSplits(d, es[1..], done, v, t);
      var e := es[0];
      if e.src.node == v {
        assert Filter(FromNode(v), es) == [e] + Filter(FromNode(v), es[1..]);
        CountHead(e, Filter(FromNode(v), es[1..]), t);
      } else {
        assert Filter(FromNode(v), es) == Filter(FromNode(v), es[1..]);
      }
    }
  }

  /** Popping v: what every node waited for splits into v's sorted edges and the rest. */
  lemma PopCounts(d: Document, done: set<string>, v: string, t: string)
    requires v in d.Ids() && v !in done
    ensures Pending(d, d.edges, done, t)
            == Pending(d, d.edges, done + {v}, t) + CountInto(SortedOutgoing(d, v), t)
  {
    PendingSplits(d, d.edges, done, v, t);
    SortedOutgoingMembers(d, v);
    FilterPermutes(IntoNode(t), SortedOutgoing(d, v), Outgoing(d, v));
    CountIsFilter(SortedOutgoing(d, v), t);
    CountIsFilter(Outgoing(d, v), t);
    var a, b := Filter(IntoNode(t), SortedOutgoing(d, v)), Filter(IntoNode(t), Outgoing(d, v));
    assert |a| == |multiset(a)| == |multiset(b)| == |b|;
  }

  /** The first loop of `topological_order`. */
  method CountIndegrees(d: Document) returns (indegree: map<string, int>)
    ensures indegree.Keys == d.Ids()
    ensures forall t :: t in d.Ids() ==> indegree[t] == Pending(d, d.edges, {}, t)
  {
    var ids := d.Ids();
    indegree := map id | id in ids :: 0;
    for i := 0 to |d.edges|
      invariant indegree.Keys == ids
      invariant forall t :: t in ids ==> indegree[t] == Pending(d, d.edges[..i], {}, t)
    {
      var e := d.edges[i];
      forall t ensures Pending(d, d.edges[..i + 1], {}, t)
                       == Pending(d, d.edges[..i], {}, t) + (if Waiting(d, {}, t)(e) then 1 else 0) {
        FilterSplitsAt(Waiting(d, {}, t), d.edges, i);
      }
      if e.src.node in ids && e.dst.node in ids {
        indegree := indegree[e.dst.node := indegree[e.dst.node] + 1];
      }
    }
    assert d.edges[..|d.edges|] == d.edges;
  }

  /** The counters once all but the edges es of the current node are subtracted. */
  ghost predicate Counted(counts: map<string, int>, rest: map<string, int>, es: seq<Edge>) {
    counts.Keys == rest.Keys && forall t {:trigger CountInto(es, t)} :: t in rest ==> counts[t] == rest[t] + CountInto(es, t)
  }

  lemma CountedEnd(counts: map<string, int>, rest: map<string, int>)
    requires Counted(counts, rest, [])
    ensures counts == rest
  {
    forall t | t in rest ensures counts[t] == rest[t] { assert CountInto([], t) == 0; }
  }

  lemma CountedStep(counts: map<string, int>, rest: map<string, int>, es: seq<Edge>, i: nat)
    requires i < |es| && Counted(counts, rest, es[i..]) && es[i].dst.node in rest
    ensures var t := es[i].dst.node; Counted(counts[t := counts[t] - 1], rest, es[i + 1..])
  {
    assert es[i..] == [es[i]] + es[i + 1..];
    forall u | u in rest
      ensures CountInto(es[i..], u) == (if es[i].dst.node == u then 1 else 0) + CountInto(es[i + 1..], u)
    {
      CountHead(es[i], es[i + 1..], u);
    }
  }

  lemma ReleaseStep(d: Document, done: set<string>, es: seq<Edge>, i: nat, released: seq<string>, hit: bool,
                    goal: seq<string>)
    requires i < |es| && es[i].dst.node in d.Ids()
    requires hit <==> CountInto(es[i + 1..], es[i].dst.node) == 0 && Ready(d, done, es[i].dst.node)
    requires released + Released(d, done, es[i..]) == goal
    ensures hit ==> released + [es[i].dst.node] + Released(d, done, es[i + 1..]) == goal
    ensures !hit ==> released + Released(d, done, es[i + 1..]) == goal
  {
    assert es[i..] == [es[i]] + es[i + 1..];
    CountZero(es[i + 1..], es[i].dst.node);
    ReleasedHead(d, done, es[i], es[i + 1..]);
  }

  lemma CountedAt(counts: map<string, int>, rest: map<string, int>, es: seq<Edge>, i: nat)
    requires i < |es| && Counted(counts, rest, es[i..]) && es[i].dst.node in rest
    ensures counts[es[i].dst.node] - 1 == rest[es[i].dst.node] + CountInto(es[i + 1..], es[i].dst.node)
  {
    assert es[i..] == [es[i]] + es[i + 1..];
    CountHead(es[i], es[i + 1..], es[i].dst.node);
  }

  /** What the counters come down to tells which nodes are ready. */
  ghost predicate Settles(d: Document, done: set<string>, rest: map<string, int>) {
    && d.Ids() == rest.Keys
    && forall t {:trigger rest[t]} :: t in rest ==> 0 <= rest[t] && (rest[t] == 0 <==> Ready(d, done, t))
  }

  /** Where the loop over the edges of a finished node stands after i of them. */
  ghost predicate Releasing(d: Document, done: set<string>, es: seq<Edge>, i: nat, rest: map<string, int>,
                            counts: map<string, int>, released: seq<string>)
    requires i <= |es|
  {
    Counted(counts, rest, es[i..]) && released + Released(d, done, es[i..]) == Released(d, done, es)
  }

  lemma ReleasingStarts(d: Document, done: set<string>, es: seq<Edge>, rest: map<string, int>, counts: map<string, int>)
    requires Counted(counts, rest, es)
    ensures Releasing(d, done, es, 0, rest, counts, [])
  {
    assert es[0..] == es;
  }

  /** Counting down the i-th edge. */
  lemma CountDown(d: Document, done: set<string>, es: seq<Edge>, i: nat, rest: map<string, int>, counts: map<string, int>,
                  released: seq<string>)
    requires i < |es| && es[i].dst.node in rest && Settles(d, done, rest)
    requires Releasing(d, done, es, i, rest, counts, released)
    ensures es[i].dst.node in counts
    ensures var t := es[i].dst.node;
            Releasing(d, done, es, i + 1, rest, counts[t := counts[t] - 1], if counts[t] == 1 then released + [t] else released)
  {
    var t := es[i].dst.node;
    CountedAt(counts, rest, es, i);
    CountedStep(counts, rest, es, i);
    ReleaseStep(d, done, es, i, released, counts[t] - 1 == 0, Released(d, done, es));
  }

  lemma ReleasingEnds(d: Document, done: set<string>, es: seq<Edge>, rest: map<string, int>, counts: map<string, int>,
                      released: seq<string>)
    requires Releasing(d, done, es, |es|, rest, counts, released)
    ensures counts == rest && released == Released(d, done, es)
  {
    assert es[|es|..] == [];
    CountedEnd(counts, rest);
  }

  /** The counters are those of the known nodes, and the targets so far are known. */
  ghost predicate TargetsKnown(es: seq<Edge>, i: nat, rest: map<string, int>, counts: map<string, int>)
    requires i <= |es|
  {
    counts.Keys == rest.Keys && forall k :: 0 <= k < i ==> es[k].dst.node in rest
  }

  /** The inner loop: walk the sorted outgoing edges of the node just finished. rest is what the
      counters come down to once these edges are subtracted. */
  method ReleaseTargets(d: Document, ghost done: set<string>, es: seq<Edge>,
                        indegree: map<string, int>, ghost rest: map<string, int>)
    returns (r: Result<map<string, int>, string>, released: seq<string>)
    requires Counted(indegree, rest, es) && Settles(d, done, rest)
    ensures r.Failure? <==> exists e :: e in es && e.dst.node !in rest
    ensures r.Success? ==> released == Released(d, done, es) && r.value == rest
  {
    var counts := indegree;
    released := [];
    ReleasingStarts(d, done, es, rest, indegree);
    for i := 0 to |es|
      invariant TargetsKnown(es, i, rest, counts) && Releasing(d, done, es, i, rest, counts, released)
    {
      var t := es[i].dst.node;
      assert es[i] in es;
      if t !in counts { return Failure(t), released; }
      CountDown(d, done, es, i, rest, counts, released);
      var left := counts[t] - 1;
      counts := counts[t := left];
      if left == 0 { released := released + [t]; }
    }
    ReleasingEnds(d, done, es, rest, counts, released);
    r := Success(counts);
  }

  lemma PopAllCounts(d: Document, done: set<string>, v: string)
    requires v in d.Ids() && v !in done
    ensures forall t :: Pending(d, d.edges, done, t)
                        == Pending(d, d.edges, done + {v}, t) + CountInto(SortedOutgoing(d, v), t)
    ensures forall t :: Pending(d, d.edges, done + {v}, t) == 0 <==> Ready(d, done + {v}, t)
  {
    forall t ensures Pending(d, d.edges, done, t)
                     == Pending(d, d.edges, done + {v}, t) + CountInto(SortedOutgoing(d, v), t) {
      PopCounts(d, done, v, t);
    }
    forall t ensures Pending(d, d.edges, done + {v}, t) == 0 <==> Ready(d, done + {v}, t) {
      PendingZero(d, done + {v}, t);
    }
  }

  lemma PopCounters(d: Document, done: seq<string>, v: string, indegree: map<string, int>)
    returns (rest: map<string, int>)
    requires v in d.Ids() && v !in done && indegree.Keys == d.Ids()
    requires forall t :: t in d.Ids() ==> indegree[t] == Pending(d, d.edges, Members(done), t)
    ensures rest.Keys == d.Ids()
    ensures forall t :: t in d.Ids() ==> rest[t] == Pending(d, d.edges, Members(done + [v]), t)
    ensures Counted(indegree, rest, SortedOutgoing(d, v)) && Settles(d, Members(done + [v]), rest)
  {
    var done' := Members(done + [v]);
    assert done' == Members(done) + {v};
    rest := map t | t in d.Ids() :: Pending(d, d.edges, done', t);
    PopAllCounts(d, Members(done), v);
  }

  /** `topological_order`, with its counters and queue. The only failure is the KeyError raised by
      an edge from an ordered node to a node that does not exist. */
  method TopologicalOrder(d: Document) returns (r: Result<seq<string>, string>)
    requires d.UniqueIds()
    ensures r.Success? ==> r.value == Order(d)
    ensures r.Failure? <==> exists e :: e in d.edges && e.src.node in Order(d) && e.dst.node !in d.Ids()
  {
    var indegree := CountIndegrees(d);
    var zero := (id: string) => id in indegree && indegree[id] == 0;
    RootsByCount(d, indegree, zero);
    var queue := Sort(TextLeq, Filter(zero, IdList(d.nodes)));
    var order: seq<string> := [];
    KahnStarts(d);
    assert Members(order) == {};
    while queue != []
      invariant KahnInvariant(d, order, queue)
      invariant Kahn(d, order, queue) == Order(d)
      invariant indegree.Keys == d.Ids()
      invariant forall t :: t in d.Ids() ==> indegree[t] == Pending(d, d.edges, Members(order), t)
      invariant forall e :: e in d.edges && e.src.node in order ==> e.dst.node in d.Ids()
      decreases |d.nodes| - |order|
    {
      QueueFits(d, order, queue);
      KahnKeeps(d, order, queue);
      var v := queue[0];
      SortedOutgoingMembers(d, v);
      KahnStepKeeps(d, order, queue, SortedOutgoing(d, v));
      var before := order;
      order := order + [v];
      ghost var rest := PopCounters(d, before, v, indegree);
      var step, released := ReleaseTargets(d, Members(order), SortedOutgoing(d, v), indegree, rest);
      if step.Failure? {
        r := Failure(step.error);
        return;
      }
      indegree := step.value;
      queue := queue[1..] + released;
    }
    r := Success(order);
  }

  lemma RootsByCount(d: Document, indegree: map<string, int>, zero: string -> bool)
    requires indegree.Keys == d.Ids()
    requires forall t :: t in d.Ids() ==> indegree[t] == Pending(d, d.edges, {}, t)
    requires forall id :: zero(id) <==> id in indegree && indegree[id] == 0
    ensures Sort(TextLeq, Filter(zero, IdList(d.nodes))) == Roots(d)
  {
    forall id | id in d.Ids() ensures zero(id) <==> IsRoot(d)(id) { PendingZero(d, {}, id); }
    IdListIsIds(d);
    FilterAgrees(zero, IsRoot(d), IdList(d.nodes));
  }

  lemma {:induction false} FilterAgrees<T>(p: T -> bool, q: T -> bool, s: seq<T>)
    requires forall x :: x in s ==> p(x) == q(x)
    ensures Filter(p, s) == Filter(q, s)
  {
    if s != [] {
      assert s == [s[0]] + s[1..];
      FilterAgrees(p, q, s[1..]);
    }
  }
}
