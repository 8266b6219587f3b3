/** Reachability in a finite relation, and the two facts that make Kahn's algorithm exact:
    an ordering keeps every walk going forward, and a non-empty set of nodes that all have
    a predecessor in the set is fed by a cycle. */
module Digraph {
  import opened Sorting

  type Relation = set<(string, string)>

  /** A walk of one or more steps. */
  ghost predicate Walk(rel: Relation, w: seq<string>) {
    |w| >= 2 && forall i :: 0 <= i < |w| - 1 ==> (w[i], w[i + 1]) in rel
  }

  ghost predicate Reaches(rel: Relation, a: string, b: string) {
    exists w :: Walk(rel, w) && w[0] == a && w[|w| - 1] == b
  }

  ghost predicate OnCycle(rel: Relation, a: string) { Reaches(rel, a, a) }

  ghost predicate Acyclic(rel: Relation) {
    forall a :: !OnCycle(rel, a)
  }

  /** a is b or leads to it. */
  ghost predicate Feeds(rel: Relation, a: string, b: string) { a == b || Reaches(rel, a, b) }

  lemma StepReaches(rel: Relation, a: string, b: string)
    requires (a, b) in rel
    ensures Reaches(rel, a, b)
  {
    var w := [a, b];
    assert Walk(rel, w);
  }

  lemma ReachesTransitive(rel: Relation, a: string, b: string, c: string)
    requires Reaches(rel, a, b) && Reaches(rel, b, c)
    ensures Reaches(rel, a, c)
  {
    var v :| Walk(rel, v) && v[0] == a && v[|v| - 1] == b;
    var w :| Walk(rel, w) && w[0] == b && w[|w| - 1] == c;
    var u := v + w[1..];
    forall i | 0 <= i < |u| - 1 ensures (u[i], u[i + 1]) in rel {
      if i < |v| - 1 {
        assert u[i] == v[i] && u[i + 1] == v[i + 1];
      } else {
        assert u[i] == w[i - (|v| - 1)] && u[i + 1] == w[i + 1 - (|v| - 1)];
      }
    }
    assert Walk(rel, u);
  }

  lemma ReachesThenStep(rel: Relation, a: string, b: string, c: string)
    requires Feeds(rel, a, b) && (b, c) in rel
    ensures Reaches(rel, a, c)
  {
    StepReaches(rel, b, c);
    if a != b { ReachesTransitive(rel, a, b, c); }
  }

  lemma StepThenReaches(rel: Relation, a: string, b: string, c: string)
    requires (a, b) in rel && Feeds(rel, b, c)
    ensures Reaches(rel, a, c)
  {
    StepReaches(rel, a, b);
    if b != c { ReachesTransitive(rel, a, b, c); }
  }

  lemma WalksInLarger(a: Relation, b: Relation, u: string, v: string)
    requires a <= b && Reaches(a, u, v)
    ensures Reaches(b, u, v)
  {
    var w :| Walk(a, w) && w[0] == u && w[|w| - 1] == v;
    assert Walk(b, w);
  }

  /** Every walk starts and ends with a step of the relation. */
  lemma ReachesEnds(rel: Relation, a: string, b: string) returns (first: string, last: string)
    requires Reaches(rel, a, b)
    ensures (a, first) in rel && Feeds(rel, first, b)
    ensures (last, b) in rel && Feeds(rel, a, last)
  {
    var w :| Walk(rel, w) && w[0] == a && w[|w| - 1] == b;
    first, last := w[1], w[|w| - 2];
    assert (w[0], w[0 + 1]) in rel;
    assert (w[|w| - 2], w[|w| - 2 + 1]) in rel;
    if |w| > 2 {
      var t := w[1..];
      forall i | 0 <= i < |t| - 1 ensures (t[i], t[i + 1]) in rel {
        assert (w[i + 1], w[(i + 1) + 1]) in rel;
      }
      assert Walk(rel, t);
      var h := w[..|w| - 1];
      assert Walk(rel, h);
    }
  }

  /** A set that contains the sources of every step into it absorbs walks backwards. */
  lemma {:induction false} BackwardClosed(rel: Relation, s: set<string>, a: string, b: string)
    requires forall u, v :: (u, v) in rel && v in s ==> u in s
    requires Reaches(rel, a, b) && b in s
    ensures a in s
  {
    var w :| Walk(rel, w) && w[0] == a && w[|w| - 1] == b;
    var i := |w| - 1;
    while i > 0
      invariant 0 <= i < |w| && w[i] in s
    {
      assert (w[i - 1], w[i - 1 + 1]) in rel;
      i := i - 1;
    }
  }

  /** order lists nodes so that every step into a listed node comes from an earlier one. */
  ghost predicate Ordered(rel: Relation, order: seq<string>) {
    && Distinct(order)
    && forall u, i :: 0 <= i < |order| && (u, order[i]) in rel ==> u in order[..i]
  }

  lemma {:induction false} OrderedWalk(rel: Relation, order: seq<string>, w: seq<string>, j: nat)
    requires Ordered(rel, order) && Walk(rel, w) && j < |order| && w[|w| - 1] == order[j]
    ensures w[0] in order[..j]
    decreases |w|
  {
    var n := |w|;
    assert (w[n - 2], w[n - 2 + 1]) in rel;
    assert w[n - 2] in order[..j];
    if n > 2 {
      var k :| 0 <= k < j && order[k] == w[n - 2];
      var h := w[..n - 1];
      assert Walk(rel, h);
      OrderedWalk(rel, order, h, k);
    }
  }

  /** In an ordering, whatever leads to a node stands strictly before it. */
  lemma OrderedReaches(rel: Relation, order: seq<string>, a: string, j: nat)
    requires Ordered(rel, order) && j < |order| && Reaches(rel, a, order[j])
    ensures a in order[..j]
  {
    var w :| Walk(rel, w) && w[0] == a && w[|w| - 1] == order[j];
    OrderedWalk(rel, order, w, j);
  }

  /** Nothing that can be ordered lies on a cycle or behind one. */
  lemma OrderedAvoidsCycles(rel: Relation, order: seq<string>, c: string, n: string)
    requires Ordered(rel, order) && n in order && Feeds(rel, c, n)
    ensures !OnCycle(rel, c)
  {
    var j :| 0 <= j < |order| && order[j] == n;
    if c != n { OrderedReaches(rel, order, c, j); }
    var k :| 0 <= k < |order| && order[k] == c;
    if OnCycle(rel, c) {
      OrderedReaches(rel, order, c, k);
      assert false;
    }
  }

  ghost predicate FedFrom(rel: Relation, s: set<string>, v: string) {
    exists u :: u in s && (u, v) in rel
  }

  /** w is a walk (possibly of no steps) inside s without repeats. */
  ghost predicate Trail(rel: Relation, s: set<string>, w: seq<string>) {
    && |w| >= 1 && Distinct(w)
    && (forall x :: x in w ==> x in s)
    && forall i :: 0 <= i < |w| - 1 ==> (w[i], w[i + 1]) in rel
  }

  lemma {:induction false} TrailMeetsCycle(rel: Relation, s: set<string>, w: seq<string>) returns (c: string)
    requires forall v {:trigger FedFrom(rel, s, v)} :: v in s ==> FedFrom(rel, s, v)
    requires Trail(rel, s, w)
    ensures c in s && OnCycle(rel, c) && Feeds(rel, c, w[|w| - 1])
    decreases |s| - |w|
  {
    DistinctWithin(w, s);
    assert w[0] in s && FedFrom(rel, s, w[0]);
    var u :| u in s && (u, w[0]) in rel;
    var t := [u] + w;
    forall i | 0 <= i < |t| - 1 ensures (t[i], t[i + 1]) in rel {
      if i > 0 { assert t[i] == w[i - 1] && t[i + 1] == w[(i - 1) + 1]; }
    }
    assert Walk(rel, t);
    if u in w {
      var k :| 0 <= k < |w| && w[k] == u;
      var loop := t[..k + 2];
      assert Walk(rel, loop);
      c := u;
      assert t[0] == u && t[|t| - 1] == w[|w| - 1];
    } else {
      c := TrailMeetsCycle(rel, s, t);
    }
  }

  /** Walking backwards inside a finite set for ever must close a cycle. */
  lemma FedByCycle(rel: Relation, s: set<string>, n: string) returns (c: string)
    requires forall v {:trigger FedFrom(rel, s, v)} :: v in s ==> FedFrom(rel, s, v)
    requires n in s
    ensures c in s && OnCycle(rel, c) && Feeds(rel, c, n)
  {
    c := TrailMeetsCycle(rel, s, [n]);
  }
}
