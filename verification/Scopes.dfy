/** The part of the graph one definition or preview is built from: everything upstream, stopping at
    declared datasets (`_definition_scope`, `_preview_scope`). */
module Scopes {
  import opened Sorting
  import opened Digraph
  import opened Documents
  import opened Graph
  import opened Validation

  /** Arcs that the scope walks back along: a dataset's own inputs are not followed. */
  ghost function OpenArcs(d: Document): Relation {
    set a | a in d.Arcs() && !d.KindAt(a.1).Dataset? :: a
  }

  ghost predicate InScope(d: Document, starts: set<string>, id: string) {
    exists s :: s in starts && Feeds(OpenArcs(d), id, s)
  }

  /** The scope of some starting nodes. */
  ghost function Scope(d: Document, starts: set<string>): set<string> {
    set id | id in d.Ids() && InScope(d, starts, id)
  }

  ghost function Sources(d: Document, id: string): set<string> {
    set e | e in d.edges && e.dst.node == id :: e.src.node
  }

  /** `_definition_scope`: start from the inputs of the definition. */
  ghost function DefinitionScope(d: Document, id: string): set<string> { Scope(d, Sources(d, id)) }

  /** A scope holds its starts and the inputs of every member that is not a dataset. */
  lemma ScopeClosed(d: Document, starts: set<string>)
    requires d.Closed() && starts <= d.Ids()
    ensures starts <= Scope(d, starts) <= d.Ids()
    ensures forall e :: e in d.edges && e.dst.node in Scope(d, starts) && !d.KindAt(e.dst.node).Dataset?
              ==> e.src.node in Scope(d, starts)
  {
    forall s | s in starts ensures s in Scope(d, starts) { assert Feeds(OpenArcs(d), s, s); }
    forall e | e in d.edges && e.dst.node in Scope(d, starts) && !d.KindAt(e.dst.node).Dataset?
      ensures e.src.node in Scope(d, starts)
    {
      var s :| s in starts && Feeds(OpenArcs(d), e.dst.node, s);
      ArcMembers(d, e.src.node, e.dst.node);
      assert (e.src.node, e.dst.node) in OpenArcs(d);
      StepThenReaches(OpenArcs(d), e.src.node, e.dst.node, s);
    }
  }

  function SourceList(es: seq<Edge>): (r: seq<string>)
    ensures forall e :: e in es ==> e.src.node in r
    ensures forall s :: s in r ==> exists e :: e in es && e.src.node == s
  {
    if es == [] then [] else
      assert es == [es[0]] + es[1..];
      [es[0].src.node] + SourceList(es[1..])
  }

  /** Everything the seen nodes pull in has been seen or is waiting. */
  ghost predicate Expanded(d: Document, seen: set<string>, stack: seq<string>) {
    forall e :: e in d.edges && e.dst.node in seen && e.dst.node in d.Ids() && !d.KindAt(e.dst.node).Dataset?
      ==> e.src.node in seen || e.src.node in stack
  }

  lemma ExpandedIsScope(d: Document, starts: set<string>, seen: set<string>)
    requires d.Closed() && starts <= seen <= Scope(d, starts) && Expanded(d, seen, [])
    ensures seen == Scope(d, starts)
  {
    var rel := OpenArcs(d);
    forall u, v | (u, v) in rel && v in seen ensures u in seen { ArcMembers(d, u, v); }
    forall id | id in Scope(d, starts) ensures id in seen {
      var s :| s in starts && Feeds(rel, id, s);
      if id != s { BackwardClosed(rel, seen, id, s); }
    }
  }

  lemma ExpandStep(d: Document, seen: set<string>, stack: seq<string>, id: string, more: seq<string>)
    requires Expanded(d, seen, stack + [id])
    requires (id in d.Ids() && !d.KindAt(id).Dataset?) ==>
               forall e :: e in d.edges && e.dst.node == id ==> e.src.node in more
    ensures Expanded(d, seen + {id}, stack + more)
  {
  }

  lemma ExpandSkip(d: Document, seen: set<string>, stack: seq<string>, id: string)
    requires Expanded(d, seen, stack + [id]) && id in seen
    ensures Expanded(d, seen, stack)
  {
  }

  /** Absorbing sets: goal contains the inputs of each of its members that is not a dataset. */
  ghost predicate Absorbs(d: Document, goal: set<string>) {
    goal <= d.Ids() && Expanded(d, goal, [])
  }

  /** Where the worklist stands. */
  ghost predicate Collecting(d: Document, starts: seq<string>, goal: set<string>, seen: set<string>, stack: seq<string>) {
    && seen <= goal && (forall s :: s in stack ==> s in goal)
    && (forall s :: s in starts ==> s in seen || s in stack)
    && Expanded(d, seen, stack)
  }

  lemma CollectSkip(d: Document, starts: seq<string>, goal: set<string>, seen: set<string>, rest: seq<string>, id: string)
    requires Collecting(d, starts, goal, seen, rest + [id]) && id in seen
    ensures Collecting(d, starts, goal, seen, rest)
  {
    ExpandSkip(d, seen, rest, id);
  }

  lemma CollectStep(d: Document, starts: seq<string>, goal: set<string>, seen: set<string>, rest: seq<string>, id: string,
                    more: seq<string>)
    requires Collecting(d, starts, goal, seen, rest + [id]) && Absorbs(d, goal) && id in d.Ids()
    requires forall s :: s in more <==> !d.KindAt(id).Dataset? && s in Sources(d, id)
    ensures id in goal && Collecting(d, starts, goal, seen + {id}, rest + more)
  {
    assert id in rest + [id];
    ExpandStep(d, seen, rest, id, more);
    forall s | s in more ensures s in goal {
      var e :| e in d.edges && e.dst.node == id && e.src.node == s;
    }
  }

  /** What popping id pushes. */
  method Pushed(d: Document, index: map<string, Node>, id: string) returns (more: seq<string>)
    requires index.Keys == d.Ids() && (forall x :: x in index ==> index[x] == d.At(x)) && id in d.Ids()
    ensures forall s :: s in more <==> !d.KindAt(id).Dataset? && s in Sources(d, id)
  {
    IncomingMembers(d, id);
    more := if index[id].kind.Dataset? then [] else SourceList(Incoming(d, id));
  }

  /** The worklist loop of both scope functions: pop, skip what was seen, expand what is no dataset.
      Whatever absorbing set holds the starts holds the result. */
  method Collect(d: Document, starts: seq<string>, ghost goal: set<string>) returns (seen: set<string>)
    requires d.UniqueIds() && Absorbs(d, goal) && forall s :: s in starts ==> s in goal
    ensures Members(starts) <= seen <= goal && Expanded(d, seen, [])
  {
    var index := NodeMap(d.nodes);
    NodeMapIsAt(d);
    var stack := starts;
    seen := {};
    while stack != []
      invariant Collecting(d, starts, goal, seen, stack)
      decreases |goal - seen|, |stack|
    {
      var id, rest := stack[|stack| - 1], stack[..|stack| - 1];
      SplitLast(stack);
      assert id in goal;
      if id in seen {
        CollectSkip(d, starts, goal, seen, rest, id);
        stack := rest;
      } else {
        var more := Pushed(d, index, id);
        CollectStep(d, starts, goal, seen, rest, id, more);
        OneLess(goal, seen, id);
        seen, stack := seen + {id}, rest + more;
      }
    }
  }

  lemma OneLess(goal: set<string>, seen: set<string>, id: string)
    requires id in goal && id !in seen
    ensures |goal - (seen + {id})| < |goal - seen|
  {
    assert goal - (seen + {id}) == goal - seen - {id};
  }

  method CollectScope(d: Document, starts: seq<string>) returns (seen: set<string>)
    requires d.UniqueIds() && d.Closed() && forall s :: s in starts ==> s in d.Ids()
    ensures seen == Scope(d, Members(starts))
  {
    ScopeClosed(d, Members(starts));
    seen := Collect(d, starts, Scope(d, Members(starts)));
    ExpandedIsScope(d, Members(starts), seen);
  }
}
