/** The bounded row trace (`execute_row_trace` in python/sdpstudio_core/debug.py): every node is interpreted on
    sample rows, in topological order, up to the traced node. */
module RowTrace {
  import opened Sorting
  import opened Digraph
  import opened Documents
  import opened Graph
  import opened Validation
  import opened Meaning

  /** The rows of all lists, one list after the other. */
  function Joined<R>(inputs: seq<seq<R>>): seq<R> {
    if inputs == [] then [] else inputs[0] + Joined(inputs[1..])
  }

  /** Interpreting an operator can fail with one of the four kinds of error that the trace reports, or with
      another one, which escapes. */
  datatype Fault = Reported | Escaping

  /** The interpreter of the supported operators on the rows of the inputs. */
  type Interpreter<!R> = (Kind, Config, seq<seq<R>>) -> Result<seq<R>, Fault>

  predicate Interpreted(kind: Kind) {
    || kind == Combine("join")
    || (kind.Transform? && kind.op in {"filter", "select", "derive", "rename", "cast", "union", "aggregate", "explode"})
  }

  /** Rows pass through these operators, but what they do to them is not known. */
  predicate Unsupported(kind: Kind) { !kind.Source? && !kind.IsDefinition() && !Interpreted(kind) }

  datatype TraceStep<R> = TraceStep(node: string, inputCount: nat, rows: seq<R>, known: bool)

  datatype Trace<R> =
    | Traced(rows: seq<R>, steps: seq<TraceStep<R>>, unsupported: seq<string>)
    | NodeNotFound
    | BadLimit
    | StepFailed(node: string, done: seq<TraceStep<R>>)
    | Raised(node: string, done: seq<TraceStep<R>>)
    | KeyError

  /** The first rows, at most limit of them. */
  function Bounded<R>(limit: nat, rows: seq<R>): (r: seq<R>)
    ensures r == rows[..if |rows| < limit then |rows| else limit]
  {
    if |rows| <= limit then rows else rows[..limit]
  }

  /** The sample rows: one list for every source, or a list per source. */
  datatype Samples<R> = Samples(rows: seq<R>, bySource: map<string, seq<R>>)

  function SampleOf<R>(samples: Samples<R>, id: string): seq<R> {
    if id in samples.bySource then samples.bySource[id] else samples.rows
  }

  /** `current.get(parent, bounded)`. */
  function RowsOf<R>(current: map<string, seq<R>>, default: seq<R>, id: string): seq<R> {
    if id in current then current[id] else default
  }

  /** The inputs of a node in the order in which the document lists its edges, whatever their ports. */
  function InputRows<R>(d: Document, current: map<string, seq<R>>, default: seq<R>, id: string): seq<seq<R>> {
    var es := Incoming(d, id);
    seq(|es|, i requires 0 <= i < |es| => RowsOf(current, default, es[i].src.node))
  }

  function TotalRows<R>(inputs: seq<seq<R>>): nat {
    if inputs == [] then 0 else TotalRows(inputs[..|inputs| - 1]) + |inputs[|inputs| - 1]|
  }

  /** The output of one node before it is cut to the limit; sample is what a source holds. */
  function RawOutput<R>(run: Interpreter<R>, n: Node, sample: seq<R>, inputs: seq<seq<R>>): Result<seq<R>, Fault> {
    if n.kind.Source? then Success(sample)
    else if Interpreted(n.kind) then run(n.kind, n.config, inputs)
    else Success(if inputs == [] then [] else inputs[0])
  }

  /** Whether a node or something upstream of it is unsupported. */
  ghost predicate Tainted(d: Document, id: string) {
    exists a :: a in d.Ids() && Unsupported(d.KindAt(a)) && Feeds(d.Arcs(), a, id)
  }

  /** A step says what its node does to the bounded outputs of its parents. */
  ghost predicate StepIs<R(!new)>(d: Document, run: Interpreter<R>, samples: Samples<R>, limit: nat,
                                  current: map<string, seq<R>>, step: TraceStep<R>) {
    && step.node in d.Ids()
    && var inputs := InputRows(d, current, Bounded(limit, samples.rows), step.node);
       var raw := RawOutput(run, d.At(step.node), Bounded(limit, SampleOf(samples, step.node)), inputs);
       && raw.Success? && step.rows == Bounded(limit, raw.value) && step.inputCount == TotalRows(inputs)
       && (step.known <==> !Tainted(d, step.node))
  }

  /** The outputs recorded by some steps. */
  ghost function Outputs<R>(steps: seq<TraceStep<R>>): map<string, seq<R>> {
    if steps == [] then map[] else Outputs(steps[..|steps| - 1])[steps[|steps| - 1].node := steps[|steps| - 1].rows]
  }

  /** The steps follow the order, and each is what its node does. */
  ghost predicate StepsAre<R(!new)>(d: Document, run: Interpreter<R>, samples: Samples<R>, limit: nat, steps: seq<TraceStep<R>>,
                                    current: map<string, seq<R>>) {
    && |steps| <= |Order(d)|
    && (forall i :: 0 <= i < |steps| ==> steps[i].node == Order(d)[i])
    && (forall i :: 0 <= i < |steps| ==> StepIs(d, run, samples, limit, current, steps[i]))
  }

  // ---- What a step says, spelled out ----

  /** The rows a node gets from the k-th edge into it: what its source put out, or the sample if the source is no
      node before it. */
  ghost predicate IsInput<R(!new)>(d: Document, samples: Samples<R>, limit: nat, current: map<string, seq<R>>, id: string, k: nat,
                                   rows: seq<R>)
    requires k < |Incoming(d, id)|
  {
    var u := Incoming(d, id)[k].src.node;
    if u in current then rows == current[u] else rows == samples.rows[..if |samples.rows| < limit then |samples.rows| else limit]
  }

  /** What a step holds: a source yields the first rows of its own sample; a dataset, a sink or an operator that is
      not interpreted passes its first input on, unchanged; an interpreted operator yields the first rows of its
      result. The rows of all inputs are counted, and the step is known unless something up to it is unsupported. */
  ghost predicate StepHolds<R(!new)>(d: Document, run: Interpreter<R>, samples: Samples<R>, limit: nat, current: map<string, seq<R>>,
                                     step: TraceStep<R>, inputs: seq<seq<R>>) {
    var id := step.node;
    && id in d.Ids() && |inputs| == |Incoming(d, id)|
    && (forall k :: 0 <= k < |inputs| ==> IsInput(d, samples, limit, current, id, k, inputs[k]))
    && step.inputCount == |Joined(inputs)|
    && (step.known <==> forall a :: a in d.Ids() && Feeds(d.Arcs(), a, id) ==> !Unsupported(d.KindAt(a)))
    && if d.KindAt(id).Source? then
         var sample := if id in samples.bySource then samples.bySource[id] else samples.rows;
         step.rows == sample[..if |sample| < limit then |sample| else limit]
       else if d.KindAt(id).IsDefinition() || Unsupported(d.KindAt(id)) then
         step.rows == if inputs == [] then [] else inputs[0]
       else
         var result := run(d.KindAt(id), d.At(id).config, inputs);
         result.Success? && step.rows == result.value[..if |result.value| < limit then |result.value| else limit]
  }

  ghost predicate StepExplained<R(!new)>(d: Document, run: Interpreter<R>, samples: Samples<R>, limit: nat, current: map<string, seq<R>>,
                                         step: TraceStep<R>) {
    exists inputs :: StepHolds(d, run, samples, limit, current, step, inputs)
  }

  lemma {:induction false} JoinedGrows<R>(inputs: seq<seq<R>>, rows: seq<R>)
    ensures Joined(inputs + [rows]) == Joined(inputs) + rows
  {
    if inputs == [] {
      assert [rows][1..] == [] && Joined([rows]) == rows + Joined([rows][1..]);
      assert inputs + [rows] == [rows];
    } else {
      assert (inputs + [rows])[1..] == inputs[1..] + [rows];
      JoinedGrows(inputs[1..], rows);
    }
  }

  lemma {:induction false} TotalIsJoined<R>(inputs: seq<seq<R>>)
    ensures TotalRows(inputs) == |Joined(inputs)|
  {
    if inputs != [] {
      SplitLast(inputs);
      TotalIsJoined(inputs[..|inputs| - 1]);
      JoinedGrows(inputs[..|inputs| - 1], inputs[|inputs| - 1]);
    }
  }

  /** Every output recorded by bounded steps is bounded. */
  lemma {:induction false} OutputsBounded<R(!new)>(d: Document, run: Interpreter<R>, samples: Samples<R>, limit: nat,
                                                   current: map<string, seq<R>>, steps: seq<TraceStep<R>>)
    requires forall i :: 0 <= i < |steps| ==> StepIs(d, run, samples, limit, current, steps[i])
    ensures forall u :: u in Outputs(steps) ==> |Outputs(steps)[u]| <= limit
  {
    if steps != [] {
      var before := steps[..|steps| - 1];
      forall i | 0 <= i < |before| ensures StepIs(d, run, samples, limit, current, before[i]) {
        assert before[i] == steps[i];
      }
      OutputsBounded(d, run, samples, limit, current, before);
    }
  }

  lemma StepSpelledOut<R(!new)>(d: Document, run: Interpreter<R>, samples: Samples<R>, limit: nat, current: map<string, seq<R>>,
                                step: TraceStep<R>)
    requires StepIs(d, run, samples, limit, current, step) && forall u :: u in current ==> |current[u]| <= limit
    ensures StepExplained(d, run, samples, limit, current, step)
  {
    var inputs := InputRows(d, current, Bounded(limit, samples.rows), step.node);
    TotalIsJoined(inputs);
    assert StepHolds(d, run, samples, limit, current, step, inputs);
  }

  /** Every step of a trace, spelled out. */
  lemma StepsSpelledOut<R(!new)>(d: Document, run: Interpreter<R>, samples: Samples<R>, limit: nat, steps: seq<TraceStep<R>>)
    requires StepsAre(d, run, samples, limit, steps, Outputs(steps))
    ensures forall i :: 0 <= i < |steps| ==> StepExplained(d, run, samples, limit, Outputs(steps), steps[i])
  {
    OutputsBounded(d, run, samples, limit, Outputs(steps), steps);
    forall i | 0 <= i < |steps| ensures StepExplained(d, run, samples, limit, Outputs(steps), steps[i]) {
      StepSpelledOut(d, run, samples, limit, Outputs(steps), steps[i]);
    }
  }

  // ---- The loop ----

  lemma {:induction false} OutputsMembers<R>(steps: seq<TraceStep<R>>)
    requires forall i, j :: 0 <= i < j < |steps| ==> steps[i].node != steps[j].node
    ensures forall i :: 0 <= i < |steps| ==> steps[i].node in Outputs(steps) && Outputs(steps)[steps[i].node] == steps[i].rows
    ensures forall id :: id in Outputs(steps) ==> exists i :: 0 <= i < |steps| && steps[i].node == id
  {
    if steps != [] { OutputsMembers(steps[..|steps| - 1]); }
  }

  /** Recording a later node does not change the inputs of an earlier one. */
  lemma InputsStay<R(!new)>(d: Document, i: nat, j: nat, current: map<string, seq<R>>, default: seq<R>, rows: seq<R>)
    requires d.UniqueIds() && j <= i < |Order(d)|
    ensures InputRows(d, current[Order(d)[i] := rows], default, Order(d)[j]) == InputRows(d, current, default, Order(d)[j])
  {
    OrderFacts(d);
    IncomingMembers(d, Order(d)[j]);
    var es := Incoming(d, Order(d)[j]);
    forall k | 0 <= k < |es| ensures es[k].src.node != Order(d)[i] {
      assert es[k] in es;
      if es[k].src.node in d.Ids() {
        ArcMembers(d, es[k].src.node, Order(d)[j]);
        assert es[k].src.node in Order(d)[..j];
      } else {
        assert Order(d)[i] in Order(d);
      }
    }
  }

  lemma TaintSpreads(d: Document, id: string)
    requires id in d.Ids()
    ensures Tainted(d, id) <==>
            || Unsupported(d.KindAt(id))
            || exists e :: e in d.edges && e.dst.node == id && e.src.node in d.Ids() && Tainted(d, e.src.node)
  {
    if Unsupported(d.KindAt(id)) { assert Feeds(d.Arcs(), id, id); }
    if e :| e in d.edges && e.dst.node == id && e.src.node in d.Ids() && Tainted(d, e.src.node) {
      var a :| a in d.Ids() && Unsupported(d.KindAt(a)) && Feeds(d.Arcs(), a, e.src.node);
      ArcMembers(d, e.src.node, id);
      ReachesThenStep(d.Arcs(), a, e.src.node, id);
    }
    if Tainted(d, id) && !Unsupported(d.KindAt(id)) {
      var a :| a in d.Ids() && Unsupported(d.KindAt(a)) && Feeds(d.Arcs(), a, id);
      var _, last := ReachesEnds(d.Arcs(), a, id);
      ArcMembers(d, last, id);
      var e :| e in d.edges && e.src.node == last && e.dst.node == id;
      assert Tainted(d, e.src.node);
    }
  }

  /** The status loop: a node is unknown when it is unsupported or a parent is unknown. */
  method AnyUnknown(d: Document, ghost done: seq<string>, unknown: set<string>, id: string) returns (any: bool)
    requires id in d.Ids() && forall u :: u in unknown <==> u in done && Tainted(d, u)
    requires forall e :: e in d.edges && e.dst.node == id && e.src.node in d.Ids() ==> e.src.node in done
    requires forall u :: u in done ==> u in d.Ids()
    ensures any || Unsupported(d.KindAt(id)) <==> Tainted(d, id)
  {
    var es := Incoming(d, id);
    any := false;
    for i := 0 to |es|
      invariant any <==> exists k :: 0 <= k < i && es[k].src.node in unknown
    {
      if es[i].src.node in unknown { any := true; }
    }
    if any {
      var k :| 0 <= k < |es| && es[k].src.node in unknown;
      assert es[k] in es;
    }
    UnknownParents(d, done, unknown, id);
  }

  lemma UnknownParents(d: Document, done: seq<string>, unknown: set<string>, id: string)
    requires id in d.Ids() && forall u :: u in unknown <==> u in done && Tainted(d, u)
    requires forall e :: e in d.edges && e.dst.node == id && e.src.node in d.Ids() ==> e.src.node in done
    requires forall u :: u in done ==> u in d.Ids()
    ensures (exists e :: e in Incoming(d, id) && e.src.node in unknown) || Unsupported(d.KindAt(id)) <==> Tainted(d, id)
  {
    IncomingMembers(d, id);
    TaintSpreads(d, id);
  }

  method CountRows<R>(inputs: seq<seq<R>>) returns (n: nat)
    ensures n == TotalRows(inputs)
  {
    n := 0;
    for i := 0 to |inputs|
      invariant n == TotalRows(inputs[..i])
    {
      assert inputs[..i + 1][..i] == inputs[..i];
      n := n + |inputs[i]|;
    }
    assert inputs[..|inputs|] == inputs;
  }

  lemma OutputsGrow<R>(steps: seq<TraceStep<R>>, step: TraceStep<R>)
    ensures Outputs(steps + [step]) == Outputs(steps)[step.node := step.rows]
  {
    assert (steps + [step])[..|steps|] == steps;
  }

  lemma StepStays<R(!new)>(d: Document, run: Interpreter<R>, samples: Samples<R>, limit: nat, current: map<string, seq<R>>,
                           current': map<string, seq<R>>, step: TraceStep<R>)
    requires StepIs(d, run, samples, limit, current, step)
    requires InputRows(d, current', Bounded(limit, samples.rows), step.node) == InputRows(d, current, Bounded(limit, samples.rows), step.node)
    ensures StepIs(d, run, samples, limit, current', step)
  {
  }

  lemma StepsGrow<R(!new)>(d: Document, run: Interpreter<R>, samples: Samples<R>, limit: nat, steps: seq<TraceStep<R>>,
                           current: map<string, seq<R>>, step: TraceStep<R>)
    requires d.UniqueIds() && StepsAre(d, run, samples, limit, steps, current) && |steps| < |Order(d)|
    requires step.node == Order(d)[|steps|] && StepIs(d, run, samples, limit, current, step)
    ensures StepsAre(d, run, samples, limit, steps + [step], current[step.node := step.rows])
  {
    var next := steps + [step];
    var current' := current[step.node := step.rows];
    forall j | 0 <= j < |next| ensures next[j].node == Order(d)[j] {}
    forall j | 0 <= j < |next| ensures StepIs(d, run, samples, limit, current', next[j]) {
      var one := if j < |steps| then steps[j] else step;
      assert one == next[j] && one.node == Order(d)[j];
      InputsStay(d, |steps|, j, current, Bounded(limit, samples.rows), step.rows);
      StepStays(d, run, samples, limit, current, current', one);
    }
  }

  /** The step of one node. */
  method InterpretNode<R(!new)>(d: Document, n: Node, run: Interpreter<R>, samples: Samples<R>, limit: nat,
                                current: map<string, seq<R>>, unknown: set<string>, ghost done: seq<string>)
    returns (r: Result<TraceStep<R>, Fault>)
    requires d.UniqueIds() && n.id in d.Ids() && d.At(n.id) == n
    requires forall u :: u in unknown <==> u in done && Tainted(d, u)
    requires forall e :: e in d.edges && e.dst.node == n.id && e.src.node in d.Ids() ==> e.src.node in done
    requires forall u :: u in done ==> u in d.Ids()
    ensures r.Success? ==> r.value.node == n.id && StepIs(d, run, samples, limit, current, r.value)
    ensures var raw := RawOutput(run, n, Bounded(limit, SampleOf(samples, n.id)),
                                 InputRows(d, current, Bounded(limit, samples.rows), n.id));
            (r.Failure? <==> raw.Failure?) && (r.Failure? ==> r.error == raw.error)
  {
    var inputs := InputRows(d, current, Bounded(limit, samples.rows), n.id);
    var any := AnyUnknown(d, done, unknown, n.id);
    var raw := RawOutput(run, n, Bounded(limit, SampleOf(samples, n.id)), inputs);
    if raw.Failure? { return Failure(raw.error); }
    var count := CountRows(inputs);
    r := Success(TraceStep(n.id, count, Bounded(limit, raw.value), !any && !Unsupported(n.kind)));
  }

  /** The steps end at the traced node, or cover the whole order when it cannot be ordered. */
  ghost predicate EndsAt<R>(d: Document, target: string, steps: seq<TraceStep<R>>) {
    if target in Order(d) then steps != [] && steps[|steps| - 1].node == target else |steps| == |Order(d)|
  }

  /** The nodes among ids recorded as unknown, and those recorded as unsupported. */
  ghost predicate Marked(d: Document, ids: seq<string>, unknown: set<string>, unsupported: seq<string>) {
    && (forall u :: u in unknown <==> u in ids && Tainted(d, u))
    && forall u :: u in unsupported <==> u in ids && u in d.Ids() && Unsupported(d.KindAt(u))
  }

  lemma MarkedGrows(d: Document, ids: seq<string>, id: string, unknown: set<string>, unsupported: seq<string>)
    requires Marked(d, ids, unknown, unsupported) && id in d.Ids()
    ensures Marked(d, ids + [id], if Tainted(d, id) then unknown + {id} else unknown,
                   if Unsupported(d.KindAt(id)) then unsupported + [id] else unsupported)
  {
  }

  /** What the trace has recorded after the first i nodes of the order. */
  ghost predicate TraceSoFar<R(!new)>(d: Document, run: Interpreter<R>, samples: Samples<R>, limit: nat, i: nat, steps: seq<TraceStep<R>>,
                                      current: map<string, seq<R>>, unknown: set<string>, unsupported: seq<string>)
    requires d.UniqueIds() && i <= |Order(d)|
  {
    && |steps| == i && StepsAre(d, run, samples, limit, steps, current) && current == Outputs(steps)
    && Marked(d, Order(d)[..i], unknown, unsupported)
  }

  lemma TraceGrows<R(!new)>(d: Document, run: Interpreter<R>, samples: Samples<R>, limit: nat, i: nat, steps: seq<TraceStep<R>>,
                            current: map<string, seq<R>>, unknown: set<string>, unsupported: seq<string>, step: TraceStep<R>)
    requires d.UniqueIds() && i < |Order(d)| && TraceSoFar(d, run, samples, limit, i, steps, current, unknown, unsupported)
    requires step.node == Order(d)[i] && StepIs(d, run, samples, limit, current, step)
    ensures TraceSoFar(d, run, samples, limit, i + 1, steps + [step], current[step.node := step.rows],
                       if step.known then unknown else unknown + {step.node},
                       if Unsupported(d.KindAt(step.node)) then unsupported + [step.node] else unsupported)
  {
    OrderStepReady(d, i);
    StepsGrow(d, run, samples, limit, steps, current, step);
    OutputsGrow(steps, step);
    MarkedGrows(d, Order(d)[..i], step.node, unknown, unsupported);
  }

  /** The node after the steps fails. */
  ghost predicate FailsAt<R(!new)>(d: Document, run: Interpreter<R>, samples: Samples<R>, limit: nat, done: seq<TraceStep<R>>,
                                   id: string, fault: Fault)
    requires d.UniqueIds()
  {
    && StepsAre(d, run, samples, limit, done, Outputs(done))
    && |done| < |Order(d)| && id == Order(d)[|done|] && id in d.Ids()
    && RawOutput(run, d.At(id), Bounded(limit, SampleOf(samples, id)),
                 InputRows(d, Outputs(done), Bounded(limit, samples.rows), id)) == Failure(fault)
  }

  /** The loop over the order, up to the traced node. */
  method TraceNodes<R(!new)>(d: Document, order: seq<string>, target: string, samples: Samples<R>, limit: nat, run: Interpreter<R>)
    returns (r: Trace<R>)
    requires d.UniqueIds() && order == Order(d)
    ensures r.Traced? || r.StepFailed? || r.Raised?
    ensures r.Traced? ==>
              && StepsAre(d, run, samples, limit, r.steps, Outputs(r.steps)) && EndsAt(d, target, r.steps)
              && r.rows == RowsOf(Outputs(r.steps), [], target)
              && forall u :: u in r.unsupported <==> u in Order(d)[..|r.steps|] && u in d.Ids() && Unsupported(d.KindAt(u))
    ensures r.StepFailed? ==> FailsAt(d, run, samples, limit, r.done, r.node, Reported)
    ensures r.Raised? ==> FailsAt(d, run, samples, limit, r.done, r.node, Escaping)
  {
    var index := NodeMap(d.nodes);
    NodeMapIsAt(d);
    var current: map<string, seq<R>> := map[];
    var unknown: set<string> := {};
    var steps, unsupported := [], [];
    for i := 0 to |order|
      invariant TraceSoFar(d, run, samples, limit, i, steps, current, unknown, unsupported)
      invariant target !in order[..i]
    {
      var id := order[i];
      OrderStepReady(d, i);
      assert d.Has(id, d.At(id));
      var step := InterpretNode(d, index[id], run, samples, limit, current, unknown, order[..i]);
      if step.Failure? { return if step.error.Reported? then StepFailed(id, steps) else Raised(id, steps); }
      TraceGrows(d, run, samples, limit, i, steps, current, unknown, unsupported, step.value);
      if Unsupported(index[id].kind) { unsupported := unsupported + [id]; }
      if !step.value.known { unknown := unknown + {id}; }
      current := current[id := step.value.rows];
      steps := steps + [step.value];
      if id == target {
        return Traced(RowsOf(current, [], target), steps, unsupported);
      }
    }
    assert order[..|order|] == order;
    r := Traced(RowsOf(current, [], target), steps, unsupported);
  }

  /** `execute_row_trace`. The document is not validated first: the rows of a missing parent are the sample
      rows, and a node on or behind a cycle yields no rows. */
  method ExecuteRowTrace<R(!new)>(d: Document, target: string, samples: Samples<R>, limit: int, run: Interpreter<R>)
    returns (r: Trace<R>)
    requires d.UniqueIds()
    ensures r.NodeNotFound? <==> target !in d.Ids()
    ensures r.BadLimit? <==> target in d.Ids() && !(1 <= limit <= 200)
    ensures r.KeyError? <==>
            && target in d.Ids() && 1 <= limit <= 200
            && exists e :: e in d.edges && e.src.node in Order(d) && e.dst.node !in d.Ids()
    ensures r.Traced? ==>
              && 1 <= limit && StepsAre(d, run, samples, limit, r.steps, Outputs(r.steps)) && EndsAt(d, target, r.steps)
              && (forall i :: 0 <= i < |r.steps| ==> StepExplained(d, run, samples, limit, Outputs(r.steps), r.steps[i]))
              && r.rows == (if target in Order(d) then r.steps[|r.steps| - 1].rows else [])
              && forall u :: u in r.unsupported <==> u in Order(d)[..|r.steps|] && u in d.Ids() && Unsupported(d.KindAt(u))
    ensures r.StepFailed? ==> 1 <= limit && FailsAt(d, run, samples, limit, r.done, r.node, Reported)
    ensures r.Raised? ==> 1 <= limit && FailsAt(d, run, samples, limit, r.done, r.node, Escaping)
  {
    if target !in d.Ids() { return NodeNotFound; }
    if !(1 <= limit <= 200) { return BadLimit; }
    var order := TopologicalOrder(d);
    if order.Failure? { return KeyError; }
    r := TraceNodes(d, order.value, target, samples, limit, run);
    if r.Traced? {
      StepsSpelledOut(d, run, samples, limit, r.steps);
      TargetRows(d, run, samples, limit, target, r.steps);
    }
  }

  /** The rows of the traced node are those of its step. */
  lemma {:induction false} TargetRows<R(!new)>(d: Document, run: Interpreter<R>, samples: Samples<R>, limit: nat, target: string, steps: seq<TraceStep<R>>)
    requires d.UniqueIds() && StepsAre(d, run, samples, limit, steps, Outputs(steps)) && EndsAt(d, target, steps)
    ensures RowsOf(Outputs(steps), [], target) == if target in Order(d) then steps[|steps| - 1].rows else []
  {
    StepNodesDiffer(d, steps);
    OutputsMembers(steps);
    if target in Order(d) {
      assert steps[|steps| - 1].node == target;
    } else {
      forall i | 0 <= i < |steps| ensures steps[i].node != target { assert Order(d)[i] in Order(d); }
    }
  }

  lemma OrderStepReady(d: Document, i: nat)
    requires d.UniqueIds() && i < |Order(d)|
    ensures Order(d)[i] in d.Ids() && forall u :: u in Order(d)[..i] ==> u in d.Ids()
    ensures Order(d)[..i + 1] == Order(d)[..i] + [Order(d)[i]]
    ensures forall e :: e in d.edges && e.dst.node == Order(d)[i] && e.src.node in d.Ids() ==> e.src.node in Order(d)[..i]
  {
    OrderFacts(d);
    assert Order(d)[i] in Order(d);
    forall e | e in d.edges && e.dst.node == Order(d)[i] && e.src.node in d.Ids() ensures e.src.node in Order(d)[..i] {
      ArcMembers(d, e.src.node, Order(d)[i]);
    }
  }

  // ---- The trace refines unbounded evaluation ----

  /** full gives node u what its operator makes of all the rows of its inputs: a source its whole sample, a dataset
      or sink its first input, an interpreted operator its result; nothing is asked of an unsupported operator. */
  ghost predicate FullAt<R(!new)>(d: Document, run: Interpreter<R>, samples: Samples<R>, full: map<string, seq<R>>, u: string) {
    && u in d.Ids() && u in full
    && var inputs := InputRows(d, full, samples.rows, u);
       if d.KindAt(u).Source? then full[u] == if u in samples.bySource then samples.bySource[u] else samples.rows
       else if d.KindAt(u).IsDefinition() then full[u] == if inputs == [] then [] else inputs[0]
       else Unsupported(d.KindAt(u)) || run(d.KindAt(u), d.At(u).config, inputs) == Success(full[u])
  }

  /** Nothing upstream of id is cut, and full is its unbounded evaluation. */
  ghost predicate Untruncated<R(!new)>(d: Document, run: Interpreter<R>, samples: Samples<R>, full: map<string, seq<R>>,
                                       limit: nat, id: string) {
    && (d.Closed() || |samples.rows| <= limit)
    && (forall u :: u in full ==> u in d.Ids())
    && forall u :: u in d.Ids() && Feeds(d.Arcs(), u, id) ==> FullAt(d, run, samples, full, u) && |full[u]| <= limit
  }

  lemma UntruncatedParent<R(!new)>(d: Document, run: Interpreter<R>, samples: Samples<R>, full: map<string, seq<R>>,
                                   limit: nat, id: string, e: Edge)
    requires Untruncated(d, run, samples, full, limit, id) && !Tainted(d, id) && id in d.Ids()
    requires e in d.edges && e.dst.node == id && e.src.node in d.Ids()
    ensures Untruncated(d, run, samples, full, limit, e.src.node) && !Tainted(d, e.src.node)
  {
    ArcMembers(d, e.src.node, id);
    TaintSpreads(d, id);
    forall u | u in d.Ids() && Feeds(d.Arcs(), u, e.src.node)
      ensures FullAt(d, run, samples, full, u) && |full[u]| <= limit
    {
      ReachesThenStep(d.Arcs(), u, e.src.node, id);
    }
  }

  lemma StepNodesDiffer<R>(d: Document, steps: seq<TraceStep<R>>)
    requires d.UniqueIds() && |steps| <= |Order(d)| && forall i :: 0 <= i < |steps| ==> steps[i].node == Order(d)[i]
    ensures forall i, j :: 0 <= i < j < |steps| ==> steps[i].node != steps[j].node
    ensures forall i :: 0 <= i < |steps| ==> steps[i].node in Outputs(steps) && Outputs(steps)[steps[i].node] == steps[i].rows
    ensures forall id :: id in Outputs(steps) ==> id in d.Ids()
  {
    OrderFacts(d);
    OutputsMembers(steps);
    forall id | id in Outputs(steps) ensures id in d.Ids() {
      var i :| 0 <= i < |steps| && steps[i].node == id;
      assert Order(d)[i] in Order(d);
    }
  }

  /** When nothing upstream was cut and the step is known, its rows are those of the full evaluation. */
  lemma {:induction false} TraceRefines<R(!new)>(d: Document, run: Interpreter<R>, samples: Samples<R>, full: map<string, seq<R>>,
                                                 limit: nat, steps: seq<TraceStep<R>>, i: nat)
    requires d.UniqueIds() && StepsAre(d, run, samples, limit, steps, Outputs(steps)) && i < |steps| && steps[i].known
    requires Untruncated(d, run, samples, full, limit, steps[i].node)
    ensures steps[i].node in full && steps[i].rows == full[steps[i].node]
    decreases i
  {
    var id, current := steps[i].node, Outputs(steps);
    assert StepIs(d, run, samples, limit, current, steps[i]);
    assert Feeds(d.Arcs(), id, id) && FullAt(d, run, samples, full, id);
    TaintSpreads(d, id);
    IncomingMembers(d, id);
    var es := Incoming(d, id);
    forall k | 0 <= k < |es|
      ensures RowsOf(current, Bounded(limit, samples.rows), es[k].src.node) == RowsOf(full, samples.rows, es[k].src.node)
    {
      assert es[k] in es;
      ParentRefines(d, run, samples, full, limit, steps, i, es[k]);
    }
    SameInputRows(d, current, Bounded(limit, samples.rows), full, samples.rows, id);
    StepRefines(d, run, samples, full, limit, current, steps[i]);
  }

  lemma StepRefines<R(!new)>(d: Document, run: Interpreter<R>, samples: Samples<R>, full: map<string, seq<R>>, limit: nat,
                             current: map<string, seq<R>>, step: TraceStep<R>)
    requires StepIs(d, run, samples, limit, current, step) && FullAt(d, run, samples, full, step.node)
    requires |full[step.node]| <= limit && !Unsupported(d.KindAt(step.node))
    requires InputRows(d, current, Bounded(limit, samples.rows), step.node) == InputRows(d, full, samples.rows, step.node)
    ensures step.rows == full[step.node]
  {
  }

  lemma SameInputRows<R>(d: Document, one: map<string, seq<R>>, default: seq<R>, two: map<string, seq<R>>, default': seq<R>, id: string)
    requires forall k :: 0 <= k < |Incoming(d, id)| ==>
               RowsOf(one, default, Incoming(d, id)[k].src.node) == RowsOf(two, default', Incoming(d, id)[k].src.node)
    ensures InputRows(d, one, default, id) == InputRows(d, two, default', id)
  {
  }

  lemma {:induction false} ParentRefines<R(!new)>(d: Document, run: Interpreter<R>, samples: Samples<R>, full: map<string, seq<R>>,
                                                  limit: nat, steps: seq<TraceStep<R>>, i: nat, e: Edge)
    requires d.UniqueIds() && StepsAre(d, run, samples, limit, steps, Outputs(steps)) && i < |steps| && steps[i].known
    requires Untruncated(d, run, samples, full, limit, steps[i].node) && e in d.edges && e.dst.node == steps[i].node
    ensures RowsOf(Outputs(steps), Bounded(limit, samples.rows), e.src.node) == RowsOf(full, samples.rows, e.src.node)
    decreases i, 0
  {
    var id := steps[i].node;
    assert StepIs(d, run, samples, limit, Outputs(steps), steps[i]);
    StepNodesDiffer(d, steps);
    if e.src.node in d.Ids() {
      OrderStepReady(d, i);
      var j :| 0 <= j < i && Order(d)[j] == e.src.node;
      UntruncatedParent(d, run, samples, full, limit, id, e);
      assert StepIs(d, run, samples, limit, Outputs(steps), steps[j]);
      TraceRefines(d, run, samples, full, limit, steps, j);
    }
  }

  // ---- The sides of a join ----

  /** A join takes its first listed edge as its left side: its sides are the ports' exactly when the
      edge into "left" is listed first. */
  lemma JoinSidesFollowListing<R>(d: Document, id: string, current: map<string, seq<R>>, default: seq<R>)
    requires d.UniqueIds() && WellFormed(d) && id in d.Ids() && d.KindAt(id) == Combine("join")
    ensures Connected(d, id, Left) && Connected(d, id, Right) && Incoming(d, id) != []
    ensures var left := RowsOf(current, default, InEdge(d, id, Left).src.node);
            var right := RowsOf(current, default, InEdge(d, id, Right).src.node);
            InputRows(d, current, default, id) == if Incoming(d, id)[0].dst.port == Left then [left, right] else [right, left]
  {
    var n := d.At(id);
    assert d.Has(id, n);
    RequiredInput(d, n, Left);
    RequiredInput(d, n, Right);
    var l, r := InEdge(d, id, Left), InEdge(d, id, Right);
    var es := Incoming(d, id);
    IncomingMembers(d, id);
    forall e | e in es ensures e == l || e == r {
      EdgePorts(d, e);
      InEdgeIs(d, e);
    }
    EdgesDistinct(d);
    FilterDistinct(IntoNode(id), d.edges);
    TwoElements(es, l, r);
  }

  lemma TwoElements<T>(s: seq<T>, x: T, y: T)
    requires Distinct(s) && x != y && forall z :: z in s <==> z == x || z == y
    ensures s == [x, y] || s == [y, x]
  {
    DistinctCount(s);
    assert (set z | z in s) == {x, y};
    assert |s| == 2 && s[0] in s && s[1] in s && s[0] != s[1];
  }

  lemma EdgesDistinct(d: Document)
    requires d.UniqueIds()
    ensures Distinct(d.edges)
  {
  }
}
