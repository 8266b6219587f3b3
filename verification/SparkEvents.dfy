/** The event-log summaries (python/sdpstudio_core/debug.py): the bounded stream summary replays what it kept
    through the simple one. */
module SparkEvents {
  import opened Sorting
  import opened Documents

  /** The counters of a task as they are read from its event: one that is missing or null is 0. */
  datatype Logged = Logged(launch: int, finish: int, runTime: int, remoteRead: int, localRead: int, written: int,
                           input: int, output: int, memorySpilled: int, diskSpilled: int, cpuTime: int)

  datatype Event = Submitted(stage: int, name: string) | TaskEnd(stage: int, logged: Logged) | Unrelated

  /** What both summaries keep of a task. */
  datatype Task = Task(duration: int, runTime: int, read: int, written: int, input: int, output: int,
                       memorySpilled: int, diskSpilled: int, cpuTime: int)

  function AtLeastZero(x: int): int { if x < 0 then 0 else x }

  function Measure(m: Logged): Task {
    Task(AtLeastZero(m.finish - m.launch), m.runTime, m.remoteRead + m.localRead, m.written, m.input, m.output,
         m.memorySpilled, m.diskSpilled, m.cpuTime)
  }

  /** The event that stands for a kept task when it is replayed. */
  function Synthesize(t: Task): Logged {
    Logged(0, t.duration, t.runTime, t.read, 0, t.written, t.input, t.output, t.memorySpilled, t.diskSpilled, t.cpuTime)
  }

  /** Replaying a measured task measures the same again: its time, which is never negative, the shuffle bytes read
      from both sides, and every other counter. */
  lemma SynthesizeMeasured(m: Logged)
    ensures Measure(Synthesize(Measure(m))) == Measure(m)
    ensures Measure(m).duration == (if m.launch <= m.finish then m.finish - m.launch else 0)
    ensures Measure(m).read == m.remoteRead + m.localRead && Measure(m).written == m.written
    ensures Measure(m).input == m.input && Measure(m).output == m.output && Measure(m).runTime == m.runTime
    ensures Measure(m).memorySpilled == m.memorySpilled && Measure(m).diskSpilled == m.diskSpilled && Measure(m).cpuTime == m.cpuTime
  {
  }

  // ---- Reports ----

  /** The skew thresholds, and how the reported skew is rounded. */
  datatype Limits = Limits(moderate: real, severe: real, round: real -> real) {
    predicate Valid() { 1.0 <= moderate < severe }
  }

  datatype Verdict = Severe | Moderate | Balanced

  datatype Report = Report(stage: int, name: string, count: nat, median: real, longest: int, p95: int, skew: real,
                           totals: Task, schedulerDelay: int, verdict: Verdict)

  predicate IntLeq(a: int, b: int) { a <= b }

  function Durations(tasks: seq<Task>): seq<int> { seq(|tasks|, i requires 0 <= i < |tasks| => tasks[i].duration) }

  /** s is the durations of some tasks, in increasing order. */
  ghost predicate Arranges(s: seq<int>, tasks: seq<Task>) {
    multiset(s) == multiset(Durations(tasks)) && Sorted(IntLeq, s)
  }

  function SortedDurations(tasks: seq<Task>): (r: seq<int>)
    ensures |r| == |tasks| && Arranges(r, tasks)
  {
    IntPreorder();
    SortIsSorted(IntLeq, Durations(tasks));
    Sort(IntLeq, Durations(tasks))
  }

  lemma IntPreorder()
    ensures Preorder(IntLeq)
  {
  }

  function Median(sorted: seq<int>): real {
    if sorted == [] then 0.0
    else if |sorted| % 2 == 1 then sorted[|sorted| / 2] as real
    else (sorted[|sorted| / 2 - 1] + sorted[|sorted| / 2]) as real / 2.0
  }

  /** The index of the 95th percentile: ceil(0.95 n) - 1. */
  function P95Index(n: nat): nat
    requires n > 0
    ensures P95Index(n) < n
  {
    (95 * n + 99) / 100 - 1
  }

  const NOTHING := Task(0, 0, 0, 0, 0, 0, 0, 0, 0)

  function Plus(a: Task, b: Task): Task {
    Task(a.duration + b.duration, a.runTime + b.runTime, a.read + b.read, a.written + b.written, a.input + b.input,
         a.output + b.output, a.memorySpilled + b.memorySpilled, a.diskSpilled + b.diskSpilled, a.cpuTime + b.cpuTime)
  }

  function Totals(tasks: seq<Task>): Task {
    if tasks == [] then NOTHING else Plus(Totals(tasks[..|tasks| - 1]), tasks[|tasks| - 1])
  }

  function Delay(tasks: seq<Task>): int {
    if tasks == [] then 0
    else Delay(tasks[..|tasks| - 1]) + AtLeastZero(tasks[|tasks| - 1].duration - tasks[|tasks| - 1].runTime)
  }

  function ReportOf(limits: Limits, stage: int, name: string, tasks: seq<Task>): Report {
    var sorted := SortedDurations(tasks);
    var median := Median(sorted);
    var longest := if sorted == [] then 0 else sorted[|sorted| - 1];
    var skew := if median == 0.0 then 0.0 else limits.round(longest as real / median);
    Report(stage, name, |tasks|, median, longest, if sorted == [] then 0 else sorted[P95Index(|sorted|)], skew,
           Totals(tasks), Delay(tasks),
           if skew >= limits.severe then Severe else if skew >= limits.moderate then Moderate else Balanced)
  }

  function UpTo(x: int): int -> bool { (y: int) => y <= x }

  function Under(x: int): int -> bool { (y: int) => y < x }

  lemma {:induction false} AtLeastPrefix(p: int -> bool, s: seq<int>, k: nat)
    requires k <= |s| && forall i :: 0 <= i < k ==> p(s[i])
    ensures |Filter(p, s)| >= k
  {
    if k > 0 { AtLeastPrefix(p, s[1..], k - 1); }
  }

  lemma {:induction false} AtMostPrefix(p: int -> bool, s: seq<int>, k: nat)
    requires k <= |s| && forall i :: k <= i < |s| ==> !p(s[i])
    ensures |Filter(p, s)| <= k
  {
    if s != [] { AtMostPrefix(p, s[1..], if k == 0 then 0 else k - 1); }
  }

  lemma FilterCount(p: int -> bool, a: seq<int>, b: seq<int>)
    requires multiset(a) == multiset(b)
    ensures |Filter(p, a)| == |Filter(p, b)|
  {
    FilterPermutes(p, a, b);
    assert |Filter(p, a)| == |multiset(Filter(p, a))| == |multiset(Filter(p, b))| == |Filter(p, b)|;
  }

  /** The reported duration is the least one that at least 95 percent of the tasks do not exceed. */
  lemma P95Covers(limits: Limits, stage: int, name: string, tasks: seq<Task>)
    requires tasks != []
    ensures var p95 := ReportOf(limits, stage, name, tasks).p95;
            && p95 in Durations(tasks)
            && 100 * |Filter(UpTo(p95), Durations(tasks))| >= 95 * |tasks|
            && 100 * |Filter(Under(p95), Durations(tasks))| < 95 * |tasks|
  {
    var sorted, k := SortedDurations(tasks), P95Index(|tasks|);
    var p95 := sorted[k];
    assert p95 in multiset(sorted) && p95 in multiset(Durations(tasks));
    PlaceCounts(sorted, k);
    FilterCount(UpTo(p95), sorted, Durations(tasks));
    FilterCount(Under(p95), sorted, Durations(tasks));
  }

  /** How many values lie at or below, and how many below, the k-th of a sorted list. */
  lemma PlaceCounts(s: seq<int>, k: nat)
    requires Sorted(IntLeq, s) && k < |s|
    ensures |Filter(UpTo(s[k]), s)| >= k + 1 && |Filter(Under(s[k]), s)| <= k
  {
    forall i | 0 <= i < k + 1 ensures UpTo(s[k])(s[i]) { if i < k { assert IntLeq(s[i], s[k]); } }
    AtLeastPrefix(UpTo(s[k]), s, k + 1);
    forall i | k <= i < |s| ensures !Under(s[k])(s[i]) { if i > k { assert IntLeq(s[k], s[i]); } }
    AtMostPrefix(Under(s[k]), s, k);
  }

  /** The longest task and the median: the mean of the two middle durations, which coincide for odd counts. */
  lemma LongestAndMedian(limits: Limits, stage: int, name: string, tasks: seq<Task>, s: seq<int>)
    requires tasks != [] && Arranges(s, tasks)
    ensures |s| == |tasks|
    ensures var r := ReportOf(limits, stage, name, tasks);
            && r.longest in Durations(tasks) && (forall t :: t in tasks ==> t.duration <= r.longest)
            && 2.0 * r.median == (s[(|s| - 1) / 2] + s[|s| / 2]) as real
  {
    IntPreorder();
    SortedArrangementUnique(IntLeq, SortedDurations(tasks), s);
    LastIsLongest(tasks, s);
    MedianIsMiddle(s);
  }

  lemma LastIsLongest(tasks: seq<Task>, s: seq<int>)
    requires tasks != [] && Arranges(s, tasks)
    ensures |s| == |tasks| && s[|s| - 1] in Durations(tasks) && forall t :: t in tasks ==> t.duration <= s[|s| - 1]
  {
    assert |multiset(s)| == |multiset(Durations(tasks))|;
    var last := |s| - 1;
    assert s[last] in multiset(s) && s[last] in multiset(Durations(tasks));
    forall t | t in tasks ensures t.duration <= s[last] {
      var i :| 0 <= i < |tasks| && tasks[i] == t;
      assert Durations(tasks)[i] in multiset(Durations(tasks)) && Durations(tasks)[i] in multiset(s);
      var j :| 0 <= j < |s| && s[j] == t.duration;
      if j < last { assert IntLeq(s[j], s[last]); }
    }
  }

  lemma MedianIsMiddle(s: seq<int>)
    requires s != []
    ensures 2.0 * Median(s) == (s[(|s| - 1) / 2] + s[|s| / 2]) as real
  {
    if |s| % 2 == 1 { assert (|s| - 1) / 2 == |s| / 2; } else { assert (|s| - 1) / 2 == |s| / 2 - 1; }
  }

  /** The rest of a report: the skew compares the longest task with the median, and the verdict compares the skew
      with the thresholds. */
  lemma VerdictFollows(limits: Limits, stage: int, name: string, tasks: seq<Task>)
    requires limits.Valid()
    ensures var r := ReportOf(limits, stage, name, tasks);
            && r.stage == stage && r.name == name && r.count == |tasks|
            && (tasks == [] ==> r.longest == 0 && r.p95 == 0 && r.median == 0.0)
            && r.totals == Totals(tasks) && r.schedulerDelay == Delay(tasks)
            && r.skew == (if r.median == 0.0 then 0.0 else limits.round(r.longest as real / r.median))
            && (r.verdict.Severe? <==> r.skew >= limits.severe)
            && (r.verdict.Balanced? <==> r.skew < limits.moderate)
  {
    var r := ReportOf(limits, stage, name, tasks);
    assert r.verdict == if r.skew >= limits.severe then Severe else if r.skew >= limits.moderate then Moderate else Balanced;
  }

  lemma PlusAssociates(a: Task, b: Task, c: Task)
    ensures Plus(Plus(a, b), c) == Plus(a, Plus(b, c)) && Plus(a, NOTHING) == a && Plus(NOTHING, a) == a
  {
  }

  lemma LastOfBoth<T>(a: seq<T>, b: seq<T>)
    requires b != []
    ensures (a + b)[..|a + b| - 1] == a + b[..|b| - 1] && (a + b)[|a + b| - 1] == b[|b| - 1]
  {
  }

  /** Totals are additive. */
  lemma {:induction false} TotalsAdd(a: seq<Task>, b: seq<Task>)
    ensures Totals(a + b) == Plus(Totals(a), Totals(b))
  {
    if b == [] {
      assert a + b == a;
      PlusAssociates(Totals(a), NOTHING, NOTHING);
    } else {
      LastOfBoth(a, b);
      TotalsAdd(a, b[..|b| - 1]);
      PlusAssociates(Totals(a), Totals(b[..|b| - 1]), b[|b| - 1]);
    }
  }

  lemma {:induction false} DelayAdds(a: seq<Task>, b: seq<Task>)
    ensures Delay(a + b) == Delay(a) + Delay(b)
  {
    if b == [] {
      assert a + b == a;
    } else {
      LastOfBoth(a, b);
      DelayAdds(a, b[..|b| - 1]);
    }
  }

  /** The totals of one task are its own counters, and its delay the time it did not run. */
  lemma TotalsOfOne(t: Task)
    ensures Totals([t]) == t
    ensures Delay([t]) == if t.duration < t.runTime then 0 else t.duration - t.runTime
  {
    assert [t][..0] == [];
    assert Totals([t]) == Plus(Totals([t][..0]), t);
    assert Delay([t]) == Delay([t][..0]) + AtLeastZero(t.duration - t.runTime);
  }

  // ---- What a log says of a stage ----

  function TasksOf(events: seq<Event>, stage: int): seq<Task> {
    if events == [] then []
    else
      var e := events[|events| - 1];
      TasksOf(events[..|events| - 1], stage) + (if e.TaskEnd? && e.stage == stage then [Measure(e.logged)] else [])
  }

  /** The name last submitted for a stage. */
  function NameOf(events: seq<Event>, stage: int): Option<string> {
    if events == [] then None
    else
      var e := events[|events| - 1];
      if e.Submitted? && e.stage == stage then Some(e.name) else NameOf(events[..|events| - 1], stage)
  }

  function NameOrBlank(name: Option<string>): string { if name.Some? then name.value else "" }

  predicate Mentioned(events: seq<Event>, stage: int) { TasksOf(events, stage) != [] || NameOf(events, stage).Some? }

  ghost predicate Increasing(rs: seq<Report>) { forall i, j :: 0 <= i < j < |rs| ==> rs[i].stage < rs[j].stage }

  ghost predicate Reports(rs: seq<Report>, stage: int) { exists i :: 0 <= i < |rs| && rs[i].stage == stage }

  /** How a stage with a name and tasks is reported. */
  type Reporter = (int, string, seq<Task>) -> Report

  ghost predicate KeepsStage(report: Reporter) { forall s, name, tasks :: report(s, name, tasks).stage == s }

  function Reporting(limits: Limits): (report: Reporter)
    ensures KeepsStage(report)
  {
    (stage: int, name: string, tasks: seq<Task>) => ReportOf(limits, stage, name, tasks)
  }

  /** One report per mentioned stage, by stage number, over all its tasks. */
  ghost predicate SummaryBy(report: Reporter, events: seq<Event>, rs: seq<Report>) {
    && Increasing(rs) && (forall s :: Reports(rs, s) <==> Mentioned(events, s))
    && forall i :: 0 <= i < |rs| ==>
         rs[i] == report(rs[i].stage, NameOrBlank(NameOf(events, rs[i].stage)), TasksOf(events, rs[i].stage))
  }

  function LastOf<T>(cap: nat, s: seq<T>): seq<T> { if |s| <= cap then s else s[|s| - cap..] }

  /** One report per stage with a task, over its last cap tasks. */
  ghost predicate BoundedSummaryBy(report: Reporter, events: seq<Event>, cap: nat, rs: seq<Report>) {
    && Increasing(rs) && (forall s :: Reports(rs, s) <==> TasksOf(events, s) != [])
    && forall i :: 0 <= i < |rs| ==>
         rs[i] == report(rs[i].stage, NameOrBlank(NameOf(events, rs[i].stage)), LastOf(cap, TasksOf(events, rs[i].stage)))
  }

  /** A bounded report drops the first tasks of its stage and is over the others, at most the cap. */
  lemma BoundedReportCovers(report: Reporter, events: seq<Event>, cap: nat, rs: seq<Report>, i: nat) returns (dropped: seq<Task>, kept: seq<Task>)
    requires BoundedSummaryBy(report, events, cap, rs) && i < |rs|
    ensures TasksOf(events, rs[i].stage) == dropped + kept && |kept| <= cap && (dropped != [] ==> |kept| == cap)
    ensures rs[i] == report(rs[i].stage, NameOrBlank(NameOf(events, rs[i].stage)), kept)
  {
    var tasks := TasksOf(events, rs[i].stage);
    kept := LastOf(cap, tasks);
    dropped := tasks[..|tasks| - |kept|];
  }

  // ---- The simple summary ----

  /** The stages seen so far, in the order of their first event. */
  datatype Stages = Stages(order: seq<int>, tasks: map<int, seq<Task>>, names: map<int, string>)

  /** The table is right about one stage, of which exactly tasks are kept. */
  ghost predicate StageOk(st: Stages, s: int, listed: bool, tasks: seq<Task>, name: Option<string>) {
    && (s in st.order <==> listed) && (s in st.tasks <==> listed)
    && (listed ==> st.tasks[s] == tasks)
    && (if s in st.names then Some(st.names[s]) else None) == name
  }

  ghost predicate StageCollected(events: seq<Event>, st: Stages, s: int) {
    StageOk(st, s, Mentioned(events, s), TasksOf(events, s), NameOf(events, s))
  }

  ghost predicate Collected(events: seq<Event>, st: Stages) {
    Distinct(st.order) && forall s {:trigger StageCollected(events, st, s)} :: StageCollected(events, st, s)
  }

  function AddStage(st: Stages, stage: int): Stages {
    if stage in st.tasks then st else Stages(st.order + [stage], st.tasks[stage := []], st.names)
  }

  function AddEvent(st: Stages, e: Event): Stages {
    match e
    case Submitted(stage, name) =>
      var grown := AddStage(st, stage);
      grown.(names := grown.names[stage := name])
    case TaskEnd(stage, logged) =>
      var grown := AddStage(st, stage);
      if stage in grown.tasks then grown.(tasks := grown.tasks[stage := grown.tasks[stage] + [Measure(logged)]]) else grown
    case Unrelated => st
  }

  lemma OneMore(events: seq<Event>, e: Event, stage: int)
    ensures TasksOf(events + [e], stage) == TasksOf(events, stage)
            + (if e.TaskEnd? && e.stage == stage then [Measure(e.logged)] else [])
    ensures NameOf(events + [e], stage) == if e.Submitted? && e.stage == stage then Some(e.name) else NameOf(events, stage)
  {
    assert (events + [e])[..|events|] == events;
  }

  lemma AddStageOrder(st: Stages, stage: int)
    requires Distinct(st.order) && (stage in st.order <==> stage in st.tasks)
    ensures Distinct(AddStage(st, stage).order)
    ensures forall s :: s in AddStage(st, stage).order <==> s in st.order || s == stage
  {
  }

  lemma AddEventCollects(events: seq<Event>, st: Stages, e: Event)
    requires Collected(events, st)
    ensures Collected(events + [e], AddEvent(st, e))
  {
    if !e.Unrelated? {
      assert StageCollected(events, st, e.stage);
      AddStageOrder(st, e.stage);
    }
    forall s ensures StageCollected(events + [e], AddEvent(st, e), s) {
      assert StageCollected(events, st, s);
      OneMore(events, e, s);
    }
  }

  method CollectStages(events: seq<Event>) returns (st: Stages)
    ensures Collected(events, st)
  {
    st := Stages([], map[], map[]);
    for i := 0 to |events|
      invariant Collected(events[..i], st)
    {
      TakeGrows(events, i);
      AddEventCollects(events[..i], st, events[i]);
      st := AddEvent(st, events[i]);
    }
    assert events[..|events|] == events;
  }

  lemma SortedIdsIncrease(order: seq<int>)
    requires Distinct(order)
    ensures var ids := Sort(IntLeq, order);
            && (forall i, j :: 0 <= i < j < |ids| ==> ids[i] < ids[j]) && (forall x :: x in ids <==> x in order)
  {
    IntPreorder();
    SortIsSorted(IntLeq, order);
    var ids := Sort(IntLeq, order);
    forall i, j | 0 <= i < j < |ids| ensures ids[i] < ids[j] {
      TwoPlaces(ids, i, j);
      OnePlace(order, ids[i]);
    }
  }

  /** The reporting loop: stages by number. */
  method ReportStages(report: Reporter, st: Stages, ghost events: seq<Event>) returns (rs: seq<Report>)
    requires Collected(events, st) && KeepsStage(report)
    ensures SummaryBy(report, events, rs)
  {
    var ids := Sort(IntLeq, st.order);
    SortedIdsIncrease(st.order);
    rs := [];
    for i := 0 to |ids|
      invariant |rs| == i
      invariant forall k :: 0 <= k < i ==> rs[k] == report(ids[k], NameOrBlank(NameOf(events, ids[k])), TasksOf(events, ids[k]))
    {
      var id := ids[i];
      assert id in ids && StageCollected(events, st, id);
      rs := rs + [report(id, if id in st.names then st.names[id] else "", st.tasks[id])];
    }
    forall s ensures Reports(rs, s) <==> Mentioned(events, s) {
      assert StageCollected(events, st, s);
      if s in ids {
        var k :| 0 <= k < |ids| && ids[k] == s;
        assert rs[k].stage == s;
      }
    }
  }

  /** `summarize_spark_events`. */
  method Summarize(events: seq<Event>, limits: Limits) returns (r: Option<seq<Report>>)
    ensures r.None? <==> !limits.Valid()
    ensures r.Some? ==> SummaryBy(Reporting(limits), events, r.value)
  {
    if !limits.Valid() { return None; }
    var st := CollectStages(events);
    var rs := ReportStages(Reporting(limits), st, events);
    r := Some(rs);
  }

  // ---- The bounded summary ----

  /** Appending to a deque of bounded length drops the oldest task. */
  function Push(cap: nat, kept: seq<Task>, t: Task): seq<Task>
    requires cap > 0
  {
    if |kept| < cap then kept + [t] else kept[1..] + [t]
  }

  lemma PushKeepsLast(cap: nat, tasks: seq<Task>, t: Task)
    requires cap > 0
    ensures Push(cap, LastOf(cap, tasks), t) == LastOf(cap, tasks + [t])
  {
  }

  /** The last cap tasks of every stage that has one, in the order of their first task. */
  ghost predicate StageKept(events: seq<Event>, cap: nat, st: Stages, s: int) {
    StageOk(st, s, TasksOf(events, s) != [], LastOf(cap, TasksOf(events, s)), NameOf(events, s))
  }

  ghost predicate Kept(events: seq<Event>, cap: nat, st: Stages) {
    Distinct(st.order) && forall s {:trigger StageKept(events, cap, st, s)} :: StageKept(events, cap, st, s)
  }

  function KeepEvent(cap: nat, st: Stages, e: Event): Stages
    requires cap > 0
  {
    match e
    case Submitted(stage, name) => st.(names := st.names[stage := name])
    case TaskEnd(stage, logged) =>
      var grown := AddStage(st, stage);
      if stage in grown.tasks then grown.(tasks := grown.tasks[stage := Push(cap, grown.tasks[stage], Measure(logged))]) else grown
    case Unrelated => st
  }

  lemma KeepEventKeepsStage(events: seq<Event>, cap: nat, st: Stages, e: Event, s: int)
    requires cap > 0 && Kept(events, cap, st)
    ensures StageKept(events + [e], cap, KeepEvent(cap, st, e), s)
  {
    assert StageKept(events, cap, st, s);
    OneMore(events, e, s);
    if e.TaskEnd? {
      assert StageKept(events, cap, st, e.stage);
      AddStageOrder(st, e.stage);
      PushKeepsLast(cap, TasksOf(events, e.stage), Measure(e.logged));
    }
  }

  lemma KeepEventKeeps(events: seq<Event>, cap: nat, st: Stages, e: Event)
    requires cap > 0 && Kept(events, cap, st)
    ensures Kept(events + [e], cap, KeepEvent(cap, st, e))
  {
    if e.TaskEnd? {
      assert StageKept(events, cap, st, e.stage);
      AddStageOrder(st, e.stage);
    }
    forall s ensures StageKept(events + [e], cap, KeepEvent(cap, st, e), s) { KeepEventKeepsStage(events, cap, st, e, s); }
  }

  function TaskEvents(stage: int, tasks: seq<Task>): seq<Event> {
    seq(|tasks|, i requires 0 <= i < |tasks| => TaskEnd(stage, Synthesize(tasks[i])))
  }

  /** The events replayed for a stage. */
  function Block(st: Stages, stage: int): seq<Event> {
    [Submitted(stage, if stage in st.names then st.names[stage] else "")]
    + TaskEvents(stage, if stage in st.tasks then st.tasks[stage] else [])
  }

  function Synthetic(st: Stages, order: seq<int>): seq<Event> {
    if order == [] then [] else Synthetic(st, order[..|order| - 1]) + Block(st, order[|order| - 1])
  }

  lemma {:induction false} AppendedLog(a: seq<Event>, b: seq<Event>, stage: int)
    ensures TasksOf(a + b, stage) == TasksOf(a, stage) + TasksOf(b, stage)
    ensures NameOf(a + b, stage) == if NameOf(b, stage).Some? then NameOf(b, stage) else NameOf(a, stage)
  {
    if b == [] {
      assert a + b == a;
    } else {
      assert (a + b)[..|a + b| - 1] == a + b[..|b| - 1] && (a + b)[|a + b| - 1] == b[|b| - 1];
      AppendedLog(a, b[..|b| - 1], stage);
    }
  }

  ghost predicate Measured(tasks: seq<Task>) { forall i :: 0 <= i < |tasks| ==> Measure(Synthesize(tasks[i])) == tasks[i] }

  lemma {:induction false} TaskEventsRead(stage: int, tasks: seq<Task>, s: int)
    requires Measured(tasks)
    ensures TasksOf(TaskEvents(stage, tasks), s) == if s == stage then tasks else []
    ensures NameOf(TaskEvents(stage, tasks), s).None?
  {
    if tasks != [] {
      var before := tasks[..|tasks| - 1];
      TaskEventsRead(stage, before, s);
      assert TaskEvents(stage, tasks)[..|tasks| - 1] == TaskEvents(stage, before);
      SplitLast(tasks);
    }
  }

  lemma BlockReads(st: Stages, stage: int, s: int)
    requires stage in st.tasks && Measured(st.tasks[stage])
    ensures TasksOf(Block(st, stage), s) == if s == stage then st.tasks[stage] else []
    ensures NameOf(Block(st, stage), s) ==
            if s == stage then Some(if stage in st.names then st.names[stage] else "") else None
  {
    var head := [Submitted(stage, if stage in st.names then st.names[stage] else "")];
    assert head[..0] == [];
    TaskEventsRead(stage, st.tasks[stage], s);
    AppendedLog(head, TaskEvents(stage, st.tasks[stage]), s);
  }

  lemma {:induction false} SyntheticReads(st: Stages, order: seq<int>, s: int)
    requires Distinct(order) && forall x :: x in order ==> x in st.tasks && Measured(st.tasks[x])
    ensures TasksOf(Synthetic(st, order), s) == if s in order then st.tasks[s] else []
    ensures NameOf(Synthetic(st, order), s) == if s in order then Some(if s in st.names then st.names[s] else "") else None
  {
    if order != [] {
      var before, last := order[..|order| - 1], order[|order| - 1];
      SplitLast(order);
      assert last in order && last !in before;
      SyntheticReads(st, before, s);
      BlockReads(st, last, s);
      AppendedLog(Synthetic(st, before), Block(st, last), s);
    }
  }

  lemma {:induction false} TasksAreMeasured(events: seq<Event>, stage: int)
    ensures Measured(TasksOf(events, stage))
  {
    if events != [] {
      TasksAreMeasured(events[..|events| - 1], stage);
      if events[|events| - 1].TaskEnd? { SynthesizeMeasured(events[|events| - 1].logged); }
    }
  }

  method KeepStages(events: seq<Event>, cap: nat) returns (st: Stages)
    requires cap > 0
    ensures Kept(events, cap, st)
  {
    st := Stages([], map[], map[]);
    for i := 0 to |events|
      invariant Kept(events[..i], cap, st)
    {
      TakeGrows(events, i);
      KeepEventKeeps(events[..i], cap, st, events[i]);
      st := KeepEvent(cap, st, events[i]);
    }
    assert events[..|events|] == events;
  }

  method ReplayStages(st: Stages) returns (events: seq<Event>)
    ensures events == Synthetic(st, st.order)
  {
    events := [];
    for i := 0 to |st.order|
      invariant events == Synthetic(st, st.order[..i])
    {
      assert st.order[..i + 1][..i] == st.order[..i];
      events := events + Block(st, st.order[i]);
    }
    assert st.order[..|st.order|] == st.order;
  }

  /** Replaying what was kept says, of each stage with a task, its name and its last cap tasks. */
  lemma ReplayIsCapped(events: seq<Event>, cap: nat, st: Stages, s: int)
    requires cap > 0 && Kept(events, cap, st)
    ensures TasksOf(Synthetic(st, st.order), s) == LastOf(cap, TasksOf(events, s))
    ensures Mentioned(Synthetic(st, st.order), s) <==> TasksOf(events, s) != []
    ensures TasksOf(events, s) != [] ==>
              NameOrBlank(NameOf(Synthetic(st, st.order), s)) == NameOrBlank(NameOf(events, s))
  {
    forall x | x in st.order ensures x in st.tasks && Measured(st.tasks[x]) {
      assert StageKept(events, cap, st, x);
      TasksAreMeasured(events, x);
    }
    assert StageKept(events, cap, st, s);
    SyntheticReads(st, st.order, s);
  }

  /** `summarize_spark_event_stream`. */
  method SummarizeStream(events: seq<Event>, limits: Limits, cap: int) returns (r: Option<seq<Report>>)
    ensures r.None? <==> cap < 1 || !limits.Valid()
    ensures r.Some? ==> BoundedSummaryBy(Reporting(limits), events, cap, r.value)
  {
    if cap < 1 { return None; }
    var st := KeepStages(events, cap);
    var replayed := ReplayStages(st);
    r := Summarize(replayed, limits);
    forall s
      ensures TasksOf(replayed, s) == LastOf(cap, TasksOf(events, s))
      ensures Mentioned(replayed, s) <==> TasksOf(events, s) != []
      ensures TasksOf(events, s) != [] ==> NameOrBlank(NameOf(replayed, s)) == NameOrBlank(NameOf(events, s))
    {
      ReplayIsCapped(events, cap, st, s);
    }
    if r.Some? {
      var rs := r.value;
      forall i | 0 <= i < |rs| ensures TasksOf(events, rs[i].stage) != [] { assert Reports(rs, rs[i].stage); }
    }
  }

  // ---- When they agree ----

  /** Where two increasing lists agree so far, the next stage of one is not before the next of the other. */
  lemma NextNotBefore(a: seq<Report>, b: seq<Report>, i: nat)
    requires Increasing(a) && Increasing(b) && i < |a| && i <= |b|
    requires forall k :: 0 <= k < i ==> a[k] == b[k]
    requires Reports(b, a[i].stage)
    ensures i < |b| && b[i].stage <= a[i].stage
  {
    var l :| 0 <= l < |b| && b[l].stage == a[i].stage;
    if i < l { assert b[i].stage < b[l].stage; }
  }

  lemma {:induction false} IncreasingUnique(a: seq<Report>, b: seq<Report>, i: nat)
    requires Increasing(a) && Increasing(b) && i <= |a| && i <= |b| && forall k :: 0 <= k < i ==> a[k] == b[k]
    requires forall s :: Reports(a, s) <==> Reports(b, s)
    requires forall k, l :: 0 <= k < |a| && 0 <= l < |b| && a[k].stage == b[l].stage ==> a[k] == b[l]
    ensures a == b
    decreases |a| - i
  {
    if i < |b| {
      assert Reports(b, b[i].stage);
      NextNotBefore(b, a, i);
    }
    if i < |a| {
      assert Reports(a, a[i].stage);
      NextNotBefore(a, b, i);
      IncreasingUnique(a, b, i + 1);
    }
  }

  /** The two summaries are equal when every submitted stage has a task and no stage has more than the cap. */
  lemma SummariesAgree(report: Reporter, events: seq<Event>, cap: nat, simple: seq<Report>, bounded: seq<Report>)
    requires SummaryBy(report, events, simple) && BoundedSummaryBy(report, events, cap, bounded)
    requires forall s :: Mentioned(events, s) ==> 0 < |TasksOf(events, s)| <= cap
    ensures simple == bounded
  {
    forall s ensures Reports(simple, s) <==> Reports(bounded, s) {}
    forall k, l | 0 <= k < |simple| && 0 <= l < |bounded| && simple[k].stage == bounded[l].stage ensures simple[k] == bounded[l] {
      assert Reports(simple, simple[k].stage);
    }
    IncreasingUnique(simple, bounded, 0);
  }
}
