/** The schedule worker (python/sdpstudio_server/scheduler.py) and the claim its workers share
    (`claim_schedule` in python/sdpstudio_server/async_store.py). Markers are minutes. */
module Scheduler {
  import opened Sorting
  import opened Documents
  import opened Cron

  // ---- The shared claim ----

  datatype Row = Row(enabled: bool, last: Option<int>)

  /** One call of `claim_schedule` and its answer. */
  datatype Attempt = Attempt(id: string, marker: int, ok: bool)

  /** The conditional update succeeds on an enabled row whose last marker is another one. */
  predicate Claimable(rows: map<string, Row>, id: string, marker: int) {
    id in rows && rows[id].enabled && rows[id].last != Some(marker)
  }

  function ClaimRow(rows: map<string, Row>, id: string, marker: int): map<string, Row> {
    if Claimable(rows, id, marker) then rows[id := rows[id].(last := Some(marker))] else rows
  }

  /** What happens to the table: a claim by some worker, or a schedule switched on or off. */
  datatype Event = Claim(id: string, marker: int) | Switch(id: string, enabled: bool)

  function ApplyEvent(rows: map<string, Row>, e: Event): map<string, Row> {
    match e
    case Claim(id, marker) => ClaimRow(rows, id, marker)
    case Switch(id, enabled) => if id in rows then rows[id := rows[id].(enabled := enabled)] else rows
  }

  function Replay(rows: map<string, Row>, events: seq<Event>): map<string, Row> {
    if events == [] then rows else ApplyEvent(Replay(rows, events[..|events| - 1]), events[|events| - 1])
  }

  /** How often (id, marker) is claimed successfully. */
  function Claims(rows: map<string, Row>, events: seq<Event>, id: string, marker: int): nat {
    if events == [] then 0
    else
      var before := events[..|events| - 1];
      Claims(rows, before, id, marker)
      + (if events[|events| - 1] == Claim(id, marker) && Claimable(Replay(rows, before), id, marker) then 1 else 0)
  }

  /** The markers offered for id while it is enabled, in order. */
  function Offers(rows: map<string, Row>, events: seq<Event>, id: string): seq<int> {
    if events == [] then []
    else
      var before, e := events[..|events| - 1], events[|events| - 1];
      var now := Replay(rows, before);
      Offers(rows, before, id) + (if e.Claim? && e.id == id && id in now && now[id].enabled then [e.marker] else [])
  }

  /** marker comes back after another marker was offered. */
  ghost predicate Returns(offers: seq<int>, marker: int) {
    exists i, j, k :: 0 <= i < j < k < |offers| && offers[i] == marker && offers[j] != marker && offers[k] == marker
  }

  /** The row remembers the last offer. */
  lemma {:induction false} LastIsLastOffer(rows: map<string, Row>, events: seq<Event>, id: string)
    requires id in rows
    ensures id in Replay(rows, events)
    ensures var offers := Offers(rows, events, id);
            Replay(rows, events)[id].last == if offers == [] then rows[id].last else Some(offers[|offers| - 1])
  {
    if events != [] { LastIsLastOffer(rows, events[..|events| - 1], id); }
  }

  lemma ReturnsGrows(offers: seq<int>, y: int, marker: int)
    ensures Returns(offers + [y], marker) <==>
            Returns(offers, marker) || (y == marker && marker in offers && offers[|offers| - 1] != marker)
  {
    var all := offers + [y];
    if Returns(all, marker) && !Returns(offers, marker) {
      var i, j, k :| 0 <= i < j < k < |all| && all[i] == marker && all[j] != marker && all[k] == marker;
      assert k == |offers| && offers[i] == marker && offers[j] != marker;
      assert !(offers[i] == marker && offers[j] != marker && j < |offers| - 1 && offers[|offers| - 1] == marker);
    }
    if Returns(offers, marker) {
      var i, j, k :| 0 <= i < j < k < |offers| && offers[i] == marker && offers[j] != marker && offers[k] == marker;
      assert all[i] == marker && all[j] != marker && all[k] == marker;
    }
    if y == marker && marker in offers && offers[|offers| - 1] != marker {
      var i :| 0 <= i < |offers| && offers[i] == marker;
      assert all[i] == marker && all[|offers| - 1] != marker && all[|offers|] == marker;
    }
  }

  /** A minute is claimed at most once exactly when, once offered, it never comes back after another. */
  lemma {:induction false} ClaimedOnceExactly(rows: map<string, Row>, events: seq<Event>, id: string, marker: int)
    requires id in rows && rows[id].last != Some(marker)
    ensures Claims(rows, events, id, marker) == 0 <==> marker !in Offers(rows, events, id)
    ensures Claims(rows, events, id, marker) <= 1 <==> !Returns(Offers(rows, events, id), marker)
  {
    if events != [] {
      var before, e := events[..|events| - 1], events[|events| - 1];
      var offers := Offers(rows, before, id);
      ClaimedOnceExactly(rows, before, id, marker);
      LastIsLastOffer(rows, before, id);
      if e.Claim? && e.id == id && Replay(rows, before)[id].enabled {
        ReturnsGrows(offers, e.marker, marker);
        if offers != [] { assert offers[|offers| - 1] in offers; }
      } else {
        assert Offers(rows, events, id) == offers + [] == offers;
      }
    }
  }

  ghost predicate NonDecreasing(offers: seq<int>) { forall i, j :: 0 <= i < j < |offers| ==> offers[i] <= offers[j] }

  /** On every interleaving of claims by any number of workers whose markers do not decrease, each minute of
      each schedule is claimed at most once. */
  lemma ClaimedAtMostOnce(rows: map<string, Row>, events: seq<Event>, id: string, marker: int)
    requires id in rows && rows[id].last != Some(marker) && NonDecreasing(Offers(rows, events, id))
    ensures Claims(rows, events, id, marker) <= 1
  {
    ClaimedOnceExactly(rows, events, id, marker);
  }

  /** A worker whose clock lags behind another's claims a minute a second time. */
  lemma LaggingWorkerClaimsTwice()
    ensures Claims(map["a" := Row(true, None)], [Claim("a", 5), Claim("a", 6), Claim("a", 5)], "a", 5) == 2
  {
    var rows := map["a" := Row(true, None)];
    var events := [Claim("a", 5), Claim("a", 6), Claim("a", 5)];
    assert events[..2] == [Claim("a", 5), Claim("a", 6)] && events[..2][..1] == [Claim("a", 5)];
    assert [Claim("a", 5)][..0] == [];
    assert Replay(rows, [Claim("a", 5)]) == rows["a" := Row(true, Some(5))];
    assert Replay(rows, events[..2])["a"] == Row(true, Some(6));
  }

  function CountOf(s: seq<(string, int)>, x: (string, int)): nat {
    if s == [] then 0 else CountOf(s[..|s| - 1], x) + (if s[|s| - 1] == x then 1 else 0)
  }

  lemma CountGrows(s: seq<(string, int)>, y: (string, int), x: (string, int))
    ensures CountOf(s + [y], x) == CountOf(s, x) + (if y == x then 1 else 0)
  {
    assert (s + [y])[..|s|] == s;
  }

  lemma ClaimsGrow(rows: map<string, Row>, events: seq<Event>, e: Event, id: string, marker: int)
    ensures Replay(rows, events + [e]) == ApplyEvent(Replay(rows, events), e)
    ensures Claims(rows, events + [e], id, marker) == Claims(rows, events, id, marker)
            + (if e == Claim(id, marker) && Claimable(Replay(rows, events), id, marker) then 1 else 0)
  {
    assert (events + [e])[..|events|] == events;
  }

  /** No minute is dispatched more often than it was claimed. */
  ghost predicate Backed(rows: map<string, Row>, events: seq<Event>, dispatched: seq<(string, int)>) {
    forall id, m {:trigger BackedAt(rows, events, dispatched, id, m)} :: BackedAt(rows, events, dispatched, id, m)
  }

  ghost predicate BackedAt(rows: map<string, Row>, events: seq<Event>, dispatched: seq<(string, int)>, id: string, m: int) {
    CountOf(dispatched, (id, m)) <= Claims(rows, events, id, m)
  }

  /** An unused claim backs one more dispatch. */
  ghost predicate Spare(rows: map<string, Row>, events: seq<Event>, dispatched: seq<(string, int)>, id: string, marker: int) {
    CountOf(dispatched, (id, marker)) < Claims(rows, events, id, marker)
  }

  lemma ClaimBacks(rows: map<string, Row>, events: seq<Event>, dispatched: seq<(string, int)>, e: Event)
    requires Backed(rows, events, dispatched)
    ensures Backed(rows, events + [e], dispatched)
    ensures e.Claim? && Claimable(Replay(rows, events), e.id, e.marker) ==>
              Spare(rows, events + [e], dispatched, e.id, e.marker)
  {
    forall id, m ensures BackedAt(rows, events + [e], dispatched, id, m) {
      assert BackedAt(rows, events, dispatched, id, m);
      ClaimsGrow(rows, events, e, id, m);
    }
    if e.Claim? {
      assert BackedAt(rows, events, dispatched, e.id, e.marker);
      ClaimsGrow(rows, events, e, e.id, e.marker);
    }
  }

  /** What an event does to a table with its history. */
  lemma EventRecorded(initial: map<string, Row>, events: seq<Event>, dispatched: seq<(string, int)>, rows: map<string, Row>, e: Event)
    requires rows == Replay(initial, events) && Backed(initial, events, dispatched)
    ensures ApplyEvent(rows, e) == Replay(initial, events + [e]) && Backed(initial, events + [e], dispatched)
    ensures e.Claim? && Claimable(rows, e.id, e.marker) ==> Spare(initial, events + [e], dispatched, e.id, e.marker)
  {
    ClaimBacks(initial, events, dispatched, e);
    ClaimsGrow(initial, events, e, e.id, 0);
  }

  lemma DispatchSpends(rows: map<string, Row>, events: seq<Event>, dispatched: seq<(string, int)>, id: string, marker: int)
    requires Backed(rows, events, dispatched) && Spare(rows, events, dispatched, id, marker)
    ensures Backed(rows, events, dispatched + [(id, marker)])
  {
    forall i, m ensures BackedAt(rows, events, dispatched + [(id, marker)], i, m) {
      assert BackedAt(rows, events, dispatched, i, m);
      CountGrows(dispatched, (id, marker), (i, m));
    }
  }

  /** The schedules table that all workers share, with the history of what happened to it and of what the
      workers dispatched. */
  class ClaimStore {
    var rows: map<string, Row>
    ghost const initial: map<string, Row>
    ghost var events: seq<Event>
    ghost var dispatched: seq<(string, int)>

    ghost predicate Valid()
      reads this
    {
      rows == Replay(initial, events) && Backed(initial, events, dispatched)
    }

    constructor (table: map<string, Row>)
      ensures Valid() && rows == initial == table && events == [] && dispatched == []
    {
      rows, initial, events, dispatched := table, table, [], [];
    }

    /** `claim_schedule`: one atomic conditional update. */
    method ClaimSchedule(id: string, marker: int) returns (ok: bool)
      requires Valid()
      modifies this`rows, this`events
      ensures Valid() && ok == Claimable(old(rows), id, marker) && rows == ClaimRow(old(rows), id, marker)
      ensures events == old(events) + [Claim(id, marker)]
      ensures ok ==> Spare(initial, events, dispatched, id, marker)
    {
      EventRecorded(initial, events, dispatched, rows, Claim(id, marker));
      ok := Claimable(rows, id, marker);
      if ok { rows := rows[id := rows[id].(last := Some(marker))]; }
      events := events + [Claim(id, marker)];
    }

    /** A worker that has just claimed a minute dispatches it. */
    ghost method RecordDispatch(id: string, marker: int)
      requires Valid() && Spare(initial, events, dispatched, id, marker)
      modifies this`dispatched
      ensures Valid() && dispatched == old(dispatched) + [(id, marker)]
    {
      DispatchSpends(initial, events, dispatched, id, marker);
      dispatched := dispatched + [(id, marker)];
    }

    method SwitchSchedule(id: string, enabled: bool)
      requires Valid()
      modifies this`rows, this`events
      ensures Valid() && rows == ApplyEvent(old(rows), Switch(id, enabled))
      ensures events == old(events) + [Switch(id, enabled)]
    {
      EventRecorded(initial, events, dispatched, rows, Switch(id, enabled));
      if id in rows { rows := rows[id := rows[id].(enabled := enabled)]; }
      events := events + [Switch(id, enabled)];
    }
  }

  /** Whatever the workers sharing a store did to it: with markers that do not decrease, no minute of a
      schedule was dispatched twice. */
  lemma DispatchedAtMostOnce(store: ClaimStore, id: string, marker: int)
    requires store.Valid() && id in store.initial && store.initial[id].last != Some(marker)
    requires NonDecreasing(Offers(store.initial, store.events, id))
    ensures CountOf(store.dispatched, (id, marker)) <= 1
  {
    ClaimedAtMostOnce(store.initial, store.events, id, marker);
    assert BackedAt(store.initial, store.events, store.dispatched, id, marker);
  }

  // ---- The worker ----

  datatype Policy = Skip | Forbid | Replace | OtherPolicy(name: string)

  datatype Schedule = Schedule(id: string, cron: Expression, enabled: bool, runOnce: bool, lastClaim: Option<int>, policy: Policy)

  /** Fires now, or, on the first tick of a worker, was missed since its last claim and is to be made up. */
  ghost predicate Due(s: Schedule, clock: Clock, moment: int, starting: bool) {
    || Fires(s.cron, clock, moment)
    || (starting && s.runOnce && s.lastClaim.Some? && exists t :: t <= moment && IsNext(s.cron, clock, s.lastClaim.value, t))
  }

  /** The claims one tick makes. */
  ghost function ClaimsMade(schedules: seq<Schedule>, clock: Clock, moment: int, starting: bool): seq<Event> {
    if schedules == [] then []
    else
      var s := schedules[|schedules| - 1];
      ClaimsMade(schedules[..|schedules| - 1], clock, moment, starting)
      + (if s.enabled && Due(s, clock, moment, starting) then [Claim(s.id, moment)] else [])
  }

  /** The worker's two indexes of running schedules, the number of the next task, and the tasks the event loop
      still runs, each with its schedule. */
  datatype Book = Book(running: set<string>, tasks: map<string, nat>, next: nat, live: map<nat, string>)

  /** The indexes agree and every recorded task is live. This holds under all policies. */
  ghost predicate Consistent(b: Book) {
    && b.running == b.tasks.Keys
    && (forall t :: t in b.live ==> t < b.next)
    && (forall s :: s in b.tasks ==> b.tasks[s] in b.live && b.live[b.tasks[s]] == s)
  }

  /** Every live task is the recorded one, so no schedule has two. */
  ghost predicate Tracked(b: Book) { forall t :: t in b.live ==> b.live[t] in b.tasks && b.tasks[b.live[t]] == t }

  ghost predicate Indexed(b: Book) { Consistent(b) && Tracked(b) }

  /** A new task is created and recorded. */
  function Started(b: Book, sid: string): Book {
    Book(b.running + {sid}, b.tasks[sid := b.next], b.next + 1, b.live[b.next := sid])
  }

  /** `_dispatch_finished`: the callback of a task drops whatever task is recorded for its schedule. */
  function Finished(b: Book, sid: string, task: nat): Book {
    Book(b.running - {sid}, b.tasks - {sid}, b.next, b.live - {task})
  }

  /** Starting keeps every live task recorded exactly when all were and the schedule had none. */
  lemma StartTracked(b: Book, sid: string)
    requires Consistent(b)
    ensures Consistent(Started(b, sid))
    ensures Tracked(Started(b, sid)) <==> Tracked(b) && sid !in b.running
  {
    var b' := Started(b, sid);
    assert b.next in b'.live && b'.live[b.next] == sid;
    forall t | t in b.live ensures t in b'.live && b'.live[t] == b.live[t] && t != b.next {}
    forall s | s in b'.tasks ensures b'.tasks[s] in b'.live && b'.live[b'.tasks[s]] == s {
      if s != sid { assert b'.tasks[s] == b.tasks[s] < b.next; }
    }
    if sid in b.running { assert b.tasks[sid] in b'.live; }
  }

  /** The callback leaves every live task recorded exactly when all other tasks were and none of them belongs
      to the same schedule. */
  lemma FinishTracked(b: Book, sid: string, task: nat)
    requires Consistent(b) && task in b.live && b.live[task] == sid
    ensures Consistent(Finished(b, sid, task))
    ensures Tracked(Finished(b, sid, task)) <==>
            forall t :: t in b.live && t != task ==> b.live[t] != sid && b.live[t] in b.tasks && b.tasks[b.live[t]] == t
  {
    var b' := Finished(b, sid, task);
    forall s | s in b'.tasks ensures b'.tasks[s] in b'.live && b'.live[b'.tasks[s]] == s {
      assert b.tasks[s] in b.live && b.live[b.tasks[s]] == s;
    }
    forall t | t in b.live && t != task ensures t in b'.live && b'.live[t] == b.live[t] {}
  }

  /** While every live task is recorded, so it stays when one finishes. */
  lemma FinishIndexed(b: Book, sid: string, task: nat)
    requires Indexed(b) && task in b.live && b.live[task] == sid
    ensures Indexed(Finished(b, sid, task)) && sid in b.running && b.tasks[sid] == task
  {
    FinishTracked(b, sid, task);
  }

  /** An unknown policy starts a second dispatch beside the first. When the first ends, the callback forgets
      the second, which is still live. */
  lemma SecondDispatchIsForgotten(b: Book, sid: string)
    requires Indexed(b) && sid in b.running
    ensures var two := Started(b, sid);
            var after := Finished(two, sid, b.tasks[sid]);
            && Consistent(two) && b.tasks[sid] in two.live && two.live[b.tasks[sid]] == sid
            && Consistent(after) && b.next in after.live && after.live[b.next] == sid && sid !in after.running
  {
    StartTracked(b, sid);
    FinishTracked(Started(b, sid), sid, b.tasks[sid]);
  }

  /** Tasks of the event loop finish, in order. */
  function Settled(b: Book, finished: seq<nat>): Book {
    if finished == [] then b
    else
      var so := Settled(b, finished[..|finished| - 1]);
      var t := finished[|finished| - 1];
      if t in so.live then Finished(so, so.live[t], t) else so
  }

  /** A policy that keeps the running dispatch. */
  predicate Keeps(policy: Policy) { policy.Skip? || policy.Forbid? }

  /** A schedule is started; replacing ends its recorded dispatch first. */
  function Launched(b: Book, s: Schedule): Book {
    Started(if s.policy.Replace? && s.id in b.tasks then Finished(b, s.id, b.tasks[s.id]) else b, s.id)
  }

  lemma LaunchTracked(b: Book, s: Schedule)
    requires Consistent(b)
    ensures Consistent(Launched(b, s))
    ensures Indexed(b) ==> (Indexed(Launched(b, s)) <==> s.id !in b.running || s.policy.Replace?)
  {
    if s.policy.Replace? && s.id in b.tasks {
      FinishTracked(b, s.id, b.tasks[s.id]);
      StartTracked(Finished(b, s.id, b.tasks[s.id]), s.id);
    } else {
      StartTracked(b, s.id);
    }
  }

  /** From b to b' a new task of sid starts and is the one recorded. A replaced dispatch of sid, the recorded one,
      is ended; every other live task goes on. */
  ghost predicate Replaces(b: Book, b': Book, sid: string, replaced: bool) {
    && b.next !in b.live && b.next in b'.live && b'.live[b.next] == sid
    && sid in b'.running && sid in b'.tasks && b'.tasks[sid] == b.next
    && (replaced && sid in b.tasks ==> b.tasks[sid] !in b'.live)
    && (forall t :: t in b.live && !(replaced && sid in b.tasks && t == b.tasks[sid]) ==> t in b'.live && b'.live[t] == b.live[t])
    && (forall t :: t in b'.live ==> t in b.live || t == b.next)
    && (forall x :: x != sid ==> (x in b'.running <==> x in b.running) && (x in b'.tasks <==> x in b.tasks))
    && (forall x :: x != sid && x in b.tasks ==> b'.tasks[x] == b.tasks[x])
  }

  /** Starting a schedule does that, whatever its policy; only "replace" ends the recorded dispatch. */
  lemma LaunchReplaces(b: Book, s: Schedule)
    requires Consistent(b)
    ensures Replaces(b, Launched(b, s), s.id, s.policy == Replace)
  {
  }

  /** The schedules table, the worker's book and the dispatches so far. */
  datatype Round = Round(rows: map<string, Row>, book: Book, sent: seq<(string, int)>)

  /** The claim succeeds and no running dispatch is kept. */
  predicate Sends(rows: map<string, Row>, b: Book, s: Schedule, moment: int) {
    Claimable(rows, s.id, moment) && !(s.id in b.running && Keeps(s.policy))
  }

  /** What a tick does with one schedule; the finished tasks end before. */
  ghost function HandledOne(r: Round, s: Schedule, finished: seq<nat>, clock: Clock, moment: int, starting: bool): Round {
    var b := Settled(r.book, finished);
    if !(s.enabled && Due(s, clock, moment, starting)) then r.(book := b)
    else if !Sends(r.rows, b, s, moment) then Round(ClaimRow(r.rows, s.id, moment), b, r.sent)
    else Round(ClaimRow(r.rows, s.id, moment), Launched(b, s), r.sent + [(s.id, moment)])
  }

  /** What a tick does with its schedules, in order; finished[i] are the tasks that end before the i-th. */
  ghost function Handled(r: Round, schedules: seq<Schedule>, finished: seq<seq<nat>>, clock: Clock, moment: int, starting: bool): Round
    requires |finished| == |schedules|
  {
    if schedules == [] then r
    else
      var n := |schedules| - 1;
      HandledOne(Handled(r, schedules[..n], finished[..n], clock, moment, starting), schedules[n], finished[n], clock, moment, starting)
  }

  lemma {:induction false} SettledStays(b: Book, finished: seq<nat>)
    requires Consistent(b)
    ensures Consistent(Settled(b, finished)) && Settled(b, finished).running <= b.running
    ensures Indexed(b) ==> Indexed(Settled(b, finished))
  {
    if finished != [] {
      var before := finished[..|finished| - 1];
      SettledStays(b, before);
      var so, t := Settled(b, before), finished[|finished| - 1];
      if t in so.live {
        FinishTracked(so, so.live[t], t);
        if Indexed(b) { FinishIndexed(so, so.live[t], t); }
      }
    }
  }

  /** The indexes agree on every tick; with the policies the worker knows no schedule ever has two live
      dispatches, whatever finishes meanwhile. */
  lemma {:induction false} HandledStaysIndexed(r: Round, schedules: seq<Schedule>, finished: seq<seq<nat>>, clock: Clock, moment: int,
                                               starting: bool)
    requires |finished| == |schedules| && Consistent(r.book)
    ensures Consistent(Handled(r, schedules, finished, clock, moment, starting).book)
    ensures Indexed(r.book) && (forall s :: s in schedules ==> !s.policy.OtherPolicy?) ==>
              Indexed(Handled(r, schedules, finished, clock, moment, starting).book)
  {
    if schedules != [] {
      var n := |schedules| - 1;
      HandledStaysIndexed(r, schedules[..n], finished[..n], clock, moment, starting);
      var so := Handled(r, schedules[..n], finished[..n], clock, moment, starting);
      SettledStays(so.book, finished[n]);
      LaunchTracked(Settled(so.book, finished[n]), schedules[n]);
      assert forall s :: s in schedules[..n] ==> s in schedules;
    }
  }

  // ---- Which schedules are dispatched ----

  ghost predicate OtherIds(schedules: seq<Schedule>, id: string) { forall s :: s in schedules ==> s.id != id }

  /** The task recorded for id. */
  function Recorded(b: Book, id: string): Option<nat> { if id in b.tasks then Some(b.tasks[id]) else None }

  /** The recorded dispatch of id ends among these. */
  predicate Ends(b: Book, id: string, finished: seq<seq<nat>>) {
    id in b.tasks && exists i :: 0 <= i < |finished| && b.tasks[id] in finished[i]
  }

  lemma {:induction false} SettledRecord(b: Book, finished: seq<nat>, id: string)
    requires Indexed(b)
    ensures Recorded(Settled(b, finished), id) == if id in b.tasks && b.tasks[id] in finished then None else Recorded(b, id)
  {
    if finished != [] {
      var before, t := finished[..|finished| - 1], finished[|finished| - 1];
      SettledRecord(b, before, id);
      SettledStays(b, before);
      SplitLast(finished);
      var so := Settled(b, before);
      if t in so.live { FinishIndexed(so, so.live[t], t); }
    }
  }

  /** What handling other schedules leaves alone: the row of id, its dispatches and, until its task ends, its
      record. */
  ghost predicate LeftAlone(r: Round, r': Round, finished: seq<seq<nat>>, moment: int, id: string) {
    && (id in r'.rows <==> id in r.rows) && (id in r.rows ==> r'.rows[id] == r.rows[id])
    && Recorded(r'.book, id) == (if Ends(r.book, id, finished) then None else Recorded(r.book, id))
    && ((id, moment) in r'.sent <==> (id, moment) in r.sent)
  }

  lemma LaunchRecord(b: Book, s: Schedule, id: string)
    requires Consistent(b) && s.id != id
    ensures Recorded(Launched(b, s), id) == Recorded(b, id)
  {
  }

  lemma {:induction false} OthersHandled(r: Round, schedules: seq<Schedule>, finished: seq<seq<nat>>, clock: Clock, moment: int,
                                         starting: bool, id: string)
    requires |finished| == |schedules| && Indexed(r.book) && OtherIds(schedules, id)
    requires forall s :: s in schedules ==> !s.policy.OtherPolicy?
    ensures LeftAlone(r, Handled(r, schedules, finished, clock, moment, starting), finished, moment, id)
  {
    if schedules != [] {
      var n := |schedules| - 1;
      SplitLast(schedules);
      OthersHandled(r, schedules[..n], finished[..n], clock, moment, starting, id);
      HandledStaysIndexed(r, schedules[..n], finished[..n], clock, moment, starting);
      var so := Handled(r, schedules[..n], finished[..n], clock, moment, starting);
      SettledRecord(so.book, finished[n], id);
      SettledStays(so.book, finished[n]);
      LaunchRecord(Settled(so.book, finished[n]), schedules[n], id);
      EndsGrows(r.book, id, finished);
      assert schedules[n].id != id;
    }
  }

  lemma EndsGrows(b: Book, id: string, finished: seq<seq<nat>>)
    requires finished != []
    ensures var n := |finished| - 1;
            Ends(b, id, finished) <==> Ends(b, id, finished[..n]) || (id in b.tasks && b.tasks[id] in finished[n])
  {
    var n := |finished| - 1;
    if Ends(b, id, finished[..n]) {
      var i :| 0 <= i < n && b.tasks[id] in finished[..n][i];
      assert b.tasks[id] in finished[i];
    }
    if Ends(b, id, finished) && !(b.tasks[id] in finished[n]) {
      var i :| 0 <= i < |finished| && b.tasks[id] in finished[i];
      assert b.tasks[id] in finished[..n][i];
    }
  }

  /** Which schedules a tick dispatches, when no id is listed twice: the enabled due ones whose row does not
      hold this minute yet and which are not kept back by a dispatch that is still running. */
  lemma DispatchedExactly(r: Round, schedules: seq<Schedule>, finished: seq<seq<nat>>, clock: Clock, moment: int, starting: bool, i: nat)
    requires |finished| == |schedules| && Indexed(r.book) && i < |schedules| && (schedules[i].id, moment) !in r.sent
    requires forall j, k :: 0 <= j < k < |schedules| ==> schedules[j].id != schedules[k].id
    requires forall s :: s in schedules ==> !s.policy.OtherPolicy?
    ensures var s := schedules[i];
            (s.id, moment) in Handled(r, schedules, finished, clock, moment, starting).sent <==>
            && s.enabled
            && (|| Fires(s.cron, clock, moment)
                || (starting && s.runOnce && s.lastClaim.Some? && exists t :: t <= moment && IsNext(s.cron, clock, s.lastClaim.value, t)))
            && s.id in r.rows && r.rows[s.id].enabled && r.rows[s.id].last != Some(moment)
            && !(s.id in r.book.running && (s.policy == Skip || s.policy == Forbid) && !Ends(r.book, s.id, finished[..i + 1]))
  {
    var s := schedules[i];
    var before, upTo := Handled(r, schedules[..i], finished[..i], clock, moment, starting),
                        Handled(r, schedules[..i + 1], finished[..i + 1], clock, moment, starting);
    forall x | x in schedules[..i] ensures x.id != s.id {}
    OthersHandled(r, schedules[..i], finished[..i], clock, moment, starting, s.id);
    HandledStaysIndexed(r, schedules[..i], finished[..i], clock, moment, starting);
    assert schedules[..i + 1][..i] == schedules[..i] && finished[..i + 1][..i] == finished[..i];
    SettledRecord(before.book, finished[i], s.id);
    SettledStays(before.book, finished[i]);
    EndsGrows(r.book, s.id, finished[..i + 1]);
    LaterKeepSent(r, schedules, finished, clock, moment, starting, i + 1, s.id);
  }

  lemma TakeOfTake<T>(s: seq<T>, i: nat, n: nat)
    requires i <= n <= |s|
    ensures s[..n][..i] == s[..i]
  {
  }

  /** Later schedules add no dispatch of an id that is not theirs. */
  lemma {:induction false} LaterKeepSent(r: Round, schedules: seq<Schedule>, finished: seq<seq<nat>>, clock: Clock, moment: int,
                                         starting: bool, i: nat, id: string)
    requires |finished| == |schedules| && i <= |schedules| && forall k :: i <= k < |schedules| ==> schedules[k].id != id
    ensures (id, moment) in Handled(r, schedules, finished, clock, moment, starting).sent <==>
            (id, moment) in Handled(r, schedules[..i], finished[..i], clock, moment, starting).sent
  {
    if i == |schedules| {
      assert schedules[..i] == schedules && finished[..i] == finished;
    } else {
      var n := |schedules| - 1;
      LaterKeepSent(r, schedules[..n], finished[..n], clock, moment, starting, i, id);
      TakeOfTake(schedules, i, n);
      TakeOfTake(finished, i, n);
    }
  }

  class ScheduleWorker {
    const store: ClaimStore
    var lastMinute: Option<int>
    var running: set<string>
    var runningTasks: map<string, nat>
    var nextTask: nat
    /** The tasks of the event loop, which the worker does not hold itself. */
    var live: map<nat, string>

    function Contents(): Book
      reads this
    {
      Book(running, runningTasks, nextTask, live)
    }

    ghost predicate Valid()
      reads this
    {
      Consistent(Contents())
    }

    constructor (shared: ClaimStore)
      ensures Valid() && Indexed(Contents()) && store == shared && lastMinute.None? && live == map[]
    {
      store, lastMinute, running, runningTasks, nextTask, live := shared, None, {}, map[], 0, map[];
    }

    /** `_dispatch_finished`, run when a task of the event loop ends. */
    method DispatchFinished(sid: string, task: nat)
      requires Valid() && task in live && live[task] == sid
      modifies this`running, this`runningTasks, this`live
      ensures Valid() && Contents() == Finished(old(Contents()), sid, task)
      ensures old(Indexed(Contents())) ==> Indexed(Contents()) && sid in old(running) && task == old(runningTasks)[sid]
    {
      FinishTracked(Contents(), sid, task);
      if Indexed(Contents()) { FinishIndexed(Contents(), sid, task); }
      runningTasks := runningTasks - {sid};
      running := running - {sid};
      live := live - {task};
    }

    /** Some tasks finish while the tick waits. */
    method Settle(finished: seq<nat>)
      requires Valid()
      modifies this`running, this`runningTasks, this`live
      ensures Valid() && Contents() == Settled(old(Contents()), finished)
    {
      for i := 0 to |finished|
        invariant Valid() && Contents() == Settled(old(Contents()), finished[..i])
      {
        assert finished[..i + 1][..i] == finished[..i];
        if finished[i] in live { DispatchFinished(live[finished[i]], finished[i]); }
      }
      assert finished[..|finished|] == finished;
    }

    /** A new task is created and recorded. */
    method Begin(sid: string)
      requires Valid()
      modifies this`running, this`runningTasks, this`nextTask, this`live
      ensures Valid() && Contents() == Started(old(Contents()), sid)
    {
      StartTracked(Contents(), sid);
      running := running + {sid};
      live := live[nextTask := sid];
      runningTasks := runningTasks[sid := nextTask];
      nextTask := nextTask + 1;
    }

    /** One due schedule of a tick: claim it, then start it unless its policy keeps the running dispatch. */
    method Launch(s: Schedule, moment: int) returns (started: bool)
      requires Valid() && store.Valid()
      modifies this`running, this`runningTasks, this`nextTask, this`live, store
      ensures Valid() && store.Valid()
      ensures store.events == old(store.events) + [Claim(s.id, moment)] && store.rows == ClaimRow(old(store.rows), s.id, moment)
      ensures started <==>
                && s.id in old(store.rows) && old(store.rows)[s.id].enabled && old(store.rows)[s.id].last != Some(moment)
                && !(s.id in old(running) && (s.policy == Skip || s.policy == Forbid))
      ensures started ==> Replaces(old(Contents()), Contents(), s.id, s.policy == Replace)
      ensures store.dispatched == old(store.dispatched) + (if started then [(s.id, moment)] else [])
      ensures started <==> Sends(old(store.rows), old(Contents()), s, moment)
      ensures Contents() == if started then Launched(old(Contents()), s) else old(Contents())
      ensures started && old(Indexed(Contents())) ==> (Indexed(Contents()) <==> !(s.id in old(running) && s.policy.OtherPolicy?))
    {
      LaunchTracked(Contents(), s);
      LaunchReplaces(Contents(), s);
      var claimed := store.ClaimSchedule(s.id, moment);
      if !claimed { return false; }
      if s.id in running {
        if s.policy.Skip? || s.policy.Forbid? { return false; }
        if s.policy.Replace? { DispatchFinished(s.id, runningTasks[s.id]); }
      }
      Begin(s.id);
      store.RecordDispatch(s.id, moment);
      started := true;
    }

    method IsDue(s: Schedule, clock: Clock, moment: int, starting: bool) returns (due: bool)
      ensures due <==> Due(s, clock, moment, starting)
    {
      due := Fires(s.cron, clock, moment);
      if !due && starting && s.runOnce { due := MissedSince(s.cron, clock, s.lastClaim, moment); }
    }

    /** One schedule of a tick. */
    method Handle(s: Schedule, finished: seq<nat>, clock: Clock, moment: int, starting: bool) returns (started: bool)
      requires Valid() && store.Valid()
      modifies this`running, this`runningTasks, this`nextTask, this`live, store
      ensures Valid() && store.Valid()
      ensures store.events == old(store.events) + (if s.enabled && Due(s, clock, moment, starting) then [Claim(s.id, moment)] else [])
      ensures Round(store.rows, Contents(), store.dispatched)
              == HandledOne(Round(old(store.rows), old(Contents()), old(store.dispatched)), s, finished, clock, moment, starting)
      ensures |store.dispatched| == |old(store.dispatched)| + if started then 1 else 0
    {
      Settle(finished);
      var due := IsDue(s, clock, moment, starting);
      started := false;
      if s.enabled && due { started := Launch(s, moment); }
    }

    /** `tick`, under any policies. Each enabled due schedule is claimed once, in order, and the dispatches are
        those Handled names; finished[i] are the tasks that end while the i-th schedule is handled. */
    method Tick(clock: Clock, moment: int, schedules: seq<Schedule>, finished: seq<seq<nat>>) returns (count: nat)
      requires Valid() && store.Valid() && |finished| == |schedules|
      modifies this, store
      ensures Valid() && store.Valid() && lastMinute == Some(moment)
      ensures old(lastMinute) == Some(moment) ==>
                && count == 0 && Contents() == old(Contents()) && store.rows == old(store.rows)
                && store.events == old(store.events) && store.dispatched == old(store.dispatched)
      ensures old(lastMinute) != Some(moment) ==>
                var starting := old(lastMinute).None?;
                var first := Round(old(store.rows), old(Contents()), old(store.dispatched));
                && store.events == old(store.events) + ClaimsMade(schedules, clock, moment, starting)
                && Round(store.rows, Contents(), store.dispatched) == Handled(first, schedules, finished, clock, moment, starting)
                && |store.dispatched| == |old(store.dispatched)| + count
      ensures old(Indexed(Contents())) && (forall s :: s in schedules ==> !s.policy.OtherPolicy?) ==> Indexed(Contents())
    {
      if lastMinute == Some(moment) { return 0; }
      var starting := lastMinute.None?;
      lastMinute := Some(moment);
      count := 0;
      ghost var events := store.events;
      ghost var first := Round(store.rows, Contents(), store.dispatched);
      for i := 0 to |schedules|
        invariant Valid() && store.Valid() && lastMinute == Some(moment)
        invariant store.events == events + ClaimsMade(schedules[..i], clock, moment, starting)
        invariant Round(store.rows, Contents(), store.dispatched)
                  == Handled(first, schedules[..i], finished[..i], clock, moment, starting)
        invariant |store.dispatched| == |first.sent| + count
      {
        ClaimsMadeGrow(schedules, i, clock, moment, starting, events);
        HandledGrows(first, schedules, finished, clock, moment, starting, i);
        var started := Handle(schedules[i], finished[i], clock, moment, starting);
        if started { count := count + 1; }
      }
      assert schedules[..|schedules|] == schedules && finished[..|finished|] == finished;
      HandledStaysIndexed(first, schedules, finished, clock, moment, starting);
    }
  }

  lemma ClaimsMadeGrow(schedules: seq<Schedule>, i: nat, clock: Clock, moment: int, starting: bool, before: seq<Event>)
    requires i < |schedules|
    ensures before + ClaimsMade(schedules[..i + 1], clock, moment, starting) ==
            var so := before + ClaimsMade(schedules[..i], clock, moment, starting);
            if schedules[i].enabled && Due(schedules[i], clock, moment, starting) then so + [Claim(schedules[i].id, moment)] else so
  {
    assert schedules[..i + 1][..i] == schedules[..i];
  }

  lemma HandledGrows(r: Round, schedules: seq<Schedule>, finished: seq<seq<nat>>, clock: Clock, moment: int, starting: bool, i: nat)
    requires i < |schedules| == |finished|
    ensures Handled(r, schedules[..i + 1], finished[..i + 1], clock, moment, starting) ==
            HandledOne(Handled(r, schedules[..i], finished[..i], clock, moment, starting), schedules[i], finished[i], clock, moment, starting)
  {
    assert schedules[..i + 1][..i] == schedules[..i] && finished[..i + 1][..i] == finished[..i];
  }
}
