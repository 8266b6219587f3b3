/** The collaboration log of one project: numbered events, one snapshot, and compaction
    (python/sdpstudio_server/async_store.py). */
module CollaborationLog {
  import opened Sorting
  import opened Documents

  /** An event's body; only document updates end up in a bundle. */
  datatype Payload = Update(data: string) | Presence(data: string)

  datatype Entry = Entry(number: int, payload: Payload)

  /** A snapshot holds a saved document or a bundle of updates. */
  datatype Stored = Bundle(updates: seq<Payload>) | Saved(document: string)

  datatype Snapshot = Snapshot(number: int, content: Stored)

  datatype Log = Log(events: seq<Entry>, snapshot: Option<Snapshot>)

  // ---- The queries ----

  function MaxOf(s: seq<int>): int
    requires s != []
  {
    if |s| == 1 then s[0]
    else
      var rest := MaxOf(s[..|s| - 1]);
      if rest < s[|s| - 1] then s[|s| - 1] else rest
  }

  function Numbers(log: Log): seq<int> {
    seq(|log.events|, i requires 0 <= i < |log.events| => log.events[i].number)
    + (if log.snapshot.Some? then [log.snapshot.value.number] else [])
  }

  /** `COALESCE(MAX(seq), 0)` over the events and the snapshot. */
  function Top(log: Log): int { if Numbers(log) == [] then 0 else MaxOf(Numbers(log)) }

  function Later(number: int): Entry -> bool { (e: Entry) => e.number > number }

  function From(number: int): Entry -> bool { (e: Entry) => e.number >= number }

  /** `collaboration_events`. */
  function EventsAfter(log: Log, after: int): seq<Entry> { Filter(Later(after), log.events) }

  /** What a client that reconnects loads and replays: the snapshot, then the events after it. */
  function Replayed(log: Log): seq<Entry> {
    if log.snapshot.Some? then EventsAfter(log, log.snapshot.value.number) else log.events
  }

  function IsUpdate(): Payload -> bool { (p: Payload) => p.Update? }

  function Payloads(events: seq<Entry>): seq<Payload> {
    seq(|events|, i requires 0 <= i < |events| => events[i].payload)
  }

  // ---- The transactions ----

  /** `append_collaboration_event`; every hundredth event replaces the snapshot by a bundle of the updates
      still in the log and empties the log. */
  function Appended(log: Log, payload: Payload): Log {
    var number := Top(log) + 1;
    var events := log.events + [Entry(number, payload)];
    if number % 100 != 0 then log.(events := events)
    else Log(Filter(Later(number), events), Some(Snapshot(number, Bundle(Filter(IsUpdate(), Payloads(events))))))
  }

  /** The number a snapshot is saved under: the one given, or that of the last event, or 0. */
  function SaveNumber(log: Log, given: Option<int>): int {
    if given.Some? then given.value
    else if log.events == [] then 0
    else log.events[|log.events| - 1].number
  }

  /** `save_collaboration_snapshot`. */
  function Saving(log: Log, document: string, given: Option<int>): Log {
    log.(snapshot := Some(Snapshot(SaveNumber(log, given), Saved(document))))
  }

  /** `compact_collaboration_events`. */
  function Compacted(log: Log, keepAfter: int): Log {
    if log.snapshot.None? || log.snapshot.value.number < keepAfter then log
    else log.(events := Filter(From(keepAfter), log.events))
  }

  // ---- Numbering ----

  ghost predicate Increasing(events: seq<Entry>) {
    forall i, j :: 0 <= i < j < |events| ==> events[i].number < events[j].number
  }

  /** The log is empty or ends with the last number issued, which an empty log leaves to the snapshot. */
  ghost predicate Numbered(log: Log, issued: int) {
    && issued >= 0 && Increasing(log.events)
    && (log.snapshot.Some? ==> log.snapshot.value.number <= issued)
    && (if log.events != [] then log.events[|log.events| - 1].number == issued
        else issued == if log.snapshot.Some? then log.snapshot.value.number else 0)
  }

  lemma {:induction false} MaxIsLargest(s: seq<int>)
    requires s != []
    ensures MaxOf(s) in s && forall x :: x in s ==> x <= MaxOf(s)
  {
    if |s| > 1 {
      MaxIsLargest(s[..|s| - 1]);
      SplitLast(s);
    }
  }

  lemma NumbersBelow(log: Log, issued: int, i: nat)
    requires Numbered(log, issued) && i < |Numbers(log)|
    ensures Numbers(log)[i] <= issued
  {
    if i < |log.events| - 1 { assert log.events[i].number < log.events[|log.events| - 1].number; }
  }

  lemma TopIsIssued(log: Log, issued: int)
    requires Numbered(log, issued)
    ensures Top(log) == issued
  {
    if Numbers(log) != [] {
      var largest := MaxOf(Numbers(log));
      MaxIsLargest(Numbers(log));
      var k :| 0 <= k < |Numbers(log)| && Numbers(log)[k] == largest;
      NumbersBelow(log, issued, k);
      var last := if log.events != [] then |log.events| - 1 else 0;
      assert Numbers(log)[last] == issued && Numbers(log)[last] in Numbers(log);
    }
  }

  /** An append gets the number after the last one issued, also right after the log was compacted. */
  lemma AppendIssuesNext(log: Log, payload: Payload, issued: int)
    requires Numbered(log, issued)
    ensures Top(log) + 1 == issued + 1 && Numbered(Appended(log, payload), issued + 1)
  {
    TopIsIssued(log, issued);
    var events := log.events + [Entry(issued + 1, payload)];
    forall i, j | 0 <= i < j < |events| ensures events[i].number < events[j].number {
      if j == |log.events| && i < |log.events| - 1 { assert log.events[i].number < log.events[|log.events| - 1].number; }
    }
    forall e | e in events ensures !Later(issued + 1)(e) {
      var i :| 0 <= i < |events| && events[i] == e;
      if i < |log.events| { assert events[i].number < events[|log.events|].number; }
    }
    FilterNone(Later(issued + 1), events);
  }

  /** Saving a snapshot keeps the numbering exactly when it is saved under the last number issued, or under a
      smaller one while the log is not empty. */
  lemma SaveKeepsNumbering(log: Log, document: string, given: Option<int>, issued: int)
    requires Numbered(log, issued)
    ensures Numbered(Saving(log, document, given), issued) <==>
            SaveNumber(log, given) == issued || (log.events != [] && SaveNumber(log, given) < issued)
  {
  }

  /** Saving without a number keeps it exactly when the log is not empty or nothing was issued yet. */
  lemma SaveWithoutNumber(log: Log, document: string, issued: int)
    requires Numbered(log, issued)
    ensures Numbered(Saving(log, document, None), issued) <==> log.events != [] || issued == 0
  {
  }

  /** Otherwise numbers are issued again from 1. */
  lemma SaveOnEmptyReissues(log: Log, document: string, issued: int)
    requires Numbered(log, issued) && log.events == [] && issued > 0
    ensures Top(Saving(log, document, None)) + 1 == 1
  {
    assert Numbers(Saving(log, document, None)) == [0];
  }

  lemma {:induction false} FilterIncreasing(p: Entry -> bool, events: seq<Entry>)
    requires Increasing(events)
    ensures Increasing(Filter(p, events))
  {
    if events != [] {
      FilterIncreasing(p, events[1..]);
      FilterMembers(p, events[1..]);
      var rest := Filter(p, events[1..]);
      forall i | 0 <= i < |rest| ensures events[0].number < rest[i].number {
        assert rest[i] in rest;
        var k :| 0 <= k < |events[1..]| && events[1..][k] == rest[i];
        assert events[k + 1] == rest[i];
      }
    }
  }

  lemma CompactKeepsNumbering(log: Log, keepAfter: int, issued: int)
    requires Numbered(log, issued)
    ensures Numbered(Compacted(log, keepAfter), issued)
  {
    if log.snapshot.Some? && log.snapshot.value.number >= keepAfter && log.events != [] {
      var before, last := log.events[..|log.events| - 1], log.events[|log.events| - 1];
      FilterIncreasing(From(keepAfter), log.events);
      FilterSplitsAt(From(keepAfter), log.events, |log.events| - 1);
      assert log.events[..|log.events|] == log.events;
      assert From(keepAfter)(last);
    }
  }

  // ---- Replay ----

  lemma {:induction false} FilterTwice<T>(p: T -> bool, q: T -> bool, s: seq<T>)
    requires forall x :: x in s && p(x) ==> q(x)
    ensures Filter(p, Filter(q, s)) == Filter(p, s)
  {
    if s != [] {
      assert s == [s[0]] + s[1..];
      FilterTwice(p, q, s[1..]);
      FilterAppend(p, if q(s[0]) then [s[0]] else [], Filter(q, s[1..]));
      assert Filter(p, [s[0]]) == (if p(s[0]) then [s[0]] else []) + Filter(p, [s[0]][1..]);
    }
  }

  /** Compaction never deletes an event that a reconnecting client replays, on any log. */
  lemma CompactKeepsReplay(log: Log, keepAfter: int)
    ensures Compacted(log, keepAfter).snapshot == log.snapshot && Replayed(Compacted(log, keepAfter)) == Replayed(log)
  {
    if log.snapshot.Some? && log.snapshot.value.number >= keepAfter {
      FilterTwice(Later(log.snapshot.value.number), From(keepAfter), log.events);
    }
  }

  /** rest is what follows the events numbered up to number. */
  ghost predicate Follows(events: seq<Entry>, number: int, rest: seq<Entry>) {
    exists cut :: 0 <= cut <= |events| && SplitsAt(events, number, cut) && rest == events[cut..]
  }

  ghost predicate SplitsAt(events: seq<Entry>, number: int, cut: nat)
    requires cut <= |events|
  {
    && (forall i :: 0 <= i < cut ==> events[i].number <= number)
    && (forall i :: cut <= i < |events| ==> number < events[i].number)
  }

  /** In a numbered log the events after a number are its end. */
  lemma {:induction false} LaterFollows(events: seq<Entry>, number: int)
    requires Increasing(events)
    ensures Follows(events, number, Filter(Later(number), events))
  {
    if events == [] {
      assert SplitsAt(events, number, 0) && events[0..] == events;
    } else if Later(number)(events[0]) {
      forall e | e in events ensures Later(number)(e) {
        var i :| 0 <= i < |events| && events[i] == e;
        assert i == 0 || events[0].number < events[i].number;
      }
      FilterKeeps(Later(number), events);
      forall i | 0 <= i < |events| ensures number < events[i].number { assert Later(number)(events[i]); }
      assert SplitsAt(events, number, 0) && events[0..] == events;
    } else {
      LaterFollows(events[1..], number);
      var cut :| 0 <= cut <= |events[1..]| && SplitsAt(events[1..], number, cut) && Filter(Later(number), events[1..]) == events[1..][cut..];
      forall i | 0 <= i < cut + 1 ensures events[i].number <= number { if i > 0 { assert events[1..][i - 1] == events[i]; } }
      forall i | cut + 1 <= i < |events| ensures number < events[i].number { assert events[1..][i - 1] == events[i]; }
      assert SplitsAt(events, number, cut + 1) && events[1..][cut..] == events[cut + 1..];
      assert Filter(Later(number), events) == [] + Filter(Later(number), events[1..]);
    }
  }

  /** A client that has seen the events up to a number gets exactly those after it; compaction keeps exactly the
      events from keepAfter on. */
  lemma EventsAreWhatFollows(log: Log, issued: int, number: int)
    requires Numbered(log, issued)
    ensures Follows(log.events, number, EventsAfter(log, number))
    ensures log.snapshot.Some? && log.snapshot.value.number >= number ==>
              Follows(log.events, number - 1, Compacted(log, number).events)
  {
    LaterFollows(log.events, number);
    LaterFollows(log.events, number - 1);
    FromIsLater(log.events, number);
  }

  lemma {:induction false} FromIsLater(events: seq<Entry>, number: int)
    ensures Filter(From(number), events) == Filter(Later(number - 1), events)
  {
    if events != [] {
      FromIsLater(events[1..], number);
      assert From(number)(events[0]) <==> Later(number - 1)(events[0]);
    }
  }

  // ---- Runs ----

  datatype Operation = Append(payload: Payload) | Save(document: string, given: Option<int>) | Compact(keepAfter: int)

  function Apply(log: Log, op: Operation): Log {
    match op
    case Append(payload) => Appended(log, payload)
    case Save(document, given) => Saving(log, document, given)
    case Compact(keepAfter) => Compacted(log, keepAfter)
  }

  const EMPTY := Log([], None)

  function RunOf(ops: seq<Operation>): Log {
    if ops == [] then EMPTY else Apply(RunOf(ops[..|ops| - 1]), ops[|ops| - 1])
  }

  function AppendCount(ops: seq<Operation>): nat {
    if ops == [] then 0 else AppendCount(ops[..|ops| - 1]) + (if ops[|ops| - 1].Append? then 1 else 0)
  }

  /** No save lowers the top of the log or goes past the last number issued. */
  ghost predicate SavesFit(ops: seq<Operation>) {
    ops == [] ||
    (SavesFit(ops[..|ops| - 1]) &&
     var op, log, issued := ops[|ops| - 1], RunOf(ops[..|ops| - 1]), AppendCount(ops[..|ops| - 1]);
     op.Save? ==> SaveNumber(log, op.given) == issued || (log.events != [] && SaveNumber(log, op.given) < issued))
  }

  /** On every run whose saves fit, whatever is compacted in between, the i-th append gets number i. */
  lemma {:induction false} RunStaysNumbered(ops: seq<Operation>)
    requires SavesFit(ops)
    ensures Numbered(RunOf(ops), AppendCount(ops)) && Top(RunOf(ops)) + 1 == AppendCount(ops) + 1
  {
    if ops != [] {
      var before, op := ops[..|ops| - 1], ops[|ops| - 1];
      RunStaysNumbered(before);
      match op
      case Append(payload) => AppendIssuesNext(RunOf(before), payload, AppendCount(before));
      case Save(document, given) => SaveKeepsNumbering(RunOf(before), document, given, AppendCount(before));
      case Compact(keepAfter) => CompactKeepsNumbering(RunOf(before), keepAfter, AppendCount(before));
    }
    TopIsIssued(RunOf(ops), AppendCount(ops));
  }

  // ---- What a bundle forgets ----

  function AppendAll(payloads: seq<Payload>): Log {
    if payloads == [] then EMPTY else Appended(AppendAll(payloads[..|payloads| - 1]), payloads[|payloads| - 1])
  }

  function Entries(payloads: seq<Payload>, first: int): seq<Entry> {
    seq(|payloads|, i requires 0 <= i < |payloads| => Entry(first + i, payloads[i]))
  }

  /** The number of events before the last automatic bundle. */
  function Cut(n: nat): nat { n - n % 100 }

  ghost function AfterAppends(payloads: seq<Payload>): Log {
    var cut := Cut(|payloads|);
    Log(Entries(payloads[cut..], cut + 1), LastBundle(payloads, cut))
  }

  ghost function LastBundle(payloads: seq<Payload>, cut: nat): Option<Snapshot>
    requires cut <= |payloads| && cut % 100 == 0
  {
    if cut == 0 then None else Some(Snapshot(cut, Bundle(Filter(IsUpdate(), payloads[cut - 100..cut]))))
  }

  /** After appends alone the log holds the events since the last multiple of 100, and the snapshot only the
      updates of the hundred before: the automatic bundle does not contain the one it replaces. */
  lemma {:induction false} BundleHoldsLastHundred(payloads: seq<Payload>)
    ensures AppendAll(payloads) == AfterAppends(payloads) && Numbered(AppendAll(payloads), |payloads|)
  {
    if payloads == [] {
      assert AppendAll(payloads).events == Entries(payloads[0..], 1);
    } else {
      var before, last := payloads[..|payloads| - 1], payloads[|payloads| - 1];
      BundleHoldsLastHundred(before);
      SplitLast(payloads);
      TopIsIssued(AppendAll(before), |before|);
      AppendIssuesNext(AppendAll(before), last, |before|);
      BundleStep(before, last);
    }
  }

  lemma EntriesGrow(before: seq<Payload>, last: Payload, cut: nat)
    requires cut <= |before|
    ensures Entries(before[cut..], cut + 1) + [Entry(|before| + 1, last)] == Entries((before + [last])[cut..], cut + 1)
  {
    assert (before + [last])[cut..] == before[cut..] + [last];
  }

  lemma PayloadsOfEntries(payloads: seq<Payload>, first: int)
    ensures Payloads(Entries(payloads, first)) == payloads
    ensures Filter(Later(first + |payloads| - 1), Entries(payloads, first)) == []
  {
    FilterNone(Later(first + |payloads| - 1), Entries(payloads, first));
  }

  lemma CutStep(n: nat)
    ensures Cut(n) % 100 == 0 && Cut(n) <= n && Cut(n + 1) % 100 == 0
    ensures (n + 1) % 100 == 0 ==> Cut(n) == n - 99 && Cut(n + 1) == n + 1
    ensures (n + 1) % 100 != 0 ==> Cut(n + 1) == Cut(n)
  {
  }

  /** The hundredth event since the last bundle makes the next one. */
  lemma BundleFull(before: seq<Payload>, last: Payload, cut: nat)
    requires cut == |before| - 99
    ensures var all := before + [last];
            var events := Entries(before[cut..], cut + 1) + [Entry(|all|, last)];
            && Filter(Later(|all|), events) == Entries(all[|all|..], |all| + 1)
            && Filter(IsUpdate(), Payloads(events)) == Filter(IsUpdate(), all[|all| - 100..|all|])
  {
    var all := before + [last];
    EntriesGrow(before, last, cut);
    PayloadsOfEntries(all[cut..], cut + 1);
    assert all[|all| - 100..|all|] == all[cut..];
    assert Entries(all[|all|..], |all| + 1) == [];
  }

  lemma BundleStep(before: seq<Payload>, last: Payload)
    requires Top(AfterAppends(before)) == |before|
    ensures Appended(AfterAppends(before), last) == AfterAppends(before + [last])
  {
    var all, cut := before + [last], Cut(|before|);
    CutStep(|before|);
    if |all| % 100 == 0 {
      BundleFull(before, last, cut);
    } else {
      EntriesGrow(before, last, cut);
      if cut > 0 { assert before[cut - 100..cut] == all[cut - 100..cut]; }
    }
  }

  // ---- The tables ----

  /** The rows of one project. */
  class ProjectLog {
    var events: seq<Entry>
    var snapshot: Option<Snapshot>

    function Contents(): Log
      reads this
    {
      Log(events, snapshot)
    }

    constructor ()
      ensures Contents() == EMPTY
    {
      events, snapshot := [], None;
    }

    method NextNumber() returns (number: int)
      ensures number == Top(Contents()) + 1
    {
      var numbers := Numbers(Contents());
      if numbers == [] { return 1; }
      var top := numbers[0];
      for i := 1 to |numbers|
        invariant top == MaxOf(numbers[..i])
      {
        assert numbers[..i + 1][..i] == numbers[..i];
        if top < numbers[i] { top := numbers[i]; }
      }
      assert numbers[..|numbers|] == numbers;
      number := top + 1;
    }

    /** The updates still in the log. */
    method CollectUpdates() returns (updates: seq<Payload>)
      ensures updates == Filter(IsUpdate(), Payloads(events))
    {
      var payloads := Payloads(events);
      updates := [];
      assert payloads[..0] == [];
      for i := 0 to |events|
        invariant updates == Filter(IsUpdate(), payloads[..i])
      {
        FilterSplitsAt(IsUpdate(), payloads, i);
        if events[i].payload.Update? { updates := updates + [events[i].payload]; }
      }
      assert payloads[..|events|] == payloads;
    }

    method AppendEvent(payload: Payload) returns (number: int)
      modifies this
      ensures number == Top(old(Contents())) + 1 && Contents() == Appended(old(Contents()), payload)
    {
      number := NextNumber();
      events := events + [Entry(number, payload)];
      if number % 100 == 0 {
        var updates := CollectUpdates();
        snapshot := Some(Snapshot(number, Bundle(updates)));
        events := Filter(Later(number), events);
      }
    }

    method SaveSnapshot(document: string, given: Option<int>) returns (number: int)
      modifies this`snapshot
      ensures events == old(events) && snapshot == Some(Snapshot(number, Saved(document)))
      ensures Replayed(Contents()) == EventsAfter(old(Contents()), number)
      ensures forall issued :: Numbered(old(Contents()), issued) ==> Follows(old(events), number, Replayed(Contents()))
      ensures given.Some? ==> number == given.value
      ensures given.None? ==>
                forall issued :: Numbered(old(Contents()), issued) ==> number == if old(events) == [] then 0 else issued
      ensures forall issued :: Numbered(old(Contents()), issued) ==>
                (Numbered(Contents(), issued) <==> number == issued || (old(events) != [] && number < issued))
    {
      number := SaveNumber(Contents(), given);
      forall issued | Numbered(Contents(), issued) ensures Follows(events, number, EventsAfter(Contents(), number)) {
        EventsAreWhatFollows(Contents(), issued, number);
      }
      snapshot := Some(Snapshot(number, Saved(document)));
    }

    method CompactEvents(keepAfter: int) returns (deleted: nat)
      modifies this`events
      ensures Contents() == Compacted(old(Contents()), keepAfter) && deleted == |old(events)| - |events|
      ensures forall e :: e in events <==>
                e in old(events) && !(snapshot.Some? && snapshot.value.number >= keepAfter && e.number < keepAfter)
    {
      if snapshot.None? || snapshot.value.number < keepAfter { return 0; }
      FilterMembers(From(keepAfter), events);
      var kept := Filter(From(keepAfter), events);
      deleted := |events| - |kept|;
      events := kept;
    }
  }
}
