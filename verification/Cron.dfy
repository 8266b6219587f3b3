/** Cron matching over an abstract minute counter (`schedule_matches`, `next_fire`, `_missed_since` in
    python/sdpstudio_server/scheduler.py). */
module Cron {
  import opened Documents

  /** One item of a comma-separated field: a number, a range, or text that never matches. */
  datatype Item = Number(n: int) | Range(first: int, last: int) | Junk

  datatype Field = Any | OneOf(items: seq<Item>)

  datatype Moment = Moment(minute: int, hour: int, day: int, month: int, weekday: int)

  /** A schedule expression; malformed unless it has five fields. */
  datatype Expression = Malformed | Five(minute: Field, hour: Field, day: Field, month: Field, weekday: Field)

  predicate ItemMatches(item: Item, value: int) {
    match item
    case Number(n) => n == value
    case Range(first, last) => first <= value <= last
    case Junk => false
  }

  predicate FieldMatches(field: Field, value: int) {
    field.Any? || exists i :: 0 <= i < |field.items| && ItemMatches(field.items[i], value)
  }

  /** The items of a field are tried independently; a range is its first value and the range of the rest. */
  lemma FieldIsUnion(items: seq<Item>, more: seq<Item>, first: int, last: int, n: int, value: int)
    ensures FieldMatches(OneOf(items + more), value) <==> FieldMatches(OneOf(items), value) || FieldMatches(OneOf(more), value)
    ensures FieldMatches(OneOf([Range(first, last)]), value) <==>
            first <= last && (value == first || FieldMatches(OneOf([Range(first + 1, last)]), value))
    ensures FieldMatches(OneOf([Number(n)]), value) <==> value == n
    ensures !FieldMatches(OneOf([Junk]), value) && FieldMatches(Any, value) && !FieldMatches(OneOf([]), value)
  {
    AppendedItems(items, more, value);
    assert forall item :: FieldMatches(OneOf([item]), value) <==> ItemMatches([item][0], value);
  }

  lemma AppendedItems(items: seq<Item>, more: seq<Item>, value: int)
    ensures FieldMatches(OneOf(items + more), value) <==> FieldMatches(OneOf(items), value) || FieldMatches(OneOf(more), value)
  {
    var all := items + more;
    if i :| 0 <= i < |items| && ItemMatches(items[i], value) { assert ItemMatches(all[i], value); }
    if i :| 0 <= i < |more| && ItemMatches(more[i], value) { assert ItemMatches(all[|items| + i], value); }
    if i :| 0 <= i < |all| && ItemMatches(all[i], value) {
      if i < |items| { assert ItemMatches(items[i], value); } else { assert ItemMatches(more[i - |items|], value); }
    }
  }

  /** `_matches`: the items are tried in order. */
  method Matches(field: Field, value: int) returns (ok: bool)
    ensures ok <==> FieldMatches(field, value)
  {
    if field.Any? { return true; }
    for i := 0 to |field.items|
      invariant forall k :: 0 <= k < i ==> !ItemMatches(field.items[k], value)
    {
      if ItemMatches(field.items[i], value) { return true; }
    }
    return false;
  }

  /** `schedule_matches`. */
  predicate ScheduleMatches(cron: Expression, m: Moment) {
    && cron.Five?
    && FieldMatches(cron.minute, m.minute) && FieldMatches(cron.hour, m.hour) && FieldMatches(cron.day, m.day)
    && FieldMatches(cron.month, m.month) && FieldMatches(cron.weekday, m.weekday)
  }

  /** Each field restricts its own part of the time: minute, hour, day, month and weekday, in this order. */
  lemma FieldsByPlace(f: Field, m: Moment)
    ensures ScheduleMatches(Five(f, Any, Any, Any, Any), m) <==> FieldMatches(f, m.minute)
    ensures ScheduleMatches(Five(Any, f, Any, Any, Any), m) <==> FieldMatches(f, m.hour)
    ensures ScheduleMatches(Five(Any, Any, f, Any, Any), m) <==> FieldMatches(f, m.day)
    ensures ScheduleMatches(Five(Any, Any, Any, f, Any), m) <==> FieldMatches(f, m.month)
    ensures ScheduleMatches(Five(Any, Any, Any, Any, f), m) <==> FieldMatches(f, m.weekday)
  {
  }

  /** All five must match. */
  lemma FieldsTogether(a: Field, b: Field, c: Field, e: Field, f: Field, m: Moment)
    ensures ScheduleMatches(Five(a, b, c, e, f), m) <==>
            && ScheduleMatches(Five(a, Any, Any, Any, Any), m) && ScheduleMatches(Five(Any, b, Any, Any, Any), m)
            && ScheduleMatches(Five(Any, Any, c, Any, Any), m) && ScheduleMatches(Five(Any, Any, Any, e, Any), m)
            && ScheduleMatches(Five(Any, Any, Any, Any, f), m)
  {
  }

  /** The wall clock: the calendar fields of each minute. */
  type Clock = int -> Moment

  predicate Fires(cron: Expression, clock: Clock, t: int) { ScheduleMatches(cron, clock(t)) }

  /** 366 days of minutes. */
  const WINDOW := 527_040

  /** t is the first matching minute after a given one, within the window. */
  ghost predicate IsNext(cron: Expression, clock: Clock, after: int, t: int) {
    after < t <= after + WINDOW && Fires(cron, clock, t) && forall u :: after < u < t ==> !Fires(cron, clock, u)
  }

  /** `next_fire`, from a whole minute. */
  method NextFire(cron: Expression, clock: Clock, after: int) returns (r: Option<int>)
    ensures r.Some? ==> IsNext(cron, clock, after, r.value)
    ensures r.None? ==> forall t :: !IsNext(cron, clock, after, t)
  {
    var current := after + 1;
    for k := 0 to WINDOW
      invariant current == after + 1 + k
      invariant forall u :: after < u < current ==> !Fires(cron, clock, u)
    {
      if Fires(cron, clock, current) { return Some(current); }
      current := current + 1;
    }
    return None;
  }

  /** `_missed_since`; the marker is None when there is none or it does not parse. */
  method MissedSince(cron: Expression, clock: Clock, marker: Option<int>, now: int) returns (missed: bool)
    ensures missed <==> marker.Some? && exists t :: t <= now && IsNext(cron, clock, marker.value, t)
  {
    if marker.None? { return false; }
    var cursor := marker.value + 1;
    for k := 0 to WINDOW
      invariant cursor == marker.value + 1 + k
      invariant forall u :: marker.value < u < cursor ==> !Fires(cron, clock, u)
    {
      if cursor > now { return false; }
      if Fires(cron, clock, cursor) {
        assert IsNext(cron, clock, marker.value, cursor);
        return true;
      }
      cursor := cursor + 1;
    }
    return false;
  }

  /** The first firing after a minute exists in the window exactly when some firing does. */
  lemma {:induction false} NextExists(cron: Expression, clock: Clock, after: int, t: int)
    requires after < t <= after + WINDOW && Fires(cron, clock, t)
    ensures exists u :: u <= t && IsNext(cron, clock, after, u)
    decreases t - after
  {
    if u :| after < u < t && Fires(cron, clock, u) {
      NextExists(cron, clock, after, u);
    } else {
      assert IsNext(cron, clock, after, t);
    }
  }

  /** A schedule was missed since its marker exactly when it fired between the marker and now, in the window
      after the marker. */
  lemma MissedMeansFired(cron: Expression, clock: Clock, marker: int, now: int)
    ensures (exists t :: t <= now && IsNext(cron, clock, marker, t)) <==>
            exists t :: marker < t <= now && t <= marker + WINDOW && Fires(cron, clock, t)
  {
    if t :| marker < t <= now && t <= marker + WINDOW && Fires(cron, clock, t) {
      NextExists(cron, clock, marker, t);
    }
    if t :| t <= now && IsNext(cron, clock, marker, t) {
      assert marker < t <= now && t <= marker + WINDOW && Fires(cron, clock, t);
    }
  }
}
