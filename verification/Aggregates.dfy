/** src/activity/AggregatedActivity.ts: up to 15 activities of one group, with counters. */
module Aggregates {
  import opened Results
  import opened Activities
  import Decimal

  const MAX_AGGREGATED_ACTIVITIES_LENGTH := 15

  /** The state of an aggregate. A date is truthy exactly when it is Some. */
  datatype Agg = Agg(
    group: string,
    activities: seq<Activity>,
    createdAt: Option<int>,
    updatedAt: Option<int>,
    seenAt: Option<int>,
    readAt: Option<int>,
    minimized: nat,
    activityIds: seq<string>,
    dehydrated: bool)

  function New(group: string): Agg {
    Agg(group, [], None, None, None, None, 0, [], false)
  }

  predicate Holds(activities: seq<Activity>, id: string) {
    exists i :: 0 <= i < |activities| && activities[i].id == id
  }

  function ActivityCount(a: Agg): nat { a.minimized + |a.activities| }

  /** `pop(0)` ignores its argument in JavaScript: beyond 15 the newest activity is dropped. */
  function Appended(a: Agg, x: Activity): Result<Agg> {
    if Holds(a.activities, x.id) then Err(DuplicateActivity)
    else
      var full := |a.activities| + 1 > MAX_AGGREGATED_ACTIVITIES_LENGTH;
      Ok(a.(activities := if full then a.activities else a.activities + [x],
            createdAt := if a.createdAt.None? then Some(x.time) else a.createdAt,
            updatedAt := if a.updatedAt.None? || x.time > a.updatedAt.value then Some(x.time) else a.updatedAt,
            minimized := if full then a.minimized + 1 else a.minimized))
  }

  /** `filter(a => a.serializationId != id)`. */
  function Drop(activities: seq<Activity>, id: string): seq<Activity> {
    if activities == [] then []
    else (if activities[0].id == id then [] else [activities[0]]) + Drop(activities[1..], id)
  }

  function Last(activities: seq<Activity>): Option<int> {
    if activities == [] then None else Some(activities[|activities| - 1].time)
  }

  /** `last_activity` reads index -1, which is meant to be the last element: read literally
      it is undefined, and every removal that gets this far would throw a TypeError. */
  function Removed(a: Agg, id: string): Result<Agg> {
    if !Holds(a.activities, id) then Err(ActivityNotFound)
    else if |a.activities| == 1 then Err(ValueError)
    else
      var left := Drop(a.activities, id);
      Ok(a.(activities := left,
            updatedAt := Last(left),
            minimized := if a.minimized > 0 then a.minimized - 1 else 0))
  }

  function RemovedAll(a: Agg, ids: seq<string>): (Agg, bool)
    decreases |ids|
  {
    if ids == [] then (a, true)
    else
      var r := Removed(a, ids[0]);
      if r.Err? then (a, false) else RemovedAll(r.value, ids[1..])
  }

  function Dehydrate(a: Agg): Agg {
    a.(activityIds := IdsOf(a.activities), activities := [], dehydrated := true)
  }

  function Bodies(ids: seq<string>, data: map<string, Activity>): seq<Activity>
    requires forall i :: 0 <= i < |ids| ==> ids[i] in data
  {
    seq(|ids|, i requires 0 <= i < |ids| => data[ids[i]])
  }

  function Hydrate(a: Agg, data: map<string, Activity>): Agg
    requires forall i :: 0 <= i < |a.activityIds| ==> a.activityIds[i] in data
  {
    a.(activities := a.activities + Bodies(a.activityIds, data), activityIds := [], dehydrated := false)
  }

  // ---- laws ----

  /** Hydrating what was dehydrated gives back the same aggregate, activities in order. */
  lemma HydrateInvertsDehydrate(a: Agg, data: map<string, Activity>)
    requires !a.dehydrated && a.activityIds == []
    requires forall i :: 0 <= i < |a.activities| ==>
               a.activities[i].id in data && data[a.activities[i].id] == a.activities[i]
    ensures forall i :: 0 <= i < |Dehydrate(a).activityIds| ==> Dehydrate(a).activityIds[i] in data
    ensures Hydrate(Dehydrate(a), data) == a
  {
    assert [] + Bodies(IdsOf(a.activities), data) == a.activities;
  }

  lemma HoldsSplit(head: Activity, tail: seq<Activity>, id: string)
    ensures Holds([head] + tail, id) <==> head.id == id || Holds(tail, id)
  {
    var all := [head] + tail;
    assert all[0] == head && forall i :: 0 <= i < |tail| ==> all[i + 1] == tail[i];
  }

  lemma {:induction false} DropMembers(activities: seq<Activity>, id: string)
    ensures forall x :: x in Drop(activities, id) <==> x in activities && x.id != id
    ensures !Holds(activities, id) ==> Drop(activities, id) == activities
  {
    if activities != [] {
      var head, tail := activities[0], activities[1..];
      assert activities == [head] + tail;
      DropMembers(tail, id);
      HoldsSplit(head, tail, id);
    }
  }

  lemma DistinctSplit(head: Activity, tail: seq<Activity>)
    ensures DistinctIds([head] + tail) <==> DistinctIds(tail) && !Holds(tail, head.id)
  {
    var all := [head] + tail;
    assert all[0] == head && forall i :: 0 <= i < |tail| ==> all[i + 1] == tail[i];
  }

  lemma DistinctSnoc(rest: seq<Activity>, x: Activity)
    ensures DistinctIds(rest + [x]) <==> DistinctIds(rest) && !Holds(rest, x.id)
  {
    var all := rest + [x];
    assert all[|rest|] == x && forall i :: 0 <= i < |rest| ==> all[i] == rest[i];
  }

  lemma {:induction false} DropRemovesExactly(activities: seq<Activity>, id: string)
    requires DistinctIds(activities)
    ensures DistinctIds(Drop(activities, id))
    ensures forall x :: x in Drop(activities, id) <==> x in activities && x.id != id
    ensures |Drop(activities, id)| == |activities| - if Holds(activities, id) then 1 else 0
  {
    DropMembers(activities, id);
    if activities != [] {
      var head, tail := activities[0], activities[1..];
      var left := Drop(tail, id);
      assert activities == [head] + tail;
      assert Drop(activities, id) == if head.id == id then left else [head] + left;
      DistinctSplit(head, tail);
      HoldsSplit(head, tail, id);
      DropRemovesExactly(tail, id);
      if head.id == id {
        DropMembers(tail, id);
      } else {
        hide Drop;
        forall i | 0 <= i < |left| ensures left[i].id != head.id {
          assert left[i] in tail;
        }
        DistinctSplit(head, left);
      }
    }
  }

  /** Where it sits it is cut out, and the others keep their order. */
  lemma {:induction false} DropCuts(activities: seq<Activity>, id: string, k: nat)
    requires DistinctIds(activities) && k < |activities| && activities[k].id == id
    ensures Drop(activities, id) == activities[..k] + activities[k + 1..]
  {
    var head, tail := activities[0], activities[1..];
    assert activities == [head] + tail;
    DistinctSplit(head, tail);
    if k == 0 {
      DropMembers(tail, id);
    } else {
      DropCuts(tail, id, k - 1);
      assert activities[..k] == [head] + tail[..k - 1] && activities[k + 1..] == tail[k..];
    }
  }

  /** A removal dates the aggregate from the last activity it leaves. */
  lemma RemovalDates(a: Agg, id: string, k: nat)
    requires Removed(a, id).Ok? && k < |a.activities| && a.activities[k].id != id
    requires forall j :: k < j < |a.activities| ==> a.activities[j].id == id
    ensures Removed(a, id).value.updatedAt == Some(a.activities[k].time)
  {
    LastDropped(a.activities, id, k);
  }

  lemma {:induction false} LastDropped(activities: seq<Activity>, id: string, k: nat)
    requires k < |activities| && activities[k].id != id
    requires forall j :: k < j < |activities| ==> activities[j].id == id
    ensures var left := Drop(activities, id); left != [] && left[|left| - 1] == activities[k]
  {
    var tail := activities[1..];
    if k > 0 {
      LastDropped(tail, id, k - 1);
    } else if tail != [] {
      AllDropped(tail, id);
    }
  }

  lemma {:induction false} AllDropped(activities: seq<Activity>, id: string)
    requires forall j :: 0 <= j < |activities| ==> activities[j].id == id
    ensures Drop(activities, id) == []
  {
    if activities != [] {
      AllDropped(activities[1..], id);
    }
  }

  /** Removing one by one stops at the first that fails: what came before it is gone, what
      comes after it stays. */
  lemma {:induction false} RemovalStopsAt(a: Agg, ids: seq<string>, k: nat)
    requires k < |ids| && RemovedAll(a, ids[..k]).1 && Removed(RemovedAll(a, ids[..k]).0, ids[k]).Err?
    ensures RemovedAll(a, ids) == (RemovedAll(a, ids[..k]).0, false)
    decreases k
  {
    if k > 0 {
      assert ids[..k][0] == ids[0] && ids[..k][1..] == ids[1..][..k - 1] && ids[1..][k - 1] == ids[k];
      RemovalStopsAt(Removed(a, ids[0]).value, ids[1..], k - 1);
    }
  }

  // ---- accounting over whole runs ----

  datatype Event = Appends(x: Activity) | Removes(id: string)

  datatype Tally = Tally(agg: Agg, appended: nat, removed: nat, damped: nat)

  /** One event; one that throws leaves the aggregate as it was. `damped` counts the
      removals made while some activities were minimized. */
  function Account(t: Tally, e: Event): Tally {
    match e
    case Appends(x) =>
      var r := Appended(t.agg, x);
      if r.Err? then t else t.(agg := r.value, appended := t.appended + 1)
    case Removes(id) =>
      var r := Removed(t.agg, id);
      if r.Err? then t
      else t.(agg := r.value, removed := t.removed + 1,
              damped := if t.agg.minimized > 0 then t.damped + 1 else t.damped)
  }

  function History(group: string, events: seq<Event>): Tally {
    if events == [] then Tally(New(group), 0, 0, 0)
    else Account(History(group, events[..|events| - 1]), events[|events| - 1])
  }

  ghost predicate Balanced(t: Tally) {
    DistinctIds(t.agg.activities) && |t.agg.activities| <= MAX_AGGREGATED_ACTIVITIES_LENGTH &&
    ActivityCount(t.agg) == t.appended - t.removed - t.damped &&
    (t.appended > 0 ==> |t.agg.activities| > 0)
  }

  lemma AccountKeepsBalance(t: Tally, e: Event)
    requires Balanced(t)
    ensures Balanced(Account(t, e))
  {
    match e
    case Appends(x) =>
      if !Holds(t.agg.activities, x.id) {
        assert DistinctIds(t.agg.activities + [x]);
      }
    case Removes(id) => DropRemovesExactly(t.agg.activities, id);
  }

  /** From a new aggregate, every run keeps at most 15 activities, all distinct and never
      none again, and its count is appends minus removals minus the removals that were
      counted twice because they also took one off the minimized number. */
  lemma {:induction false} ExactAccounting(group: string, events: seq<Event>)
    ensures Balanced(History(group, events))
  {
    if events != [] {
      ExactAccounting(group, events[..|events| - 1]);
      AccountKeepsBalance(History(group, events[..|events| - 1]), events[|events| - 1]);
    }
  }

  // ---- append-only runs ----

  function AppendAll(a: Agg, xs: seq<Activity>): Result<Agg> {
    if xs == [] then Ok(a)
    else
      var r := AppendAll(a, xs[..|xs| - 1]);
      if r.Err? then r else Appended(r.value, xs[|xs| - 1])
  }

  function MaxTime(start: Option<int>, xs: seq<Activity>): Option<int> {
    if xs == [] then start
    else
      var m := MaxTime(start, xs[..|xs| - 1]);
      var t := xs[|xs| - 1].time;
      if m.None? || t > m.value then Some(t) else m
  }

  function Cap(n: int): int { if n < MAX_AGGREGATED_ACTIVITIES_LENGTH then n else MAX_AGGREGATED_ACTIVITIES_LENGTH }

  /** What appending `xs` to `a` amounts to when no id repeats: the earliest 15 stay, the
      rest is only counted, and the dates span everything seen. */
  function Grown(a: Agg, xs: seq<Activity>): Agg
    requires |a.activities| <= MAX_AGGREGATED_ACTIVITIES_LENGTH
  {
    var all := a.activities + xs;
    a.(activities := all[..Cap(|all|)],
       createdAt := if a.createdAt.None? && xs != [] then Some(xs[0].time) else a.createdAt,
       updatedAt := MaxTime(a.updatedAt, xs),
       minimized := a.minimized + |all| - Cap(|all|))
  }

  lemma FreshId(all: seq<Activity>, x: Activity, n: nat)
    requires DistinctIds(all + [x]) && n <= |all|
    ensures !Holds(all[..n], x.id)
  {
    forall i | 0 <= i < n ensures all[..n][i].id != x.id {
      assert (all + [x])[i] == all[i] && (all + [x])[|all|] == x;
    }
  }

  lemma CutSnoc(before: seq<Activity>, x: Activity)
    ensures (before + [x])[..Cap(|before| + 1)]
         == if |before| < MAX_AGGREGATED_ACTIVITIES_LENGTH then before[..Cap(|before|)] + [x] else before[..Cap(|before|)]
  {
  }

  lemma MaxTimeSnoc(start: Option<int>, rest: seq<Activity>, x: Activity)
    ensures var m := MaxTime(start, rest);
      MaxTime(start, rest + [x]) == if m.None? || x.time > m.value then Some(x.time) else m
  {
    assert (rest + [x])[..|rest|] == rest;
  }

  lemma GrownStep(a: Agg, rest: seq<Activity>, x: Activity)
    requires |a.activities| <= MAX_AGGREGATED_ACTIVITIES_LENGTH && !Holds(Grown(a, rest).activities, x.id)
    ensures Appended(Grown(a, rest), x) == Ok(Grown(a, rest + [x]))
  {
    hide MaxTime, Holds;
    var before, xs := a.activities + rest, rest + [x];
    CutSnoc(before, x);
    MaxTimeSnoc(a.updatedAt, rest, x);
    assert a.activities + xs == before + [x];
    assert rest != [] ==> rest[0] == xs[0];
  }

  /** `latest` is the maximum of `start` and the times of `xs`: reached, and never exceeded. */
  ghost predicate IsLatest(latest: Option<int>, start: Option<int>, xs: seq<Activity>) {
    (latest.None? <==> start.None? && xs == []) &&
    (latest.Some? ==>
       (latest == start || exists i :: 0 <= i < |xs| && xs[i].time == latest.value) &&
       (start.Some? ==> start.value <= latest.value) &&
       forall i :: 0 <= i < |xs| ==> xs[i].time <= latest.value)
  }

  lemma {:induction false} MaxTimeIsLatest(start: Option<int>, xs: seq<Activity>)
    ensures IsLatest(MaxTime(start, xs), start, xs)
  {
    if xs != [] {
      var rest, x := xs[..|xs| - 1], xs[|xs| - 1];
      MaxTimeIsLatest(start, rest);
      assert forall i :: 0 <= i < |rest| ==> rest[i] == xs[i];
      assert xs[|xs| - 1] == x;
    }
  }

  /** The activities a run appended successfully, in order. */
  function Succeeded(group: string, events: seq<Event>): seq<Activity> {
    if events == [] then []
    else
      var before, e := events[..|events| - 1], events[|events| - 1];
      Succeeded(group, before) +
      if e.Appends? && Appended(History(group, before).agg, e.x).Ok? then [e.x] else []
  }

  /** Every append-only run, with whatever ids repeated: the aggregate is grown by the
      successful appends, so `updated_at` is the latest of their times. */
  lemma {:induction false} AppendOnlyRun(group: string, events: seq<Event>)
    requires forall i :: 0 <= i < |events| ==> events[i].Appends?
    ensures var t, xs := History(group, events), Succeeded(group, events);
            t.agg == Grown(New(group), xs) && t.appended == |xs| && t.removed == 0 &&
            IsLatest(t.agg.updatedAt, None, xs) && (xs != [] ==> t.agg.createdAt == Some(xs[0].time))
  {
    hide History, Succeeded, MaxTime;
    GrownBySuccesses(group, events);
    MaxTimeIsLatest(None, Succeeded(group, events));
  }

  lemma AppendedIff(a: Agg, x: Activity)
    ensures Appended(a, x).Ok? <==> !Holds(a.activities, x.id)
  {
  }

  lemma {:induction false} GrownBySuccesses(group: string, events: seq<Event>)
    requires forall i :: 0 <= i < |events| ==> events[i].Appends?
    ensures var t, xs := History(group, events), Succeeded(group, events);
            t.agg == Grown(New(group), xs) && t.appended == |xs| && t.removed == 0
  {
    if events == [] {
      GrownNothing(group);
    } else {
      var before, x := events[..|events| - 1], events[|events| - 1].x;
      GrownBySuccesses(group, before);
      var a := Grown(New(group), Succeeded(group, before));
      AppendedIff(a, x);
      if !Holds(a.activities, x.id) {
        GrownStep(New(group), Succeeded(group, before), x);
      }
      hide Grown, Appended, Holds;
      assert Succeeded(group, before) + [] == Succeeded(group, before);
      assert History(group, events) == Account(History(group, before), Appends(x));
    }
  }

  lemma GrownNothing(group: string)
    ensures Grown(New(group), []) == New(group)
  {
    assert New(group).activities + [] == [];
  }

  lemma {:induction false} AppendAllGrows(a: Agg, xs: seq<Activity>)
    requires |a.activities| <= MAX_AGGREGATED_ACTIVITIES_LENGTH && DistinctIds(a.activities + xs)
    ensures AppendAll(a, xs) == Ok(Grown(a, xs))
  {
    if xs == [] {
      assert a.activities + xs == a.activities;
      assert a.activities[..|a.activities|] == a.activities;
    } else {
      var rest, x := xs[..|xs| - 1], xs[|xs| - 1];
      assert xs == rest + [x] && a.activities + xs == a.activities + rest + [x];
      DistinctPrefix(a.activities + rest, [x]);
      AppendAllGrows(a, rest);
      FreshId(a.activities + rest, x, Cap(|a.activities + rest|));
      GrownStep(a, rest, x);
    }
  }

  lemma DistinctPrefix(a: seq<Activity>, b: seq<Activity>)
    requires DistinctIds(a + b)
    ensures DistinctIds(a) && DistinctIds(b)
  {
    assert forall i :: 0 <= i < |a| ==> a[i] == (a + b)[i];
    assert forall i :: 0 <= i < |b| ==> b[i] == (a + b)[|a| + i];
  }

  /** Appending one list after another. */
  lemma MaxTimeConcat(start: Option<int>, xs: seq<Activity>, ys: seq<Activity>)
    ensures MaxTime(start, xs + ys) == MaxTime(MaxTime(start, xs), ys)
    decreases |ys|
  {
    if ys == [] {
      assert xs + ys == xs;
    } else {
      assert (xs + ys)[..|xs + ys| - 1] == xs + ys[..|ys| - 1];
      MaxTimeConcat(start, xs, ys[..|ys| - 1]);
    }
  }

  lemma CutTwice(s: seq<Activity>, xs: seq<Activity>, ys: seq<Activity>)
    requires |s| <= MAX_AGGREGATED_ACTIVITIES_LENGTH
    ensures var kept := (s + xs)[..Cap(|s + xs|)];
      (kept + ys)[..Cap(|kept + ys|)] == (s + (xs + ys))[..Cap(|s + (xs + ys)|)]
  {
  }

  lemma GrownTwice(a: Agg, xs: seq<Activity>, ys: seq<Activity>)
    requires |a.activities| <= MAX_AGGREGATED_ACTIVITIES_LENGTH
    ensures Grown(Grown(a, xs), ys) == Grown(a, xs + ys)
  {
    hide MaxTime;
    MaxTimeConcat(a.updatedAt, xs, ys);
    CutTwice(a.activities, xs, ys);
  }

  // ---- the class ----

  /** The object, with the record above as its fields. */
  class AggregatedActivity {
    var agg: Agg

    constructor (group: string)
      ensures agg == New(group)
    {
      agg := New(group);
    }

    /** Clones the given state (lodash `cloneDeep`). */
    constructor Clone(original: Agg)
      ensures agg == original
    {
      agg := original;
    }

    method Contains(id: string) returns (found: bool)
      ensures found == Holds(agg.activities, id)
    {
      var i := 0;
      while i < |agg.activities| && agg.activities[i].id != id
        invariant i <= |agg.activities| && forall j :: 0 <= j < i ==> agg.activities[j].id != id
      {
        i := i + 1;
      }
      found := i < |agg.activities|;
    }

    method Append(x: Activity) returns (r: Result<()>)
      modifies this
      ensures r.Err? <==> Appended(old(agg), x).Err?
      ensures r.Err? ==> r.error == DuplicateActivity && agg == old(agg)
      ensures r.Ok? ==> Appended(old(agg), x) == Ok(agg)
    {
      var duplicate := Contains(x.id);
      if duplicate {
        return Err(DuplicateActivity);
      }
      agg := agg.(activities := agg.activities + [x]);
      if agg.createdAt.None? {
        agg := agg.(createdAt := Some(x.time));
      }
      if agg.updatedAt.None? || x.time > agg.updatedAt.value {
        agg := agg.(updatedAt := Some(x.time));
      }
      if |agg.activities| > MAX_AGGREGATED_ACTIVITIES_LENGTH {
        agg := agg.(activities := agg.activities[..|agg.activities| - 1], minimized := agg.minimized + 1);
        assert agg.activities == old(agg).activities;
      }
      r := Ok(());
    }

    method Remove(id: string) returns (r: Result<()>)
      modifies this
      ensures r.Err? <==> Removed(old(agg), id).Err?
      ensures r.Err? ==> Removed(old(agg), id) == Err(r.error) && agg == old(agg)
      ensures r.Ok? ==> Removed(old(agg), id) == Ok(agg)
    {
      var found := Contains(id);
      if !found {
        return Err(ActivityNotFound);
      }
      if |agg.activities| == 1 {
        return Err(ValueError);
      }
      agg := agg.(activities := Drop(agg.activities, id));
      agg := agg.(updatedAt := Last(agg.activities));
      if agg.minimized > 0 {
        agg := agg.(minimized := agg.minimized - 1);
      }
      r := Ok(());
    }

    /** Every failure is reported as "not found"; what was removed before it stays removed. */
    method RemoveMany(ids: seq<string>) returns (r: Result<seq<string>>)
      modifies this
      ensures (agg, r.Ok?) == RemovedAll(old(agg), ids)
      ensures r == if r.Ok? then Ok(ids) else Err(ActivityNotFound)
    {
      var removed := [];
      for i := 0 to |ids|
        invariant removed == ids[..i]
        invariant RemovedAll(old(agg), ids) == RemovedAll(agg, ids[i..])
      {
        var step := Remove(ids[i]);
        assert ids[i..][0] == ids[i] && ids[i..][1..] == ids[i + 1..];
        if step.Err? {
          return Err(ActivityNotFound);
        }
        removed := removed + [ids[i]];
      }
      assert ids[|ids|..] == [] && ids[..|ids|] == ids;
      r := Ok(removed);
    }

    method GetDehydrated() returns (r: Result<()>)
      modifies this
      ensures r == if old(agg).dehydrated then Err(ValueError) else Ok(())
      ensures agg == if old(agg).dehydrated then old(agg) else Dehydrate(old(agg))
    {
      if agg.dehydrated {
        return Err(ValueError);
      }
      var ids := [];
      for i := 0 to |agg.activities|
        invariant agg == old(agg) && ids == IdsOf(agg.activities)[..i]
      {
        ids := ids + [agg.activities[i].id];
      }
      agg := agg.(activityIds := ids, activities := [], dehydrated := true);
      r := Ok(());
    }

    /** The bodies were deserialized before, so none of them is missing here. */
    method GetHydrated(data: map<string, Activity>) returns (r: Result<()>)
      requires forall i :: 0 <= i < |agg.activityIds| ==> agg.activityIds[i] in data
      modifies this
      ensures r == if old(agg).dehydrated then Ok(()) else Err(ValueError)
      ensures agg == if old(agg).dehydrated then Hydrate(old(agg), data) else old(agg)
    {
      if !agg.dehydrated {
        return Err(ValueError);
      }
      var ids, before := agg.activityIds, agg.activities;
      for i := 0 to |ids|
        invariant agg == old(agg).(activities := before + Bodies(ids, data)[..i])
      {
        agg := agg.(activities := agg.activities + [data[ids[i]]]);
      }
      agg := agg.(activityIds := [], dehydrated := false);
      r := Ok(());
    }
  }

  function SerializationIdOf(a: Agg): string {
    var ms := UpdateTime(a);
    if ms < 0 then "-" + Decimal.Digits(-ms) else Decimal.Digits(ms)
  }

  /** The update time, a missing one counting as 1970. */
  function UpdateTime(a: Agg): int { if a.updatedAt.None? then 0 else a.updatedAt.value }

  /** Two aggregates share a serialization id exactly when they share the update time. */
  lemma SerializationIdIsUpdateTime(a: Agg, b: Agg)
    ensures SerializationIdOf(a) == SerializationIdOf(b) <==> UpdateTime(a) == UpdateTime(b)
    ensures a.updatedAt.Some? && b.updatedAt.Some? ==>
      (SerializationIdOf(a) == SerializationIdOf(b) <==> a.updatedAt == b.updatedAt)
    ensures a.updatedAt.None? ==>
      (SerializationIdOf(a) == SerializationIdOf(b) <==> b.updatedAt.None? || b.updatedAt == Some(0))
  {
    hide Decimal.Digits;
    if SerializationIdOf(a) == SerializationIdOf(b) {
      SignedDigitsAreInjective(UpdateTime(a), UpdateTime(b));
    }
  }

  /** It is the update time in decimal. */
  lemma SerializationIdReads(a: Agg)
    requires a.updatedAt.Some?
    ensures var ms, id := a.updatedAt.value, SerializationIdOf(a);
      if ms < 0 then id != "" && id[0] == '-' && Decimal.ParseNat(id[1..]) == Some(-ms) else Decimal.ParseNat(id) == Some(ms)
  {
    var ms := a.updatedAt.value;
    Decimal.DigitsRoundTrip(if ms < 0 then -ms else ms);
  }

  lemma SignedDigitsAreInjective(m: int, n: int)
    requires (if m < 0 then "-" + Decimal.Digits(-m) else Decimal.Digits(m))
          == if n < 0 then "-" + Decimal.Digits(-n) else Decimal.Digits(n)
    ensures m == n
  {
    hide Decimal.Digits;
    var p, q: nat := if m < 0 then -m else m, if n < 0 then -n else n;
    var s, t := Decimal.Digits(p), Decimal.Digits(q);
    assert Decimal.IsDigit(s[0]) && Decimal.IsDigit(t[0]);
    assert ("-" + s)[0] == '-' && ("-" + t)[0] == '-' && ("-" + s)[1..] == s && ("-" + t)[1..] == t;
    Decimal.DigitsAreInjective(p, q);
  }
}
