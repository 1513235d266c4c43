/** The two operations of an aggregated feed on the aggregates themselves, and the proof that
    the diffs the feed writes back carry them out on the sorted set. */
module AggregateSteps {
  import opened Ranking
  import opened Results
  import opened Activities
  import opened Aggregates
  import opened Aggregator
  import opened AggregatedSerializer
  import opened AggregateStore
  import opened WriteBack
  import HashCache
  import Hydration
  import Sorting

  // ---- adding ----

  /** Activities whose bodies are stored and whose groups can be serialized. */
  ghost predicate Addable(xs: seq<Activity>, groupOf: Grouping, store: Hydration.Store) {
    forall i :: 0 <= i < |xs| ==> Known(xs[i], store) && GroupFits(groupOf(xs[i]))
  }

  /** Every group the batch touches is new or inside the window that was read. */
  ghost predicate TouchesOnly(xs: seq<Activity>, groups: Groups, window: Groups, groupOf: Grouping) {
    forall i :: 0 <= i < |xs| && groupOf(xs[i]) in groups ==> groupOf(xs[i]) in window
  }

  lemma AppendKeepsGood(a: Agg, x: Activity, groupOf: Grouping, store: Hydration.Store)
    requires a == New(groupOf(x)) || Good(a, groupOf, store)
    requires a.group == groupOf(x) && Known(x, store) && GroupFits(groupOf(x)) && Appended(a, x).Ok?
    ensures Good(Appended(a, x).value, groupOf, store) && Appended(a, x).value.group == a.group
  {
    var b := Appended(a, x).value;
    assert DistinctIds(b.activities);
    forall i | 0 <= i < |b.activities| ensures Known(b.activities[i], store) && groupOf(b.activities[i]) == a.group {
      assert i < |a.activities| ==> b.activities[i] == a.activities[i];
    }
  }

  lemma {:induction false} GroupFoldGood(s: seq<Activity>, groupOf: Grouping, store: Hydration.Store)
    requires Addable(s, groupOf, store) && GroupFold(s, groupOf).Ok?
    ensures forall g :: g in GroupFold(s, groupOf).value ==>
      Good(GroupFold(s, groupOf).value[g], groupOf, store) && GroupFold(s, groupOf).value[g].group == g &&
      exists i :: 0 <= i < |s| && groupOf(s[i]) == g
  {
    if s != [] {
      var rest, x := s[..|s| - 1], s[|s| - 1];
      GroupFoldGood(rest, groupOf, store);
      var m := GroupFold(rest, groupOf).value;
      AppendKeepsGood(Current(m, groupOf(x)), x, groupOf, store);
      forall g | g in GroupFold(s, groupOf).value ensures exists i :: 0 <= i < |s| && groupOf(s[i]) == g {
        if g == groupOf(x) {
          assert groupOf(s[|s| - 1]) == g;
        } else {
          var i :| 0 <= i < |rest| && groupOf(rest[i]) == g;
          assert s[i] == rest[i];
        }
      }
    }
  }

  lemma {:induction false} AppendAllKeepsGood(a: Agg, xs: seq<Activity>, groupOf: Grouping, store: Hydration.Store)
    requires Good(a, groupOf, store) && AppendAll(a, xs).Ok?
    requires forall i :: 0 <= i < |xs| ==> Known(xs[i], store) && groupOf(xs[i]) == a.group
    ensures Good(AppendAll(a, xs).value, groupOf, store) && AppendAll(a, xs).value.group == a.group
  {
    if xs != [] {
      var rest := xs[..|xs| - 1];
      AppendAllKeepsGood(a, rest, groupOf, store);
      AppendKeepsGood(AppendAll(a, rest).value, xs[|xs| - 1], groupOf, store);
    }
  }

  ghost predicate AllGood(groups: Groups, groupOf: Grouping, store: Hydration.Store) {
    forall g :: g in groups ==> groups[g].group == g && Good(groups[g], groupOf, store)
  }

  lemma DiffKeepsGood(cur: Groups, new_: Groups, groupOf: Grouping, store: Hydration.Store)
    requires AllGood(cur, groupOf, store) && AllGood(new_, groupOf, store) && Mergeable(cur, new_)
    ensures AllGood(Apply(cur, DiffOf(cur, new_)), groupOf, store)
  {
    forall g | g in cur && g in new_
      ensures Good(AppendAll(cur[g], new_[g].activities).value, groupOf, store) &&
              AppendAll(cur[g], new_[g].activities).value.group == g
    {
      AppendAllKeepsGood(cur[g], new_[g].activities, groupOf, store);
    }
  }

  lemma SortedAddable(xs: seq<Activity>, groupOf: Grouping, store: Hydration.Store)
    requires Addable(xs, groupOf, store)
    ensures Addable(SortById(xs), groupOf, store)
    ensures forall g :: BringsGroup(SortById(xs), g, groupOf) ==> BringsGroup(xs, g, groupOf)
  {
    Sorting.SortPermutes(xs, LaterId);
    var s := SortById(xs);
    forall i | 0 <= i < |s| ensures s[i] in xs {
      assert s[i] in multiset(xs);
    }
  }

  ghost predicate BringsGroup(xs: seq<Activity>, g: string, groupOf: Grouping) {
    exists i :: 0 <= i < |xs| && groupOf(xs[i]) == g
  }

  /** Merging into the window is merging into everything, when the batch stays inside it. */
  lemma WindowSuffices(groups: Groups, window: Groups, xs: seq<Activity>, groupOf: Grouping, store: Hydration.Store)
    requires Addable(xs, groupOf, store) && TouchesOnly(xs, groups, window, groupOf)
    requires forall g :: g in window ==> g in groups && window[g] == groups[g]
    ensures MergeMap(window, xs, groupOf) == MergeMap(groups, xs, groupOf)
  {
    SortedAddable(xs, groupOf, store);
    var fold := GroupFold(SortById(xs), groupOf);
    if fold.Ok? {
      GroupFoldGood(SortById(xs), groupOf, store);
      forall g | g in fold.value ensures g in groups <==> g in window {
        assert BringsGroup(SortById(xs), g, groupOf);
        var i :| 0 <= i < |xs| && groupOf(xs[i]) == g;
      }
      SameDiff(window, groups, fold.value);
    }
  }

  lemma SameDiff(window: Groups, groups: Groups, new_: Groups)
    requires forall g :: g in window ==> g in groups && window[g] == groups[g]
    requires forall g :: g in new_ ==> (g in groups <==> g in window)
    ensures Mergeable(window, new_) <==> Mergeable(groups, new_)
    ensures Mergeable(groups, new_) ==> DiffOf(window, new_) == DiffOf(groups, new_)
  {
    if Mergeable(window, new_) {
      forall g | g in groups && g in new_ ensures AppendAll(groups[g], new_[g].activities).Ok? {
        assert g in window;
      }
    }
  }

  function Firsts(changed: seq<(Agg, Agg)>): seq<Agg> {
    seq(|changed|, i requires 0 <= i < |changed| => changed[i].0)
  }

  function Seconds(changed: seq<(Agg, Agg)>): seq<Agg> {
    seq(|changed|, i requires 0 <= i < |changed| => changed[i].1)
  }

  /** The diff of an addition explains the merged aggregates. */
  lemma AddExplains(groups: Groups, new_: Groups, latest: seq<Agg>, changed: seq<(Agg, Agg)>)
    requires Aggregator.Keyed(groups) && Mergeable(groups, new_)
    requires Aggregator.Keyed(Apply(groups, DiffOf(groups, new_)))
    requires Lists(latest, DiffOf(groups, new_).latest) && Pairs(changed, groups, DiffOf(groups, new_).changed)
    ensures Explains(groups, Apply(groups, DiffOf(groups, new_)), Firsts(changed), latest + Seconds(changed))
  {
    var d := DiffOf(groups, new_);
    var after, toRemove, toAdd := Apply(groups, d), Firsts(changed), latest + Seconds(changed);
    AddSources(groups, d, latest, changed);
    forall g | g in d.changed ensures Has(toRemove, g) && Has(toAdd, g) {
      var i :| 0 <= i < |changed| && changed[i].0.group == g;
      assert toRemove[i].group == g && toAdd[|latest| + i].group == g;
    }
    forall g | g in d.latest ensures Has(toAdd, g) {
      var i :| 0 <= i < |latest| && latest[i].group == g;
      assert toAdd[i].group == g;
    }
    forall g | Has(toRemove, g) ensures g in d.changed {
      var i :| 0 <= i < |toRemove| && toRemove[i].group == g;
      assert changed[i].0.group == g;
    }
  }

  lemma ListedInApplied(groups: Groups, d: Diff, latest: seq<Agg>)
    requires d.latest.Keys !! groups.Keys && d.changed.Keys <= groups.Keys && Lists(latest, d.latest)
    ensures From(latest, Apply(groups, d))
  {
  }

  lemma AddSources(groups: Groups, d: Diff, latest: seq<Agg>, changed: seq<(Agg, Agg)>)
    requires Aggregator.Keyed(groups) && Aggregator.Keyed(Apply(groups, d))
    requires d.latest.Keys !! groups.Keys && d.changed.Keys <= groups.Keys
    requires Lists(latest, d.latest) && Pairs(changed, groups, d.changed)
    ensures From(Firsts(changed), groups) && From(latest + Seconds(changed), Apply(groups, d))
    ensures forall i :: 0 <= i < |changed| ==> changed[i].1.group == changed[i].0.group
  {
    var more, after := Seconds(changed), Apply(groups, d);
    forall i | 0 <= i < |changed| ensures changed[i].1.group == changed[i].0.group && after[changed[i].1.group] == changed[i].1 {
      assert after[changed[i].0.group] == changed[i].1;
    }
    ListedInApplied(groups, d, latest);
    assert From(more, after);
    hide Lists, Apply;
    FromBoth(latest, more, after);
  }

  lemma FromBoth(some: seq<Agg>, more: seq<Agg>, groups: Groups)
    requires From(some, groups) && From(more, groups)
    requires forall i, j :: 0 <= i < |some| && 0 <= j < |more| ==> some[i].group != more[j].group
    ensures From(some + more, groups)
  {
    var all := some + more;
    forall i | 0 <= i < |all| ensures all[i] == if i < |some| then some[i] else more[i - |some|] {
    }
  }

  /** An addition on the sorted set, whatever order the diff comes in, is the merge on the
      aggregates: provided the batch stays inside the window that was read and update times
      still tell the aggregates apart, the store represents exactly the merged groups. */
  lemma AddRefines(z: ZSet, groups: Groups, window: Groups, xs: seq<Activity>, latest: seq<Agg>,
                   changed: seq<(Agg, Agg)>, groupOf: Grouping, store: Hydration.Store)
    requires Coherent(groups, groupOf, store) && Represents(z, groups) && Addable(xs, groupOf, store)
    requires forall g :: g in window ==> g in groups && window[g] == groups[g]
    requires TouchesOnly(xs, groups, window, groupOf) && MergeMap(window, xs, groupOf).Ok?
    requires var d := MergeMap(window, xs, groupOf).value; Lists(latest, d.latest) && Pairs(changed, window, d.changed)
    ensures MergeMap(groups, xs, groupOf) == MergeMap(window, xs, groupOf)
    ensures var after := Apply(groups, MergeMap(groups, xs, groupOf).value);
            AllGood(after, groupOf, store) &&
            (DistinctTimes(after) ==>
               Coherent(after, groupOf, store) && Represents(Updated(z, Firsts(changed), latest + Seconds(changed)), after))
  {
    hide Good, Represents, Updated, Apply, Explains, Addable, TouchesOnly, GroupFold, Lists, Pairs;
    WindowSuffices(groups, window, xs, groupOf, store);
    MergedGood(groups, xs, groupOf, store);
    var new_ := GroupFold(SortById(xs), groupOf).value;
    var after := Apply(groups, DiffOf(groups, new_));
    PairsOfMore(changed, window, groups, DiffOf(groups, new_).changed);
    AddExplains(groups, new_, latest, changed);
    if DistinctTimes(after) {
      assert Coherent(after, groupOf, store);
      hide Coherent;
      DiffRepresents(z, groups, after, Firsts(changed), latest + Seconds(changed), groupOf, store);
    }
  }

  lemma MergedGood(groups: Groups, xs: seq<Activity>, groupOf: Grouping, store: Hydration.Store)
    requires AllGood(groups, groupOf, store) && Addable(xs, groupOf, store) && MergeMap(groups, xs, groupOf).Ok?
    ensures AllGood(Apply(groups, MergeMap(groups, xs, groupOf).value), groupOf, store)
  {
    SortedAddable(xs, groupOf, store);
    var new_ := GroupFold(SortById(xs), groupOf).value;
    GroupFoldGood(SortById(xs), groupOf, store);
    DiffKeepsGood(groups, new_, groupOf, store);
  }

  lemma PairsOfMore(changed: seq<(Agg, Agg)>, window: Groups, groups: Groups, next: Groups)
    requires Pairs(changed, window, next) && forall g :: g in window ==> g in groups && window[g] == groups[g]
    ensures Pairs(changed, groups, next)
  {
  }

  // ---- removing ----

  function Kept(activities: seq<Activity>, ids: set<string>): seq<Activity> {
    if activities == [] then []
    else Kept(activities[..|activities| - 1], ids) +
         (if activities[|activities| - 1].id in ids then [] else [activities[|activities| - 1]])
  }

  /** An aggregate that loses some activities, but not all. */
  function Shrunk(a: Agg, ids: set<string>): Agg {
    var left := Kept(a.activities, ids);
    var lost := |a.activities| - |left|;
    if lost == 0 then a
    else a.(activities := left, updatedAt := Last(left),
            minimized := if a.minimized > lost then a.minimized - lost else 0)
  }

  /** Removal on the groups: emptied aggregates go, the others shrink. */
  function RemoveGroups(groups: Groups, ids: set<string>): Groups {
    map g | g in groups && Kept(groups[g].activities, ids) != [] :: Shrunk(groups[g], ids)
  }

  lemma {:induction false} KeptMembers(activities: seq<Activity>, ids: set<string>)
    ensures forall x :: x in Kept(activities, ids) <==> x in activities && x.id !in ids
  {
    if activities != [] {
      var rest, x := activities[..|activities| - 1], activities[|activities| - 1];
      KeptMembers(rest, ids);
      assert activities == rest + [x];
    }
  }

  lemma KeptLast(rest: seq<Activity>, x: Activity, ids: set<string>)
    ensures Kept(rest + [x], ids) == Kept(rest, ids) + if x.id in ids then [] else [x]
  {
    assert (rest + [x])[..|rest|] == rest;
  }

  lemma {:induction false} KeptSize(activities: seq<Activity>, ids: set<string>)
    ensures |Kept(activities, ids)| <= |activities|
    ensures |Kept(activities, ids)| == |activities| ==> Kept(activities, ids) == activities
  {
    if activities != [] {
      var rest, x := activities[..|activities| - 1], activities[|activities| - 1];
      KeptSize(rest, ids);
      assert activities == rest + [x];
      hide Kept;
      KeptLast(rest, x, ids);
      if x.id in ids {
        assert |Kept(activities, ids)| < |activities|;
      } else {
        assert Kept(activities, ids) == Kept(rest, ids) + [x];
      }
    }
  }

  lemma {:induction false} KeptDistinct(activities: seq<Activity>, ids: set<string>)
    requires DistinctIds(activities)
    ensures DistinctIds(Kept(activities, ids))
  {
    if activities != [] {
      var rest, x := activities[..|activities| - 1], activities[|activities| - 1];
      assert activities == rest + [x];
      DistinctSnoc(rest, x);
      KeptDistinct(rest, ids);
      KeptMembers(rest, ids);
      var k := Kept(rest, ids);
      forall i | 0 <= i < |k| ensures k[i].id != x.id {
        assert k[i] in rest;
      }
      DistinctSnoc(k, x);
    }
  }

  lemma {:induction false} KeptSnoc(activities: seq<Activity>, ids: set<string>)
    requires activities != []
    ensures Kept(activities, ids) ==
      (if activities[0].id in ids then [] else [activities[0]]) + Kept(activities[1..], ids)
  {
    var n := |activities| - 1;
    if n > 0 {
      KeptSnoc(activities[..n], ids);
      assert activities[1..][..n - 1] == activities[..n][1..];
    } else {
      assert Kept(activities[..0], ids) == [] && Kept(activities[1..], ids) == [];
    }
  }

  lemma {:induction false} KeptDropped(activities: seq<Activity>, id: string, ids: set<string>)
    ensures Kept(Drop(activities, id), ids) == Kept(activities, ids + {id})
  {
    if activities != [] {
      var d := Drop(activities, id);
      KeptDropped(activities[1..], id, ids);
      KeptSnoc(activities, ids + {id});
      if activities[0].id == id {
        assert d == Drop(activities[1..], id);
      } else {
        assert d == [activities[0]] + Drop(activities[1..], id) && d[1..] == Drop(activities[1..], id);
        KeptSnoc(d, ids);
      }
    }
  }

  lemma {:induction false} KeptNone(activities: seq<Activity>)
    ensures Kept(activities, {}) == activities
  {
    if activities != [] {
      KeptNone(activities[..|activities| - 1]);
      assert activities == activities[..|activities| - 1] + [activities[|activities| - 1]];
    }
  }

  lemma {:induction false} LastKept(activities: seq<Activity>, ids: set<string>, k: nat)
    requires k < |activities| && activities[k].id !in ids
    requires forall j :: k < j < |activities| ==> activities[j].id in ids
    ensures var left := Kept(activities, ids); left != [] && left[|left| - 1] == activities[k]
  {
    if k < |activities| - 1 {
      LastKept(activities[..|activities| - 1], ids, k);
    }
  }

  /** A removal dates each aggregate it shrinks from the last activity it leaves there. */
  lemma RemovalDatesGroups(groups: Groups, ids: set<string>, g: string, k: nat)
    requires g in groups && k < |groups[g].activities| && groups[g].activities[k].id !in ids
    requires forall j :: k < j < |groups[g].activities| ==> groups[g].activities[j].id in ids
    requires exists i :: 0 <= i < |groups[g].activities| && groups[g].activities[i].id in ids
    ensures g in RemoveGroups(groups, ids)
    ensures RemoveGroups(groups, ids)[g].updatedAt == Some(groups[g].activities[k].time)
  {
    ShrunkDates(groups[g], ids, k);
  }

  lemma ShrunkDates(a: Agg, ids: set<string>, k: nat)
    requires k < |a.activities| && a.activities[k].id !in ids
    requires forall j :: k < j < |a.activities| ==> a.activities[j].id in ids
    requires exists i :: 0 <= i < |a.activities| && a.activities[i].id in ids
    ensures Kept(a.activities, ids) != [] && Shrunk(a, ids).updatedAt == Some(a.activities[k].time)
  {
    LastKept(a.activities, ids, k);
    SomethingLost(a.activities, ids);
    hide Kept;
  }

  lemma SomethingLost(activities: seq<Activity>, ids: set<string>)
    requires exists i :: 0 <= i < |activities| && activities[i].id in ids
    ensures |Kept(activities, ids)| < |activities|
  {
    KeptMembers(activities, ids);
    KeptSize(activities, ids);
    hide Kept;
    var i :| 0 <= i < |activities| && activities[i].id in ids;
    assert activities[i] in activities && activities[i] !in Kept(activities, ids);
  }

  lemma LastKeptPlace(activities: seq<Activity>, ids: set<string>) returns (k: nat)
    requires Kept(activities, ids) != []
    ensures k < |activities| && activities[k].id !in ids
    ensures forall j :: k < j < |activities| ==> activities[j].id in ids
  {
    var n := |activities| - 1;
    if activities[n].id in ids {
      k := LastKeptPlace(activities[..n], ids);
    } else {
      k := n;
    }
  }

  lemma LatestIsLast(activities: seq<Activity>, ids: set<string>, k: nat)
    requires forall i, j :: 0 <= i < j < |activities| ==> activities[i].time <= activities[j].time
    requires k < |activities| && activities[k].id !in ids
    requires forall j :: k < j < |activities| ==> activities[j].id in ids
    ensures IsLatest(Some(activities[k].time), None, Kept(activities, ids))
  {
    var left := Kept(activities, ids);
    KeptMembers(activities, ids);
    LastKept(activities, ids, k);
    hide Kept;
    forall i | 0 <= i < |left| ensures left[i].time <= activities[k].time {
      assert left[i] in left;
      var j :| 0 <= j < |activities| && activities[j] == left[i];
    }
    assert left[|left| - 1].time == activities[k].time;
  }

  /** Where activities came in the order of their times, that is the latest time left. */
  lemma RemovalKeepsLatest(groups: Groups, ids: set<string>, g: string)
    requires g in groups && g in RemoveGroups(groups, ids)
    requires forall i, j :: 0 <= i < j < |groups[g].activities| ==> groups[g].activities[i].time <= groups[g].activities[j].time
    requires exists i :: 0 <= i < |groups[g].activities| && groups[g].activities[i].id in ids
    ensures IsLatest(RemoveGroups(groups, ids)[g].updatedAt, None, RemoveGroups(groups, ids)[g].activities)
  {
    hide IsLatest;
    var a := groups[g];
    var k := LastKeptPlace(a.activities, ids);
    RemovalDatesGroups(groups, ids, g, k);
    LatestIsLast(a.activities, ids, k);
    ShrunkActivities(a, ids);
  }

  lemma ShrunkActivities(a: Agg, ids: set<string>)
    ensures Shrunk(a, ids).activities == Kept(a.activities, ids)
  {
    KeptSize(a.activities, ids);
  }

  function ToSet(ids: seq<string>): set<string> { set id | id in ids }

  lemma OneRemoved(a: Agg, id: string)
    requires DistinctIds(a.activities) && |a.activities| > 1 && Holds(a.activities, id)
    ensures Removed(a, id).Ok?
    ensures var b := Removed(a, id).value;
      b == a.(activities := Drop(a.activities, id), updatedAt := Last(Drop(a.activities, id)),
              minimized := if a.minimized > 0 then a.minimized - 1 else 0) &&
      DistinctIds(b.activities) && |b.activities| == |a.activities| - 1 &&
      forall k :: Holds(a.activities, k) && k != id ==> Holds(b.activities, k)
  {
    DropRemovesExactly(a.activities, id);
    var b := Removed(a, id).value;
    forall k | Holds(a.activities, k) && k != id ensures Holds(b.activities, k) {
      var i :| 0 <= i < |a.activities| && a.activities[i].id == k;
      assert a.activities[i] in b.activities;
    }
  }

  /** Removing one and then the others is removing all. */
  lemma ShrunkOnce(a: Agg, id: string, ids: set<string>)
    requires DistinctIds(a.activities) && |a.activities| > 1 && Holds(a.activities, id)
    ensures Removed(a, id).Ok? && Shrunk(Removed(a, id).value, ids) == Shrunk(a, ids + {id})
    ensures |Kept(a.activities, ids + {id})| == |Kept(Removed(a, id).value.activities, ids)|
  {
    OneRemoved(a, id);
    KeptDropped(a.activities, id, ids);
    KeptSize(Removed(a, id).value.activities, ids);
  }

  /** Removing several retained activities one after another, in any order, comes to this. */
  lemma {:induction false} RemovedAllIsShrunk(a: Agg, ids: seq<string>)
    requires DistinctIds(a.activities) && HashCache.NoDuplicates(ids) && |ids| < |a.activities|
    requires forall i :: 0 <= i < |ids| ==> Holds(a.activities, ids[i])
    ensures |Kept(a.activities, ToSet(ids))| == |a.activities| - |ids|
    ensures RemovedAll(a, ids) == (Shrunk(a, ToSet(ids)), true)
    decreases |ids|
  {
    if ids == [] {
      assert ToSet(ids) == {};
      KeptNone(a.activities);
    } else {
      var id, rest := ids[0], ids[1..];
      OneRemoved(a, id);
      forall i | 0 <= i < |rest| ensures Holds(Removed(a, id).value.activities, rest[i]) {
        assert rest[i] == ids[i + 1];
      }
      RemovedAllIsShrunk(Removed(a, id).value, rest);
      ShrunkOnce(a, id, ToSet(rest));
      assert ToSet(ids) == ToSet(rest) + {id} by {
        assert ids == [id] + rest;
      }
    }
  }

  lemma ShrunkIsGood(a: Agg, ids: set<string>, groupOf: Grouping, store: Hydration.Store)
    requires Good(a, groupOf, store) && Kept(a.activities, ids) != []
    ensures Good(Shrunk(a, ids), groupOf, store) && Shrunk(a, ids).group == a.group
  {
    hide Kept, Known, GroupFits;
    var left := Kept(a.activities, ids);
    KeptMembers(a.activities, ids);
    KeptSize(a.activities, ids);
    KeptDistinct(a.activities, ids);
    forall i | 0 <= i < |left| ensures Known(left[i], store) && groupOf(left[i]) == a.group {
      assert left[i] in left;
    }
  }

  lemma RemovedGood(groups: Groups, ids: set<string>, groupOf: Grouping, store: Hydration.Store)
    requires AllGood(groups, groupOf, store)
    ensures AllGood(RemoveGroups(groups, ids), groupOf, store)
  {
    forall g | g in RemoveGroups(groups, ids)
      ensures Good(Shrunk(groups[g], ids), groupOf, store) && Shrunk(groups[g], ids).group == g
    {
      ShrunkIsGood(groups[g], ids, groupOf, store);
    }
  }

  /** `deleted` and `changed` cover all groups and say what a removal does to each. */
  ghost predicate Covers(groups: Groups, ids: set<string>, deleted: seq<Agg>, changed: seq<(Agg, Agg)>) {
    From(deleted + Firsts(changed), groups) && (forall g :: g in groups ==> Has(deleted + Firsts(changed), g)) &&
    (forall i :: 0 <= i < |deleted| ==> Kept(deleted[i].activities, ids) == []) &&
    forall i :: 0 <= i < |changed| ==>
      Kept(changed[i].0.activities, ids) != [] && changed[i].1 == Shrunk(changed[i].0, ids)
  }

  lemma RemoveExplains(groups: Groups, ids: set<string>, deleted: seq<Agg>, changed: seq<(Agg, Agg)>)
    requires Covers(groups, ids, deleted, changed) && Aggregator.Keyed(groups)
    ensures Explains(groups, RemoveGroups(groups, ids), deleted + Firsts(changed), Seconds(changed))
  {
    var after, toRemove, toAdd := RemoveGroups(groups, ids), deleted + Firsts(changed), Seconds(changed);
    forall i | 0 <= i < |toAdd|
      ensures toAdd[i].group == toRemove[|deleted| + i].group && toAdd[i].group in after && after[toAdd[i].group] == toAdd[i]
    {
      assert toRemove[|deleted| + i] == changed[i].0 && toAdd[i] == changed[i].1;
    }
    forall i | 0 <= i < |deleted| ensures toRemove[i].group !in after {
      assert toRemove[i] == deleted[i];
    }
    forall g | g in after ensures Has(toAdd, g) {
      var i :| 0 <= i < |toRemove| && toRemove[i].group == g;
      assert toAdd[i - |deleted|].group == g;
    }
  }

  /** A removal writes every aggregate back: the store then represents exactly the shrunken
      groups, provided update times still tell them apart. */
  lemma RemoveRefines(z: ZSet, groups: Groups, ids: set<string>, deleted: seq<Agg>, changed: seq<(Agg, Agg)>,
                      groupOf: Grouping, store: Hydration.Store)
    requires Coherent(groups, groupOf, store) && Represents(z, groups) && Covers(groups, ids, deleted, changed)
    ensures AllGood(RemoveGroups(groups, ids), groupOf, store)
    ensures DistinctTimes(RemoveGroups(groups, ids)) ==>
      Coherent(RemoveGroups(groups, ids), groupOf, store) &&
      Represents(Updated(z, deleted + Firsts(changed), Seconds(changed)), RemoveGroups(groups, ids))
  {
    hide Good, Represents, Updated, Explains, RemoveGroups, Covers, Kept;
    var after := RemoveGroups(groups, ids);
    RemovedGood(groups, ids, groupOf, store);
    RemoveExplains(groups, ids, deleted, changed);
    if DistinctTimes(after) {
      assert Coherent(after, groupOf, store);
      hide Coherent;
      DiffRepresents(z, groups, after, deleted + Firsts(changed), Seconds(changed), groupOf, store);
    }
  }
}
