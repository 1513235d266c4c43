/** A job delivered twice to an aggregated feed: the second addition of the same activities
    (src/feeds/aggregated_feed/AggregatedFeed.ts:93-130) is refused when it meets a retained
    one (src/aggregators/base/BaseAggregator.ts:99-108), but what the cap of 15 has pushed out
    (src/activity/AggregatedActivity.ts:175-178) is counted again. */
module Redelivery {
  import opened Results
  import opened Activities
  import opened Aggregates
  import opened Aggregator
  import Sorting

  /** One delivery; a refused one writes nothing. */
  function Delivered(groups: Groups, xs: seq<Activity>, groupOf: Grouping): Groups {
    var d := MergeMap(groups, xs, groupOf);
    if d.Ok? then Apply(groups, d.value) else groups
  }

  ghost predicate Capped(groups: Groups) {
    forall g :: g in groups ==> |groups[g].activities| <= MAX_AGGREGATED_ACTIVITIES_LENGTH
  }

  /** The group can retain one more activity. */
  predicate Room(groups: Groups, g: string) {
    g !in groups || |groups[g].activities| < MAX_AGGREGATED_ACTIVITIES_LENGTH
  }

  ghost predicate SomeRoom(groups: Groups, xs: seq<Activity>, groupOf: Grouping) {
    exists i :: 0 <= i < |xs| && Room(groups, groupOf(xs[i]))
  }

  // ---- appending ----

  /** A full aggregate only counts. */
  lemma {:induction false} AppendToFull(a: Agg, ys: seq<Activity>)
    requires |a.activities| == MAX_AGGREGATED_ACTIVITIES_LENGTH
    ensures AppendAll(a, ys).Ok? <==> forall i :: 0 <= i < |ys| ==> !Holds(a.activities, ys[i].id)
    ensures AppendAll(a, ys).Ok? ==>
      AppendAll(a, ys).value.activities == a.activities && AppendAll(a, ys).value.minimized == a.minimized + |ys|
  {
    if ys != [] {
      var rest, y := ys[..|ys| - 1], ys[|ys| - 1];
      AppendToFull(a, rest);
      hide Holds;
      assert forall i :: 0 <= i < |rest| ==> rest[i] == ys[i];
    }
  }

  /** With room the first one is retained. */
  lemma {:induction false} FirstIsRetained(a: Agg, ys: seq<Activity>)
    requires AppendAll(a, ys).Ok? && ys != [] && |a.activities| < MAX_AGGREGATED_ACTIVITIES_LENGTH
    ensures Holds(AppendAll(a, ys).value.activities, ys[0].id)
  {
    var rest, y := ys[..|ys| - 1], ys[|ys| - 1];
    var b := AppendAll(a, ys).value.activities;
    if rest == [] {
      assert b[|a.activities|] == y;
    } else {
      FirstIsRetained(a, rest);
      var i :| 0 <= i < |AppendAll(a, rest).value.activities| && AppendAll(a, rest).value.activities[i].id == ys[0].id;
      assert b[i] == AppendAll(a, rest).value.activities[i];
    }
  }

  lemma FirstIsRefused(a: Agg, ys: seq<Activity>)
    requires ys != [] && Holds(a.activities, ys[0].id)
    ensures AppendAll(a, ys).Err?
  {
    assert ys[..1][..0] == [] && ys[..1][0] == ys[0];
    assert AppendAll(a, ys[..1]).Err?;
    AppendAllStopsAt(a, ys, 1);
  }

  // ---- what a batch is grouped into ----

  /** Every group has an activity of the batch, retains some, and only its own. */
  ghost predicate Grouped(groups: Groups, s: seq<Activity>, groupOf: Grouping) {
    (forall i :: 0 <= i < |s| ==> groupOf(s[i]) in groups) &&
    forall g :: g in groups ==>
      groups[g].activities != [] && |groups[g].activities| <= MAX_AGGREGATED_ACTIVITIES_LENGTH &&
      forall x :: x in groups[g].activities ==> x in s && groupOf(x) == g
  }

  lemma GroupedSnoc(groups: Groups, rest: seq<Activity>, x: Activity, groupOf: Grouping)
    requires Grouped(groups, rest, groupOf) && Appended(Current(groups, groupOf(x)), x).Ok?
    ensures Grouped(groups[groupOf(x) := Appended(Current(groups, groupOf(x)), x).value], rest + [x], groupOf)
  {
    var a := Current(groups, groupOf(x));
    var b := Appended(a, x).value;
    assert forall y :: y in b.activities ==> y in a.activities || y == x;
    assert b.activities != [] && |b.activities| <= MAX_AGGREGATED_ACTIVITIES_LENGTH;
    hide Appended;
    var s := rest + [x];
    assert forall y :: y in rest ==> y in s;
    assert x in s;
  }

  lemma {:induction false} FoldIsGrouped(s: seq<Activity>, groupOf: Grouping)
    requires GroupFold(s, groupOf).Ok?
    ensures Grouped(GroupFold(s, groupOf).value, s, groupOf)
  {
    if s != [] {
      var rest, x := s[..|s| - 1], s[|s| - 1];
      FoldIsGrouped(rest, groupOf);
      hide Grouped;
      GroupedSnoc(GroupFold(rest, groupOf).value, rest, x, groupOf);
      assert s == rest + [x];
    }
  }

  lemma SortedMembers(xs: seq<Activity>)
    ensures forall x :: x in SortById(xs) <==> x in xs
  {
    Sorting.SortPermutes(xs, LaterId);
    assert forall x :: x in SortById(xs) <==> x in multiset(SortById(xs));
    assert forall x :: x in xs <==> x in multiset(xs);
  }

  lemma BatchGroups(xs: seq<Activity>, groupOf: Grouping)
    requires GroupFold(SortById(xs), groupOf).Ok?
    ensures var new_ := GroupFold(SortById(xs), groupOf).value;
      Grouped(new_, SortById(xs), groupOf) &&
      (forall i :: 0 <= i < |xs| ==> groupOf(xs[i]) in new_) &&
      forall g :: g in new_ ==> new_[g].activities[0] in xs && groupOf(new_[g].activities[0]) == g
  {
    var s := SortById(xs);
    FoldIsGrouped(s, groupOf);
    SortedMembers(xs);
    hide SortById;
    forall i | 0 <= i < |xs| ensures groupOf(xs[i]) in GroupFold(s, groupOf).value {
      assert xs[i] in s;
    }
  }

  // ---- the theorem ----

  /** With room in a touched group the second delivery is refused. */
  lemma RoomRefuses(groups: Groups, new_: Groups, g: string)
    requires Mergeable(groups, new_) && g in new_ && new_[g].activities != [] && Room(groups, g)
    ensures !Mergeable(Apply(groups, DiffOf(groups, new_)), new_)
  {
    var once, ys := Apply(groups, DiffOf(groups, new_)), new_[g].activities;
    if g in groups {
      FirstIsRetained(groups[g], ys);
      assert once[g] == AppendAll(groups[g], ys).value;
    } else {
      assert once[g] == new_[g] && once[g].activities[0] == ys[0];
    }
    FirstIsRefused(once[g], ys);
  }

  /** Without any room it is taken, and counted again. */
  lemma NoRoomCounts(groups: Groups, new_: Groups)
    requires Mergeable(groups, new_) && Capped(groups) && new_ != map[]
    requires forall g :: g in new_ ==> !Room(groups, g) && new_[g].activities != []
    ensures var once := Apply(groups, DiffOf(groups, new_));
      Mergeable(once, new_) && Apply(once, DiffOf(once, new_)) != once
  {
    hide AppendAll, Holds;
    var once := Apply(groups, DiffOf(groups, new_));
    forall g | g in new_
      ensures g in once && once[g].activities == groups[g].activities && AppendAll(once[g], new_[g].activities).Ok?
      ensures AppendAll(once[g], new_[g].activities).value.minimized > once[g].minimized
    {
      AppendToFull(groups[g], new_[g].activities);
      assert once[g] == AppendAll(groups[g], new_[g].activities).value;
      AppendToFull(once[g], new_[g].activities);
    }
    var g :| g in new_;
    assert Apply(once, DiffOf(once, new_))[g] == AppendAll(once[g], new_[g].activities).value;
  }

  /** Delivering a batch a second time leaves the groups as they were exactly when the batch
      is empty or, before the first delivery, some group it touches could retain one more. */
  lemma RedeliveryIff(groups: Groups, xs: seq<Activity>, groupOf: Grouping)
    requires Capped(groups) && MergeMap(groups, xs, groupOf).Ok?
    ensures var once := Delivered(groups, xs, groupOf);
      Delivered(once, xs, groupOf) == once <==> xs == [] || SomeRoom(groups, xs, groupOf)
  {
    hide Delivered, MergeMap, SomeRoom, Capped;
    if xs == [] {
      NothingDelivered(Delivered(groups, xs, groupOf), groupOf);
    } else if SomeRoom(groups, xs, groupOf) {
      RoomLeaves(groups, xs, groupOf);
    } else {
      NoRoomChanges(groups, xs, groupOf);
    }
  }

  lemma RoomLeaves(groups: Groups, xs: seq<Activity>, groupOf: Grouping)
    requires MergeMap(groups, xs, groupOf).Ok? && SomeRoom(groups, xs, groupOf)
    ensures var once := Delivered(groups, xs, groupOf); Delivered(once, xs, groupOf) == once
  {
    BatchGroups(xs, groupOf);
    var i :| 0 <= i < |xs| && Room(groups, groupOf(xs[i]));
    hide GroupFold, SortById, Mergeable, DiffOf, Apply, Room;
    RoomRefuses(groups, GroupFold(SortById(xs), groupOf).value, groupOf(xs[i]));
  }

  lemma NoRoomChanges(groups: Groups, xs: seq<Activity>, groupOf: Grouping)
    requires Capped(groups) && MergeMap(groups, xs, groupOf).Ok? && xs != [] && !SomeRoom(groups, xs, groupOf)
    ensures var once := Delivered(groups, xs, groupOf); Delivered(once, xs, groupOf) != once
  {
    var new_ := GroupFold(SortById(xs), groupOf).value;
    BatchGroups(xs, groupOf);
    hide GroupFold, SortById, Mergeable, DiffOf, Apply, Room, Capped;
    forall g | g in new_ ensures !Room(groups, g) {
      var x := new_[g].activities[0];
      var i :| 0 <= i < |xs| && xs[i] == x;
    }
    assert groupOf(xs[0]) in new_;
    hide Grouped, SomeRoom;
    NoRoomCounts(groups, new_);
  }

  lemma NothingDelivered(groups: Groups, groupOf: Grouping)
    ensures Delivered(groups, [], groupOf) == groups
  {
    assert SortById([]) == [];
    assert GroupFold([], groupOf) == Ok(map[]);
    assert DiffOf(groups, map[]) == Diff(map[], map[]);
  }

  /** For activities that were not retained before: some group had room exactly when some
      activity of the batch is retained now. */
  lemma RoomIffRetained(groups: Groups, xs: seq<Activity>, groupOf: Grouping)
    requires Capped(groups) && MergeMap(groups, xs, groupOf).Ok?
    requires forall i :: 0 <= i < |xs| && groupOf(xs[i]) in groups ==> !Holds(groups[groupOf(xs[i])].activities, xs[i].id)
    ensures var once := Delivered(groups, xs, groupOf);
      SomeRoom(groups, xs, groupOf) <==>
      exists i :: 0 <= i < |xs| && groupOf(xs[i]) in once && Holds(once[groupOf(xs[i])].activities, xs[i].id)
  {
    var new_ := GroupFold(SortById(xs), groupOf).value;
    BatchGroups(xs, groupOf);
    hide GroupFold, SortById, AppendAll;
    var once := Delivered(groups, xs, groupOf);
    forall g | g in new_
      ensures g in once && (Room(groups, g) ==> Holds(once[g].activities, new_[g].activities[0].id))
      ensures !Room(groups, g) ==> once[g].activities == groups[g].activities
    {
      RetainedWithRoom(groups, new_, g);
    }
    hide Apply, DiffOf, Mergeable, Holds;
    if SomeRoom(groups, xs, groupOf) {
      var i :| 0 <= i < |xs| && Room(groups, groupOf(xs[i]));
      var x := new_[groupOf(xs[i])].activities[0];
      var k :| 0 <= k < |xs| && xs[k] == x;
      assert Holds(once[groupOf(xs[k])].activities, xs[k].id);
    }
    if i :| 0 <= i < |xs| && groupOf(xs[i]) in once && Holds(once[groupOf(xs[i])].activities, xs[i].id) {
      assert groupOf(xs[i]) in new_;
      assert Room(groups, groupOf(xs[i]));
    }
  }

  lemma RetainedWithRoom(groups: Groups, new_: Groups, g: string)
    requires Capped(groups) && Mergeable(groups, new_) && g in new_ && new_[g].activities != []
    ensures var once := Apply(groups, DiffOf(groups, new_));
      g in once && (Room(groups, g) ==> Holds(once[g].activities, new_[g].activities[0].id)) &&
      (!Room(groups, g) ==> once[g].activities == groups[g].activities)
  {
    var once, ys := Apply(groups, DiffOf(groups, new_)), new_[g].activities;
    if g !in groups {
      assert once[g] == new_[g] && once[g].activities[0] == ys[0];
    } else {
      assert once[g] == AppendAll(groups[g], ys).value;
      if Room(groups, g) {
        FirstIsRetained(groups[g], ys);
      } else {
        AppendToFull(groups[g], ys);
      }
    }
  }
}
