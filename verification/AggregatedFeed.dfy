/** src/feeds/aggregated_feed/AggregatedFeed.ts: the aggregated-feed state machine over a
    Redis sorted set. The model follows what the code sets out to do where the port slips:
    `hydrateDict` is keyed by each aggregate's group, `removeMany` returns after its loop,
    the new aggregates of a diff are concatenated, and an empty addition writes nothing. */
module AggregatedFeed {
  import opened Ranking
  import opened Results
  import opened Activities
  import opened Aggregates
  import opened Aggregator
  import opened AggregatedSerializer
  import opened AggregateStore
  import opened AggregateSteps
  import opened AggregateRemoval
  import opened WriteBack
  import opened SortedSet
  import Hydration
  import HashCache
  import opened Sorting

  const MERGE_MAX_LENGTH := 20

  // ---- runs ----

  datatype FeedOp =
    | Adding(xs: seq<Activity>, trim: bool)
    | Removing(ids: seq<string>)

  /** The operations as they are meant. */
  ghost function NextGroups(groups: Groups, op: FeedOp, max: nat, groupOf: Grouping): Groups {
    match op
    case Adding(xs, trim) =>
      var d := MergeMap(groups, xs, groupOf);
      var after := if d.Ok? then Apply(groups, d.value) else groups;
      if trim then Newest(after, max) else after
    case Removing(ids) => RemoveGroups(Newest(groups, max), ToSet(ids))
  }

  /** What a caller can check before an operation: bodies are stored and groups clean, a
      touched group is new or among the 20 newest, and update times stay different. */
  ghost predicate Allowed(groups: Groups, op: FeedOp, max: nat, groupOf: Grouping, store: Hydration.Store) {
    match op
    case Adding(xs, trim) =>
      Addable(xs, groupOf, store) && TouchesOnly(xs, groups, Newest(groups, MERGE_MAX_LENGTH), groupOf) &&
      DistinctTimes(NextGroups(groups, Adding(xs, false), max, groupOf))
    case Removing(ids) => DistinctTimes(NextGroups(groups, op, max, groupOf))
  }

  /** The aggregates of the first `n` entries, loaded and hydrated; what `getItem` returns. */
  ghost function Slice(z: ZSet, n: nat, store: Hydration.Store): Result<seq<Agg>> {
    var loaded := LoadAll(Limit(Listing(z), 0, n));
    if loaded.Err? then loaded else Hydration.HydrateAll(loaded.value, store)
  }

  /** One addition on the sorted set, the diff being written in any order. */
  ghost predicate AddWrites(z: ZSet, xs: seq<Activity>, z': ZSet, groupOf: Grouping, store: Hydration.Store) {
    var window := Slice(z, MERGE_MAX_LENGTH, store);
    window.Ok? &&
    var d := MergeMap(ByGroup(window.value), xs, groupOf);
    (d.Err? ==> z' == z) &&
    (d.Ok? ==> exists latest, changed ::
       Lists(latest, d.value.latest) && Pairs(changed, ByGroup(window.value), d.value.changed) &&
       z' == Updated(z, Firsts(changed), latest + Seconds(changed)))
  }

  /** One removal on the already trimmed sorted set. */
  ghost predicate RemoveWrites(z: ZSet, ids: seq<string>, z': ZSet, max: nat, store: Hydration.Store) {
    var all := Slice(z, max, store);
    all.Ok? && exists deleted, changed ::
      Covers(ByGroup(all.value), ToSet(ids), deleted, changed) &&
      z' == Updated(z, deleted + Firsts(changed), Seconds(changed))
  }

  ghost predicate Writes(z: ZSet, op: FeedOp, z': ZSet, max: nat, groupOf: Grouping, store: Hydration.Store) {
    match op
    case Adding(xs, trim) =>
      exists w :: AddWrites(z, xs, w, groupOf, store) && z' == if trim then Keep(w, max) else w
    case Removing(ids) => RemoveWrites(Keep(z, max), ids, z', max, store)
  }

  lemma SliceIsNewest(z: ZSet, groups: Groups, n: nat, groupOf: Grouping, store: Hydration.Store)
    requires Hydration.Keyed(store) && Coherent(groups, groupOf, store) && Represents(z, groups)
    ensures Slice(z, n, store).Ok? && ByGroup(Slice(z, n, store).value) == Newest(groups, n)
    ensures Decodes(Limit(Listing(z), 0, n), Slice(z, n, store).value, Newest(groups, n))
    ensures GoodList(Slice(z, n, store).value, groupOf, store)
    ensures LoadAll(Limit(Listing(z), 0, n)) == Ok(Dehydrated(Slice(z, n, store).value))
  {
    hide Good, StoredText, Coherent, Represents, ByGroup, Newest, LoadAll, Listing;
    var s := WindowIsNewest(z, groups, n, groupOf, store);
    assert Limit(Listing(z), 0, n) == Listing(z)[..Min(n, |z|)];
  }

  lemma AddStepRefines(z: ZSet, groups: Groups, xs: seq<Activity>, z': ZSet, max: nat, groupOf: Grouping,
                       store: Hydration.Store)
    requires Hydration.Keyed(store) && Coherent(groups, groupOf, store) && Represents(z, groups)
    requires Allowed(groups, Adding(xs, false), max, groupOf, store) && AddWrites(z, xs, z', groupOf, store)
    ensures var after := NextGroups(groups, Adding(xs, false), max, groupOf);
            Coherent(after, groupOf, store) && Represents(z', after)
  {
    SliceIsNewest(z, groups, MERGE_MAX_LENGTH, groupOf, store);
    var window := Newest(groups, MERGE_MAX_LENGTH);
    WindowSuffices(groups, window, xs, groupOf, store);
    var d := MergeMap(window, xs, groupOf);
    if d.Ok? {
      hide Good, Represents, Updated, MergeMap, Slice, Newest;
      var latest, changed :|
        Lists(latest, d.value.latest) && Pairs(changed, window, d.value.changed) &&
        z' == Updated(z, Firsts(changed), latest + Seconds(changed));
      NewestIsPart(groups, MERGE_MAX_LENGTH);
      AddRefines(z, groups, window, xs, latest, changed, groupOf, store);
    }
  }

  lemma RemoveStepRefines(z: ZSet, groups: Groups, ids: seq<string>, z': ZSet, max: nat, groupOf: Grouping,
                          store: Hydration.Store)
    requires Hydration.Keyed(store) && Coherent(groups, groupOf, store) && Represents(z, groups)
    requires Newest(groups, max) == groups && DistinctTimes(RemoveGroups(groups, ToSet(ids)))
    requires RemoveWrites(z, ids, z', max, store)
    ensures Coherent(RemoveGroups(groups, ToSet(ids)), groupOf, store)
    ensures Represents(z', RemoveGroups(groups, ToSet(ids)))
  {
    SliceIsNewest(z, groups, max, groupOf, store);
    hide Good, Represents, Updated, Slice;
    var deleted, changed :|
      Covers(groups, ToSet(ids), deleted, changed) && z' == Updated(z, deleted + Firsts(changed), Seconds(changed));
    RemoveRefines(z, groups, ToSet(ids), deleted, changed, groupOf, store);
  }

  lemma NewestAgain(groups: Groups, max: nat)
    ensures Newest(Newest(groups, max), max) == Newest(groups, max)
  {
    var part := Newest(groups, max);
    forall g | g in part ensures |Later(part, g)| <= |Later(groups, g)| {
      SubsetSize(Later(part, g), Later(groups, g));
    }
  }

  /** One operation: the sorted set of texts goes on representing the aggregates meant. */
  lemma StepRefines(z: ZSet, groups: Groups, op: FeedOp, z': ZSet, max: nat, groupOf: Grouping, store: Hydration.Store)
    requires Hydration.Keyed(store) && Coherent(groups, groupOf, store) && Represents(z, groups)
    requires Allowed(groups, op, max, groupOf, store) && Writes(z, op, z', max, groupOf, store)
    ensures Coherent(NextGroups(groups, op, max, groupOf), groupOf, store)
    ensures Represents(z', NextGroups(groups, op, max, groupOf))
  {
    hide Good, Represents, AddWrites, RemoveWrites, Coherent, Newest, Keep;
    match op {
      case Adding(xs, trim) =>
        var w :| AddWrites(z, xs, w, groupOf, store) && z' == if trim then Keep(w, max) else w;
        AddStepRefines(z, groups, xs, w, max, groupOf, store);
        if trim {
          NewestIsTop(w, NextGroups(groups, Adding(xs, false), max, groupOf), max, groupOf, store);
        }
      case Removing(ids) =>
        NewestIsTop(z, groups, max, groupOf, store);
        NewestAgain(groups, max);
        RemoveStepRefines(Keep(z, max), Newest(groups, max), ids, z', max, groupOf, store);
    }
  }

  ghost function GroupsAfter(ops: seq<FeedOp>, max: nat, groupOf: Grouping): Groups {
    if ops == [] then map[]
    else NextGroups(GroupsAfter(ops[..|ops| - 1], max, groupOf), ops[|ops| - 1], max, groupOf)
  }

  /** The bodies before each operation and at the end: insertions go on all the time, and
      nothing stored is lost or replaced. */
  ghost predicate Growing(stores: seq<Hydration.Store>) {
    (forall i :: 0 <= i < |stores| ==> Hydration.Keyed(stores[i])) &&
    forall i :: 0 < i < |stores| ==> Hydration.Grows(stores[i - 1], stores[i])
  }

  lemma GrowingParts(stores: seq<Hydration.Store>, n: nat)
    requires Growing(stores) && |stores| == n + 2
    ensures Growing(stores[..n + 1]) && Hydration.Keyed(stores[n]) && Hydration.Grows(stores[n], stores[n + 1])
  {
    hide Hydration.Keyed, Hydration.Grows;
    assert Hydration.Grows(stores[n + 1 - 1], stores[n + 1]);
  }

  /** Every run: the concrete feed refines the abstract one, and stays coherent. */
  lemma {:induction false} RunRefines(zs: seq<ZSet>, ops: seq<FeedOp>, stores: seq<Hydration.Store>, max: nat,
                                      groupOf: Grouping)
    requires |zs| == |stores| == |ops| + 1 && zs[0] == map[] && Growing(stores)
    requires forall i :: 0 <= i < |ops| ==> Writes(zs[i], ops[i], zs[i + 1], max, groupOf, stores[i])
    requires forall i :: 0 <= i < |ops| ==> Allowed(GroupsAfter(ops[..i], max, groupOf), ops[i], max, groupOf, stores[i])
    ensures Coherent(GroupsAfter(ops, max, groupOf), groupOf, stores[|ops|])
    ensures Represents(zs[|ops|], GroupsAfter(ops, max, groupOf))
  {
    hide Coherent, Represents, Writes, Allowed, NextGroups, Growing;
    if ops == [] {
      EmptyFeed(groupOf, stores[0]);
    } else {
      var n := |ops| - 1;
      var before, earlier, sooner := ops[..n], zs[..|ops|], stores[..|ops|];
      GrowingParts(stores, n);
      forall i | 0 <= i < n
        ensures Allowed(GroupsAfter(before[..i], max, groupOf), before[i], max, groupOf, sooner[i])
        ensures Writes(earlier[i], before[i], earlier[i + 1], max, groupOf, sooner[i])
      {
        assert before[..i] == ops[..i];
      }
      RunRefines(earlier, before, sooner, max, groupOf);
      StepRefines(zs[n], GroupsAfter(before, max, groupOf), ops[n], zs[n + 1], max, groupOf, stores[n]);
      CoherentAsStoreGrows(GroupsAfter(ops, max, groupOf), groupOf, stores[n], stores[n + 1]);
    }
  }

  // ---- a stream added batch by batch ----

  function Batches(batches: seq<seq<Activity>>): seq<FeedOp> {
    seq(|batches|, i requires 0 <= i < |batches| => Adding(batches[i], false))
  }

  lemma {:induction false} BatchesMerge(batches: seq<seq<Activity>>, max: nat, groupOf: Grouping)
    requires Ascending(Flatten(batches)) && SmallBatches(batches, groupOf)
    ensures MergeBatches(batches, groupOf) == Ok(GroupsAfter(Batches(batches), max, groupOf))
  {
    if batches != [] {
      var rest, last := batches[..|batches| - 1], batches[|batches| - 1];
      AnySplitGivesOneResult(batches, groupOf);
      AscendingParts(Flatten(rest), last);
      assert SmallBatches(rest, groupOf);
      BatchesMerge(rest, max, groupOf);
      assert Batches(batches)[..|batches| - 1] == Batches(rest);
    }
  }

  /** However a sorted stream is cut into batches of at most 15 a group, the texts stored in
      the end represent the aggregates of the whole stream. */
  lemma StreamIsAggregated(zs: seq<ZSet>, batches: seq<seq<Activity>>, stores: seq<Hydration.Store>, max: nat,
                           groupOf: Grouping)
    requires Ascending(Flatten(batches)) && SmallBatches(batches, groupOf)
    requires |zs| == |stores| == |batches| + 1 && zs[0] == map[] && Growing(stores)
    requires forall i :: 0 <= i < |batches| ==> Writes(zs[i], Adding(batches[i], false), zs[i + 1], max, groupOf, stores[i])
    requires forall i :: 0 <= i < |batches| ==>
      Allowed(GroupsAfter(Batches(batches[..i]), max, groupOf), Adding(batches[i], false), max, groupOf, stores[i])
    ensures var all := GroupMap(SortById(Flatten(batches)), groupOf);
            Represents(zs[|batches|], all) && Coherent(all, groupOf, stores[|batches|])
  {
    hide Coherent, Represents, Writes, Allowed, NextGroups, Growing, MergeBatches, GroupMap, Ascending, SmallBatches, SortById;
    var ops := Batches(batches);
    forall i | 0 <= i < |ops| ensures Allowed(GroupsAfter(ops[..i], max, groupOf), ops[i], max, groupOf, stores[i]) {
      assert ops[..i] == Batches(batches[..i]);
    }
    RunRefines(zs, ops, stores, max, groupOf);
    BatchesMerge(batches, max, groupOf);
    AnySplitGivesOneResult(batches, groupOf);
  }

  lemma EmptyFeed(groupOf: Grouping, store: Hydration.Store)
    ensures Coherent(map[], groupOf, store) && Represents(map[], map[])
  {
  }

  /** A feed that received its first activity: one text, one aggregate. */
  lemma FirstActivity(x: Activity, groupOf: Grouping, store: Hydration.Store)
    requires Known(x, store) && GroupFits(groupOf(x))
    ensures Appended(New(groupOf(x)), x).Ok?
    ensures var a := Appended(New(groupOf(x)), x).value;
            Coherent(map[groupOf(x) := a], groupOf, store) &&
            Represents(map[StoredText(a) := x.time as real], map[groupOf(x) := a])
  {
    AppendKeepsGood(New(groupOf(x)), x, groupOf, store);
    hide Good, StoredText;
    var a := Appended(New(groupOf(x)), x).value;
    var groups := map[groupOf(x) := a];
    assert groupOf(x) in groups && Score(a) == x.time as real;
    assert forall g :: g in groups ==> g == groupOf(x);
  }

  /** What that means for the stored texts: no aggregate is empty, every activity is in the
      aggregate of its own group, a group has one aggregate and an id sits in one aggregate. */
  lemma StoredInvariant(z: ZSet, groups: Groups, m: string, n: string, groupOf: Grouping, store: Hydration.Store)
    requires Coherent(groups, groupOf, store) && Represents(z, groups) && m in z && n in z
    ensures LoadText(m).Ok? && LoadText(n).Ok?
    ensures OwnsItsIds(LoadText(m).value, groupOf, store)
    ensures m != n ==> z[m] != z[n] && LoadText(m).value.group != LoadText(n).value.group
    ensures m != n ==> forall id :: id in LoadText(m).value.activityIds ==> id !in LoadText(n).value.activityIds
  {
    hide Good, Owner, LoadText, StoredText;
    OwnerOfMember(z, groups, m, groupOf, store);
    OwnerOfMember(z, groups, n, groupOf, store);
    OwnIds(Owner(m, store), groupOf, store);
    OwnIds(Owner(n, store), groupOf, store);
    if m != n {
      assert Owner(m, store).group != Owner(n, store).group;
    }
    IdsStayApart(Dehydrate(Owner(m, store)), Dehydrate(Owner(n, store)), groupOf, store);
  }

  lemma IdsStayApart(a: Agg, b: Agg, groupOf: Grouping, store: Hydration.Store)
    requires OwnsItsIds(a, groupOf, store) && OwnsItsIds(b, groupOf, store)
    ensures a.group != b.group ==> forall id :: id in a.activityIds ==> id !in b.activityIds
  {
  }

  ghost predicate OwnsItsIds(a: Agg, groupOf: Grouping, store: Hydration.Store) {
    a.activityIds != [] && forall id :: id in a.activityIds ==> id in store && groupOf(store[id]) == a.group
  }

  lemma OwnIds(a: Agg, groupOf: Grouping, store: Hydration.Store)
    requires Good(a, groupOf, store)
    ensures OwnsItsIds(Dehydrate(a), groupOf, store)
  {
    forall i | 0 <= i < |a.activities| ensures Dehydrate(a).activityIds[i] == a.activities[i].id && Known(a.activities[i], store) {
    }
  }

  // ---- the window condition is exact ----

  ghost predicate OneAggregatePerGroup(z: ZSet) {
    forall m, n :: m in z && n in z && m != n && LoadText(m).Ok? && LoadText(n).Ok? ==>
      LoadText(m).value.group != LoadText(n).value.group
  }

  /** No id of the batch is retained already. */
  ghost predicate Fresh(xs: seq<Activity>, groups: Groups) {
    forall i, g :: 0 <= i < |xs| && g in groups ==> !Holds(groups[g].activities, xs[i].id)
  }

  /** A touched group that exists outside the window is opened a second time. */
  lemma OutsideWindowDuplicates(z: ZSet, groups: Groups, window: Groups, xs: seq<Activity>, i: nat, latest: seq<Agg>,
                                changed: seq<(Agg, Agg)>, groupOf: Grouping, store: Hydration.Store)
    requires Coherent(groups, groupOf, store) && Represents(z, groups) && Addable(xs, groupOf, store)
    requires Fresh(xs, groups) && forall g :: g in window ==> g in groups && window[g] == groups[g]
    requires MergeMap(window, xs, groupOf).Ok?
    requires var d := MergeMap(window, xs, groupOf).value; Lists(latest, d.latest) && Pairs(changed, window, d.changed)
    requires TimesDiffer(latest + Seconds(changed))
    requires i < |xs| && groupOf(xs[i]) in groups && groupOf(xs[i]) !in window
    ensures !OneAggregatePerGroup(Updated(z, Firsts(changed), latest + Seconds(changed)))
  {
    var g, toRemove, toAdd := groupOf(xs[i]), Firsts(changed), latest + Seconds(changed);
    var k := NewAggregate(window, xs, i, latest, groupOf, store);
    var a, b := latest[k], groups[g];
    FreshDiffers(a, b, xs, groups, g, groupOf, store);
    TextLoads(a, groupOf, store);
    TextLoads(b, groupOf, store);
    hide Good, MergeMap, Updated, StoredText, Represents, Fresh, Addable, TimesDiffer, Lists;
    NotRemoved(changed, window, groups, MergeMap(window, xs, groupOf).value.changed, g);
    BothStay(z, groups, toRemove, toAdd, k, g, groupOf, store);
    assert toAdd[k] == a;
  }

  lemma NotRemoved(changed: seq<(Agg, Agg)>, window: Groups, groups: Groups, next: Groups, g: string)
    requires Pairs(changed, window, next) && Aggregator.Keyed(groups) && g !in window
    requires forall h :: h in window ==> h in groups && window[h] == groups[h]
    ensures From(Firsts(changed), groups) && !Has(Firsts(changed), g)
  {
    PairsOfMore(changed, window, groups, next);
    FirstsFrom(changed, groups, next);
    var toRemove := Firsts(changed);
    assert forall j :: 0 <= j < |toRemove| ==> toRemove[j] == changed[j].0;
  }

  lemma BothStay(z: ZSet, groups: Groups, toRemove: seq<Agg>, toAdd: seq<Agg>, k: nat, g: string,
                 groupOf: Grouping, store: Hydration.Store)
    requires Coherent(groups, groupOf, store) && Represents(z, groups) && From(toRemove, groups)
    requires TimesDiffer(toAdd) && k < |toAdd| && g in groups && !Has(toRemove, g)
    ensures StoredText(toAdd[k]) in Updated(z, toRemove, toAdd)
    ensures StoredText(groups[g]) in Updated(z, toRemove, toAdd)
  {
    hide StoredText, Good, Updated;
    FromTimesDiffer(toRemove, groups);
    SerializedIff(toAdd);
    UpdatedMembers(z, toRemove, toAdd, StoredText(toAdd[k]));
    UpdatedMembers(z, toRemove, toAdd, StoredText(groups[g]));
    forall j | 0 <= j < |toRemove| ensures StoredText(toRemove[j]) != StoredText(groups[g]) {
      DifferentGroups(toRemove[j], groups[g], groupOf, store);
    }
  }

  lemma FirstsFrom(changed: seq<(Agg, Agg)>, groups: Groups, next: Groups)
    requires Pairs(changed, groups, next) && Aggregator.Keyed(groups)
    ensures From(Firsts(changed), groups)
  {
  }

  lemma DifferentGroups(a: Agg, b: Agg, groupOf: Grouping, store: Hydration.Store)
    requires Good(a, groupOf, store) && Good(b, groupOf, store) && a.group != b.group
    ensures StoredText(a) != StoredText(b)
  {
    if StoredText(a) == StoredText(b) {
      TextIsInjective(a, b, groupOf, store);
      assert false;
    }
  }

  lemma FreshDiffers(a: Agg, b: Agg, xs: seq<Activity>, groups: Groups, g: string, groupOf: Grouping, store: Hydration.Store)
    requires Good(a, groupOf, store) && Good(b, groupOf, store) && g in groups && groups[g] == b
    requires Fresh(xs, groups) && forall x :: x in a.activities ==> x in xs
    ensures StoredText(a) != StoredText(b)
  {
    assert a.activities[0] in xs;
    var i :| 0 <= i < |xs| && xs[i] == a.activities[0];
    assert Holds(a.activities, xs[i].id) && !Holds(b.activities, xs[i].id);
    if StoredText(a) == StoredText(b) {
      TextIsInjective(a, b, groupOf, store);
      assert false;
    }
  }

  /** The new aggregate a touched group outside the window gets. */
  lemma NewAggregate(window: Groups, xs: seq<Activity>, i: nat, latest: seq<Agg>, groupOf: Grouping,
                     store: Hydration.Store) returns (k: nat)
    requires Addable(xs, groupOf, store) && MergeMap(window, xs, groupOf).Ok?
    requires Lists(latest, MergeMap(window, xs, groupOf).value.latest)
    requires i < |xs| && groupOf(xs[i]) !in window
    ensures k < |latest| && latest[k].group == groupOf(xs[i]) && Good(latest[k], groupOf, store)
    ensures forall x :: x in latest[k].activities ==> x in xs
  {
    var s := SortById(xs);
    SortedHas(xs, i);
    SortedAddable(xs, groupOf, store);
    GroupFoldGood(s, groupOf, store);
    FoldMembers(s, groupOf);
    FoldGroups(s, groupOf);
    k := NewInFold(window, xs, s, GroupFold(s, groupOf).value, groupOf(xs[i]), latest, groupOf, store);
  }

  lemma NewInFold(window: Groups, xs: seq<Activity>, s: seq<Activity>, new_: Groups, g: string, latest: seq<Agg>,
                  groupOf: Grouping, store: Hydration.Store) returns (k: nat)
    requires Mergeable(window, new_) && Lists(latest, DiffOf(window, new_).latest)
    requires g in new_ && g !in window && new_[g].group == g && Good(new_[g], groupOf, store)
    requires (forall x :: x in new_[g].activities ==> x in s) && forall x :: x in s ==> x in xs
    ensures k < |latest| && latest[k].group == g && Good(latest[k], groupOf, store)
    ensures forall x :: x in latest[k].activities ==> x in xs
  {
    assert g in DiffOf(window, new_).latest;
    k :| 0 <= k < |latest| && latest[k].group == g;
  }

  lemma SortedHas(xs: seq<Activity>, i: nat)
    requires i < |xs|
    ensures exists p :: 0 <= p < |SortById(xs)| && SortById(xs)[p] == xs[i]
    ensures forall x :: x in SortById(xs) ==> x in xs
  {
    Sorting.SortPermutes(xs, LaterId);
    assert xs[i] in multiset(SortById(xs));
    forall x | x in SortById(xs) ensures x in xs {
      assert x in multiset(xs);
    }
  }

  lemma {:induction false} FoldMembers(s: seq<Activity>, groupOf: Grouping)
    requires GroupFold(s, groupOf).Ok?
    ensures forall g, x :: g in GroupFold(s, groupOf).value && x in GroupFold(s, groupOf).value[g].activities ==> x in s
  {
    hide Appended;
    if s != [] {
      var rest, x := s[..|s| - 1], s[|s| - 1];
      FoldMembers(rest, groupOf);
      assert s == rest + [x];
      AppendedMembers(Current(GroupFold(rest, groupOf).value, groupOf(x)), x);
    }
  }

  lemma {:induction false} FoldGroups(s: seq<Activity>, groupOf: Grouping)
    requires GroupFold(s, groupOf).Ok?
    ensures forall i :: 0 <= i < |s| ==> groupOf(s[i]) in GroupFold(s, groupOf).value
  {
    hide Appended;
    if s != [] {
      var rest := s[..|s| - 1];
      FoldGroups(rest, groupOf);
      assert forall i :: 0 <= i < |rest| ==> s[i] == rest[i];
    }
  }

  lemma AppendedMembers(a: Agg, x: Activity)
    requires Appended(a, x).Ok?
    ensures forall y :: y in Appended(a, x).value.activities ==> y in a.activities || y == x
  {
  }

  /** After an addition every group still has one aggregate exactly when the batch stayed
      inside the window that was read. */
  lemma OneAggregatePerGroupIff(z: ZSet, groups: Groups, window: Groups, xs: seq<Activity>, latest: seq<Agg>,
                                changed: seq<(Agg, Agg)>, groupOf: Grouping, store: Hydration.Store)
    requires Coherent(groups, groupOf, store) && Represents(z, groups) && Addable(xs, groupOf, store)
    requires Fresh(xs, groups) && forall g :: g in window ==> g in groups && window[g] == groups[g]
    requires MergeMap(window, xs, groupOf).Ok? && MergeMap(groups, xs, groupOf).Ok?
    requires var d := MergeMap(window, xs, groupOf).value; Lists(latest, d.latest) && Pairs(changed, window, d.changed)
    requires TimesDiffer(latest + Seconds(changed))
    requires DistinctTimes(Apply(groups, MergeMap(groups, xs, groupOf).value))
    ensures OneAggregatePerGroup(Updated(z, Firsts(changed), latest + Seconds(changed)))
       <==> TouchesOnly(xs, groups, window, groupOf)
  {
    hide Coherent, Represents, Updated, MergeMap, Lists, Pairs, Fresh, Addable, TimesDiffer, DistinctTimes,
         OneAggregatePerGroup, Apply;
    if TouchesOnly(xs, groups, window, groupOf) {
      AddRefines(z, groups, window, xs, latest, changed, groupOf, store);
      CoherentIsUnique(Updated(z, Firsts(changed), latest + Seconds(changed)),
                       Apply(groups, MergeMap(groups, xs, groupOf).value), groupOf, store);
    } else {
      var i :| 0 <= i < |xs| && groupOf(xs[i]) in groups && groupOf(xs[i]) !in window;
      OutsideWindowDuplicates(z, groups, window, xs, i, latest, changed, groupOf, store);
    }
  }

  lemma CoherentIsUnique(z: ZSet, groups: Groups, groupOf: Grouping, store: Hydration.Store)
    requires Coherent(groups, groupOf, store) && Represents(z, groups)
    ensures OneAggregatePerGroup(z)
  {
    hide LoadText;
    forall m, n | m in z && n in z && m != n && LoadText(m).Ok? && LoadText(n).Ok?
      ensures LoadText(m).value.group != LoadText(n).value.group
    {
      StoredInvariant(z, groups, m, n, groupOf, store);
    }
  }

  // ---- the class ----

  /** What `dumps` leaves of its arguments: it dehydrates them. */
  function LeftByDumps(aggs: seq<Agg>): seq<Agg> {
    seq(|aggs|, i requires 0 <= i < |aggs| => if aggs[i].dehydrated then aggs[i] else Dehydrate(aggs[i]))
  }

  lemma LeftNothing()
    ensures LeftByDumps([]) == []
  {
  }

  lemma LeftSnoc(aggs: seq<Agg>, i: nat)
    requires i < |aggs|
    ensures LeftByDumps(aggs[..i + 1]) == LeftByDumps(aggs[..i]) + LeftByDumps([aggs[i]])
  {
  }

  method DumpOne(a: Agg) returns (text: Result<string>, after: Agg)
    ensures text == DumpText(a)
    ensures text.Ok? ==> [after] == LeftByDumps([a])
  {
    hide DumpText;
    var aggregated := new AggregatedActivity.Clone(a);
    text := Dumps(aggregated);
    after := aggregated.agg;
  }

  /** `serializeActivities`: throws on a reserved group before anything is written. */
  method SerializeActivities(aggs: seq<Agg>) returns (r: Result<seq<Agg>>, left: seq<Agg>)
    ensures r.Ok? <==> forall i :: 0 <= i < |aggs| ==> DumpText(aggs[i]).Ok?
    ensures r.Ok? ==> r.value == Serialized(aggs) && left == LeftByDumps(aggs)
  {
    hide DumpText, LeftByDumps, TimePlace, UpdateTime;
    var dict: seq<Agg> := [];
    left := [];
    assert LeftByDumps(aggs[..0]) == [] by {
      LeftNothing();
      assert aggs[..0] == [];
    }
    for i := 0 to |aggs|
      invariant dict == Serialized(aggs[..i]) && left == LeftByDumps(aggs[..i])
      invariant forall j :: 0 <= j < i ==> DumpText(aggs[j]).Ok?
    {
      var text, after := DumpOne(aggs[i]);
      left := left + [after];
      if text.Err? {
        return Err(SerializationError), left;
      }
      LeftSnoc(aggs, i);
      assert aggs[..i + 1][..i] == aggs[..i] && aggs[..i + 1][i] == aggs[i];
      var place := TimePlace(dict, UpdateTime(aggs[i]));
      if place.Some? && place.value < |dict| {
        dict := dict[place.value := aggs[i]];
      } else {
        dict := dict + [aggs[i]];
      }
    }
    assert aggs[..|aggs|] == aggs;
    r := Ok(dict);
  }

  /** What an addition returns: the new aggregates and the grown ones, ranked and, as `dumps`
      leaves them, dehydrated. */
  ghost predicate Reports(list: seq<Agg>, d: Diff, window: Groups) {
    OldestFirst(list) && exists latest, changed ::
      Lists(latest, d.latest) && Pairs(changed, window, d.changed) &&
      multiset(list) == multiset(LeftByDumps(latest + Seconds(changed)))
  }

  /** Ranks what was written back. */
  method Ranked(written: seq<Agg>, ghost latest: seq<Agg>, ghost changed: seq<(Agg, Agg)>, ghost d: Diff,
                ghost window: Groups) returns (list: seq<Agg>)
    requires Lists(latest, d.latest) && Pairs(changed, window, d.changed)
    requires written == LeftByDumps(latest + Seconds(changed))
    ensures Reports(list, d, window)
  {
    hide Lists, Pairs, OldestFirst, LeftByDumps;
    var ranked := new Agg[|written|](i requires 0 <= i < |written| => written[i]);
    assert ranked[..] == written;
    Rank(ranked);
    list := ranked[..];
  }

  class AggregatedFeed {
    const timeline: RedisSortedSetCache
    const maxLength: nat
    const groupOf: Grouping
    var activityStorage: Hydration.Store
    ghost var groups: Groups

    /** The sorted set represents the aggregates in `groups`. */
    ghost predicate Valid()
      reads this, timeline
    {
      maxLength > 0 && !timeline.sortAsc && Hydration.Keyed(activityStorage) &&
      Coherent(groups, groupOf, activityStorage) && Represents(timeline.z, groups)
    }

    constructor (timeline: RedisSortedSetCache, maxLength: nat, groupOf: Grouping)
      requires maxLength > 0 && !timeline.sortAsc && timeline.z == map[]
      ensures Valid() && groups == map[] && activityStorage == map[]
      ensures this.timeline == timeline && this.maxLength == maxLength && this.groupOf == groupOf
    {
      this.timeline := timeline;
      this.maxLength := maxLength;
      this.groupOf := groupOf;
      this.activityStorage := map[];
      this.groups := map[];
      new;
      EmptyFeed(groupOf, map[]);
    }

    /** `insertActivities`, which goes before an addition. Where it replaces no stored body by
        a different one, nothing changes for the feed. */
    method InsertActivities(activities: seq<Activity>)
      requires Valid()
      modifies this`activityStorage
      ensures activityStorage == Hydration.Stored(old(activityStorage), activities)
      ensures Hydration.Keyed(activityStorage)
      ensures Hydration.Grows(old(activityStorage), activityStorage) ==> Valid()
    {
      hide Coherent, Represents, Hydration.Stored;
      Hydration.StoredIsKeyed(activityStorage, activities);
      ghost var before := activityStorage;
      activityStorage := Hydration.Stored(activityStorage, activities);
      if Hydration.Grows(before, activityStorage) {
        CoherentAsStoreGrows(groups, groupOf, before, activityStorage);
      }
    }

    /** The first `n` entries, still dehydrated. */
    method GetSlice(n: nat) returns (r: Result<seq<Agg>>)
      requires n > 0 && !timeline.sortAsc
      ensures r == LoadAll(Limit(Listing(timeline.z), 0, n))
    {
      hide Listing, LoadText;
      var pairs := timeline.GetResults(None, Some(n));
      ghost var members := Limit(Listing(timeline.z), 0, n);
      var activities: seq<Agg> := [];
      for i := 0 to |pairs|
        invariant LoadAll(members[..i]) == Ok(activities)
      {
        assert members[..i + 1][..i] == members[..i] && members[..i + 1][i] == pairs[i].1;
        var loaded := LoadText(pairs[i].1);
        if loaded.Err? {
          LoadAllStopsAt(members, i + 1);
          return Err(SerializationError);
        }
        activities := activities + [loaded.value];
      }
      assert members[..|pairs|] == members;
      r := Ok(activities);
    }

    method GetItem(n: nat) returns (r: Result<seq<Agg>>)
      requires n > 0 && !timeline.sortAsc
      ensures r == Slice(timeline.z, n, activityStorage)
    {
      var loaded := GetSlice(n);
      r := if loaded.Err? then loaded else Hydration.HydrateAll(loaded.value, activityStorage);
    }

    method RemoveManyAggregated(aggregated: seq<Agg>) returns (r: Result<()>)
      modifies timeline
      ensures r.Ok? <==> forall i :: 0 <= i < |aggregated| ==> DumpText(aggregated[i]).Ok?
      ensures timeline.z == if r.Ok? then Without(old(timeline.z), TextsOf(Serialized(aggregated))) else old(timeline.z)
    {
      var dict, left := SerializeActivities(aggregated);
      if dict.Err? {
        return Err(dict.error);
      }
      var results := timeline.RemoveMany(TextsOf(dict.value));
      r := Ok(());
    }

    /** Leaves the aggregates dehydrated. */
    method AddManyAggregated(aggregated: seq<Agg>) returns (r: Result<seq<Agg>>)
      modifies timeline
      ensures r.Ok? ==> r.value == LeftByDumps(aggregated)
      ensures r.Ok? <==> forall i :: 0 <= i < |aggregated| ==> DumpText(aggregated[i]).Ok?
      ensures timeline.z == if r.Ok? then ZAdd(old(timeline.z), PairsOf(Serialized(aggregated))) else old(timeline.z)
    {
      var dict, left := SerializeActivities(aggregated);
      if dict.Err? {
        return Err(dict.error);
      }
      var d := dict.value;
      var pairs: seq<(Option<real>, string)> :=
        seq(|d|, i requires 0 <= i < |d| => (Some(Score(d[i])), StoredText(d[i])));
      if d != [] {
        var results := timeline.AddMany(pairs);
        assert results.Ok?;
        assert Numeric(pairs) == PairsOf(d);
      }
      r := Ok(left);
    }

    /** Removes first, then adds: a throw in between leaves the removals done. */
    method UpdateFromDiff(latest: seq<Agg>, changed: seq<(Agg, Agg)>, deleted: seq<Agg>)
      returns (r: Result<seq<Agg>>)
      modifies timeline
      ensures r.Ok? <==> (forall i :: 0 <= i < |deleted + Firsts(changed)| ==> DumpText((deleted + Firsts(changed))[i]).Ok?) &&
                         forall i :: 0 <= i < |latest + Seconds(changed)| ==> DumpText((latest + Seconds(changed))[i]).Ok?
      ensures r.Ok? ==> timeline.z == Updated(old(timeline.z), deleted + Firsts(changed), latest + Seconds(changed))
      ensures r.Ok? ==> r.value == LeftByDumps(latest + Seconds(changed))
    {
      var toRemove, toAdd := deleted, latest;
      for i := 0 to |changed|
        invariant toRemove == deleted + Firsts(changed)[..i] && toAdd == latest + Seconds(changed)[..i]
      {
        toRemove, toAdd := toRemove + [changed[i].0], toAdd + [changed[i].1];
      }
      assert toRemove == deleted + Firsts(changed) && toAdd == latest + Seconds(changed);
      var removed := RemoveManyAggregated(toRemove);
      if removed.Err? {
        return Err(removed.error);
      }
      var added := AddManyAggregated(toAdd);
      if added.Err? {
        return Err(added.error);
      }
      r := added;
    }

    /** Reads the window, merges, writes the diff back, trims when the dice say so. The
        batch and the stored bodies are as the documentation demands: bodies first. */
    method AddMany(activities: array<Activity>, trimNow: bool) returns (r: Result<seq<Agg>>)
      requires Valid() && Addable(activities[..], groupOf, activityStorage)
      modifies this`groups, timeline, activities
      ensures r.Err? <==> MergeMap(Newest(old(groups), MERGE_MAX_LENGTH), old(activities[..]), groupOf).Err?
      ensures r.Err? ==> timeline.z == old(timeline.z) && Valid() && groups == old(groups)
      ensures r.Ok? ==> Reports(r.value, MergeMap(Newest(old(groups), MERGE_MAX_LENGTH), old(activities[..]), groupOf).value,
                                Newest(old(groups), MERGE_MAX_LENGTH))
      ensures r.Ok? ==> Writes(old(timeline.z), Adding(old(activities[..]), trimNow), timeline.z, maxLength, groupOf, activityStorage)
      ensures r.Ok? && Allowed(old(groups), Adding(old(activities[..]), trimNow), maxLength, groupOf, activityStorage) ==>
                Valid() && groups == NextGroups(old(groups), Adding(old(activities[..]), trimNow), maxLength, groupOf)
    {
      hide Coherent, Represents, Addable, Slice, MergeMap, Allowed, Writes, NextGroups, Lists, Pairs, Listing, DumpText,
           Reports, LeftByDumps, Newest;
      ghost var z0, xs, op := timeline.z, activities[..], Adding(activities[..], trimNow);
      SliceIsNewest(timeline.z, groups, MERGE_MAX_LENGTH, groupOf, activityStorage);
      var current := GetItem(MERGE_MAX_LENGTH);
      var merged, latest, changed := Merge(current.value, activities, groupOf);
      if merged.Err? {
        return Err(DuplicateActivity);
      }
      MergedTexts(z0, groups, xs, latest, changed, groupOf, activityStorage);
      r := UpdateFromDiff(latest, changed, []);
      assert [] + Firsts(changed) == Firsts(changed);
      AddWritesHolds(z0, xs, latest, changed, timeline.z, groupOf, activityStorage);
      ghost var z1 := timeline.z;
      var ranked := Ranked(r.value, latest, changed, MergeMap(Newest(groups, MERGE_MAX_LENGTH), xs, groupOf).value,
                           Newest(groups, MERGE_MAX_LENGTH));
      r := Ok(ranked);
      if trimNow {
        var removed := timeline.Trim(Some(maxLength));
      }
      TrimWritesHolds(z0, xs, z1, trimNow, maxLength, groupOf, activityStorage);
      if Allowed(groups, op, maxLength, groupOf, activityStorage) {
        StepRefines(z0, groups, op, timeline.z, maxLength, groupOf, activityStorage);
        groups := NextGroups(groups, op, maxLength, groupOf);
      }
    }

    /** Trims, reads everything that is left without bodies, finds the hits, hydrates, and
        writes every aggregate back: emptied ones go, the others return shrunken. */
    method RemoveMany(activities: seq<Activity>) returns (r: Result<seq<Agg>>)
      requires Valid()
      modifies this`groups, timeline
      ensures r.Ok? && exists deleted, changed ::
        Covers(Newest(old(groups), maxLength), ToSet(HashCache.Uniq(IdsOf(activities))), deleted, changed) &&
        r.value == LeftByDumps(Seconds(changed))
      ensures Writes(old(timeline.z), Removing(HashCache.Uniq(IdsOf(activities))), timeline.z, maxLength, groupOf, activityStorage)
      ensures Allowed(old(groups), Removing(HashCache.Uniq(IdsOf(activities))), maxLength, groupOf, activityStorage) ==>
        Valid() &&
        groups == NextGroups(old(groups), Removing(HashCache.Uniq(IdsOf(activities))), maxLength, groupOf)
    {
      hide Coherent, Represents, Slice, Covers, Part, GoodList, Listing, LoadAll, Limit, Allowed, NextGroups, Writes, DumpText;
      ghost var z0, g0 := timeline.z, groups;
      var wanted := HashCache.Uniq(IdsOf(activities));
      ghost var op := Removing(wanted);
      UniqIsDistinct(IdsOf(activities));
      var trimmed := timeline.Trim(Some(maxLength));
      ghost var z1 := timeline.z;
      TrimmedFeed(z0, groups, maxLength, groupOf, activityStorage);
      var slice := GetSlice(maxLength);
      ghost var s := Slice(z1, maxLength, activityStorage).value;
      var hits := FindAllHits(slice.value, ToSet(wanted), s, groupOf, activityStorage);
      SliceHydratesTo(z1, maxLength, activityStorage);
      var hydrated := Hydration.HydrateAll(slice.value, activityStorage);
      var deleted, changed := Divide(hydrated.value, hits, wanted, groupOf, activityStorage);
      PartsCover(Limit(Listing(z1), 0, maxLength), s, Newest(g0, maxLength), ToSet(wanted), changed);
      RemovedTexts(Newest(g0, maxLength), ToSet(wanted), deleted, changed, groupOf, activityStorage);
      r := UpdateFromDiff([], changed, deleted);
      RemoveWritesHolds(z0, wanted, deleted, changed, timeline.z, maxLength, groupOf, activityStorage);
      if Allowed(groups, op, maxLength, groupOf, activityStorage) {
        StepRefines(z0, groups, op, timeline.z, maxLength, groupOf, activityStorage);
        groups := NextGroups(groups, op, maxLength, groupOf);
      }
    }
  }

  lemma UniqIsDistinct(fields: seq<string>)
    ensures HashCache.NoDuplicates(HashCache.Uniq(fields))
  {
    if fields != [] {
      UniqIsDistinct(fields[..|fields| - 1]);
    }
  }

  /** The loop over the hydrated aggregates. */
  method Divide(s: seq<Agg>, hits: seq<seq<string>>, wanted: seq<string>, ghost groupOf: Grouping,
                ghost store: Hydration.Store) returns (deleted: seq<Agg>, changed: seq<(Agg, Agg)>)
    requires GoodList(s, groupOf, store) && HashCache.NoDuplicates(wanted) && hits == HitsOf(s, ToSet(wanted))
    ensures deleted == Part(s, ToSet(wanted), true) && Firsts(changed) == Part(s, ToSet(wanted), false)
    ensures forall i :: 0 <= i < |changed| ==> changed[i].1 == Shrunk(changed[i].0, ToSet(wanted))
  {
    hide Good, Shrunk, Kept, Filtered;
    deleted, changed := [], [];
    for i := 0 to |s|
      invariant deleted == Part(s[..i], ToSet(wanted), true) && Firsts(changed) == Part(s[..i], ToSet(wanted), false)
      invariant forall k :: 0 <= k < |changed| ==> changed[k].1 == Shrunk(changed[k].0, ToSet(wanted))
    {
      assert s[..i + 1][..i] == s[..i] && s[..i + 1][i] == s[i];
      HitOrKept(s[i].activities, ToSet(wanted));
      if |s[i].activities| == |hits[i]| {
        deleted := deleted + [s[i]];
      } else {
        var shrunk := ShrinkCopy(s[i], hits[i], wanted, groupOf, store);
        assert Firsts(changed + [(s[i], shrunk)]) == Firsts(changed) + [s[i]];
        changed := changed + [(s[i], shrunk)];
      }
    }
    assert s[..|s|] == s;
  }

  /** The feed right after the trim that opens a removal. */
  lemma TrimmedFeed(z: ZSet, groups: Groups, max: nat, groupOf: Grouping, store: Hydration.Store)
    requires Hydration.Keyed(store) && Coherent(groups, groupOf, store) && Represents(z, groups)
    ensures var s := Slice(Keep(z, max), max, store);
      s.Ok? && ByGroup(s.value) == Newest(groups, max) && GoodList(s.value, groupOf, store) && DistinctGroups(s.value) &&
      Decodes(Limit(Listing(Keep(z, max)), 0, max), s.value, Newest(groups, max)) &&
      LoadAll(Limit(Listing(Keep(z, max)), 0, max)) == Ok(Dehydrated(s.value))
    ensures AllGood(Newest(groups, max), groupOf, store)
  {
    NewestIsTop(z, groups, max, groupOf, store);
    SliceIsNewest(Keep(z, max), Newest(groups, max), max, groupOf, store);
    NewestAgain(groups, max);
  }

  lemma SliceHydratesTo(z: ZSet, max: nat, store: Hydration.Store)
    requires Slice(z, max, store).Ok?
    ensures LoadAll(Limit(Listing(z), 0, max)).Ok?
    ensures Hydration.HydrateAll(LoadAll(Limit(Listing(z), 0, max)).value, store) == Slice(z, max, store)
  {
    hide Listing, LoadAll;
  }

  lemma RemovedTexts(groups: Groups, ids: set<string>, deleted: seq<Agg>, changed: seq<(Agg, Agg)>, groupOf: Grouping,
                     store: Hydration.Store)
    requires AllGood(groups, groupOf, store) && Covers(groups, ids, deleted, changed)
    ensures forall i :: 0 <= i < |deleted + Firsts(changed)| ==> DumpText((deleted + Firsts(changed))[i]).Ok?
    ensures forall i :: 0 <= i < |[] + Seconds(changed)| ==> DumpText(([] + Seconds(changed))[i]).Ok?
    ensures [] + Seconds(changed) == Seconds(changed)
  {
    AllDump(groups, groupOf, store);
    RemovedGood(groups, ids, groupOf, store);
    AllDump(RemoveGroups(groups, ids), groupOf, store);
    hide DumpText, Good;
    var all := deleted + Firsts(changed);
    forall i | 0 <= i < |changed| ensures DumpText(changed[i].1).Ok? {
      assert all[|deleted| + i] == changed[i].0;
      assert RemoveGroups(groups, ids)[changed[i].0.group] == changed[i].1;
    }
  }

  lemma RemoveWritesHolds(z: ZSet, ids: seq<string>, deleted: seq<Agg>, changed: seq<(Agg, Agg)>, z': ZSet, max: nat,
                          groupOf: Grouping, store: Hydration.Store)
    requires Slice(Keep(z, max), max, store).Ok?
    requires Covers(ByGroup(Slice(Keep(z, max), max, store).value), ToSet(ids), deleted, changed)
    requires z' == Updated(Keep(z, max), deleted + Firsts(changed), Seconds(changed))
    ensures Writes(z, Removing(ids), z', max, groupOf, store)
  {
    hide Slice, Covers, Updated, Keep, ByGroup;
  }

  lemma AddWritesHolds(z: ZSet, xs: seq<Activity>, latest: seq<Agg>, changed: seq<(Agg, Agg)>, z': ZSet,
                       groupOf: Grouping, store: Hydration.Store)
    requires Slice(z, MERGE_MAX_LENGTH, store).Ok?
    requires var window := ByGroup(Slice(z, MERGE_MAX_LENGTH, store).value);
             var d := MergeMap(window, xs, groupOf);
             d.Ok? && Lists(latest, d.value.latest) && Pairs(changed, window, d.value.changed)
    requires z' == Updated(z, Firsts(changed), latest + Seconds(changed))
    ensures AddWrites(z, xs, z', groupOf, store)
  {
    hide Slice, MergeMap, Lists, Pairs, Updated, ByGroup;
  }

  lemma TrimWritesHolds(z: ZSet, xs: seq<Activity>, w: ZSet, trim: bool, max: nat, groupOf: Grouping,
                        store: Hydration.Store)
    requires AddWrites(z, xs, w, groupOf, store)
    ensures Writes(z, Adding(xs, trim), if trim then Keep(w, max) else w, max, groupOf, store)
  {
    hide AddWrites, Keep;
  }

  lemma {:induction false} LoadAllStopsAt(members: seq<string>, i: nat)
    requires i <= |members| && LoadAll(members[..i]).Err?
    ensures LoadAll(members) == Err(SerializationError)
    decreases |members|
  {
    hide LoadText;
    if i == |members| {
      assert members[..i] == members;
    } else {
      assert members[..|members| - 1][..i] == members[..i];
      LoadAllStopsAt(members[..|members| - 1], i);
    }
  }

  /** Nothing a merge writes back has a reserved group. */
  lemma MergedTexts(z: ZSet, groups: Groups, xs: seq<Activity>, latest: seq<Agg>, changed: seq<(Agg, Agg)>,
                    groupOf: Grouping, store: Hydration.Store)
    requires Coherent(groups, groupOf, store) && Addable(xs, groupOf, store)
    requires MergeMap(Newest(groups, MERGE_MAX_LENGTH), xs, groupOf).Ok?
    requires var d := MergeMap(Newest(groups, MERGE_MAX_LENGTH), xs, groupOf).value;
             Lists(latest, d.latest) && Pairs(changed, Newest(groups, MERGE_MAX_LENGTH), d.changed)
    ensures forall i :: 0 <= i < |Firsts(changed)| ==> DumpText(Firsts(changed)[i]).Ok?
    ensures forall i :: 0 <= i < |latest + Seconds(changed)| ==> DumpText((latest + Seconds(changed))[i]).Ok?
  {
    hide DumpText, Good, DistinctTimes, Addable, Later;
    var window := Newest(groups, MERGE_MAX_LENGTH);
    var e := MergeMap(window, xs, groupOf).value;
    assert e.latest.Keys !! e.changed.Keys;
    hide MergeMap;
    MergedGood(window, xs, groupOf, store);
    var d := MergeMap(window, xs, groupOf).value;
    AllDump(window, groupOf, store);
    AllDump(Apply(window, d), groupOf, store);
    forall g | g in d.latest || g in d.changed
      ensures Apply(window, d)[g] == if g in d.latest then d.latest[g] else d.changed[g]
    {
    }
    hide Coherent, AllGood, Newest, Apply;
    PiecesDump(latest, changed, window, d);
  }

  lemma PiecesDump(latest: seq<Agg>, changed: seq<(Agg, Agg)>, window: Groups, d: Diff)
    requires Lists(latest, d.latest) && Pairs(changed, window, d.changed)
    requires forall g :: g in d.latest ==> DumpText(d.latest[g]).Ok?
    requires forall g :: g in d.changed ==> DumpText(d.changed[g]).Ok?
    ensures forall i :: 0 <= i < |latest + Seconds(changed)| ==> DumpText((latest + Seconds(changed))[i]).Ok?
  {
    hide DumpText;
    var all := latest + Seconds(changed);
    forall i | 0 <= i < |all|
      ensures all[i] == if i < |latest| then d.latest[latest[i].group] else d.changed[changed[i - |latest|].0.group]
    {
    }
  }

  lemma AllDump(groups: Groups, groupOf: Grouping, store: Hydration.Store)
    requires AllGood(groups, groupOf, store)
    ensures forall g :: g in groups ==> DumpText(groups[g]).Ok?
  {
    forall g | g in groups ensures DumpText(groups[g]).Ok? {
      TextLoads(groups[g], groupOf, store);
    }
  }
}
