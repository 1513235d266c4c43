/** `removeMany` of src/feeds/aggregated_feed/AggregatedFeed.ts up to the diff: which retained
    activities are hit, which aggregates go and what becomes of the others. */
module AggregateRemoval {
  import opened Results
  import opened Activities
  import opened Aggregates
  import opened Aggregator
  import opened AggregateStore
  import opened AggregateSteps
  import opened WriteBack
  import opened Ranking
  import Hydration
  import HashCache

  function Filtered(ids: seq<string>, wanted: set<string>): seq<string> {
    if ids == [] then []
    else Filtered(ids[..|ids| - 1], wanted) + (if ids[|ids| - 1] in wanted then [ids[|ids| - 1]] else [])
  }

  lemma {:induction false} FilteredHolds(ids: seq<string>, wanted: set<string>)
    ensures forall id :: id in Filtered(ids, wanted) <==> id in ids && id in wanted
    ensures HashCache.NoDuplicates(ids) ==> HashCache.NoDuplicates(Filtered(ids, wanted))
  {
    if ids != [] {
      var rest, x := ids[..|ids| - 1], ids[|ids| - 1];
      FilteredHolds(rest, wanted);
      assert ids == rest + [x];
      var f := Filtered(rest, wanted);
      if HashCache.NoDuplicates(ids) {
        assert forall i :: 0 <= i < |rest| ==> rest[i] == ids[i];
        forall i | 0 <= i < |f| ensures f[i] != x {
          assert f[i] in rest;
        }
      }
    }
  }

  lemma {:induction false} SameFiltered(ids: seq<string>, a: set<string>, b: set<string>)
    requires forall id :: id in ids ==> (id in a <==> id in b)
    ensures Filtered(ids, a) == Filtered(ids, b)
  {
    if ids != [] {
      assert ids[|ids| - 1] in ids;
      SameFiltered(ids[..|ids| - 1], a, b);
    }
  }

  lemma {:induction false} SameKept(activities: seq<Activity>, a: set<string>, b: set<string>)
    requires forall x :: x in activities ==> (x.id in a <==> x.id in b)
    ensures Kept(activities, a) == Kept(activities, b)
  {
    if activities != [] {
      assert activities[|activities| - 1] in activities;
      SameKept(activities[..|activities| - 1], a, b);
    }
  }

  /** Every activity is either hit or kept. */
  lemma {:induction false} HitOrKept(activities: seq<Activity>, ids: set<string>)
    ensures |Filtered(IdsOf(activities), ids)| + |Kept(activities, ids)| == |activities|
  {
    if activities != [] {
      var rest := activities[..|activities| - 1];
      assert IdsOf(activities)[..|activities| - 1] == IdsOf(rest);
      HitOrKept(rest, ids);
    }
  }

  /** The inner loop: what is found is struck off the list of what is looked for. */
  method FindHits(ids: seq<string>, toFind: set<string>) returns (mine: seq<string>, left: set<string>)
    requires HashCache.NoDuplicates(ids)
    ensures mine == Filtered(ids, toFind) && left == toFind - (set id | id in ids)
  {
    mine, left := [], toFind;
    for j := 0 to |ids|
      invariant mine == Filtered(ids[..j], toFind) && left == toFind - (set id | id in ids[..j])
    {
      assert ids[..j + 1][..j] == ids[..j] && ids[..j + 1] == ids[..j] + [ids[j]];
      assert ids[j] !in ids[..j];
      if ids[j] in left {
        mine, left := mine + [ids[j]], left - {ids[j]};
      }
    }
    assert ids[..|ids|] == ids;
  }

  lemma IdsDisjoint(s: seq<Agg>, i: nat, k: nat, groupOf: Grouping, store: Hydration.Store)
    requires GoodList(s, groupOf, store) && i < k < |s|
    ensures forall id :: id in IdsOf(s[i].activities) ==> id !in IdsOf(s[k].activities)
  {
    OwnGroup(s[i], groupOf, store);
    OwnGroup(s[k], groupOf, store);
    assert s[i].group != s[k].group;
  }

  lemma OwnGroup(a: Agg, groupOf: Grouping, store: Hydration.Store)
    requires Good(a, groupOf, store)
    ensures forall id :: id in IdsOf(a.activities) ==> id in store && groupOf(store[id]) == a.group
  {
    forall id | id in IdsOf(a.activities) ensures id in store && groupOf(store[id]) == a.group {
      var p :| 0 <= p < |a.activities| && a.activities[p].id == id;
      assert Known(a.activities[p], store);
    }
  }

  ghost function HitsOf(s: seq<Agg>, ids: set<string>): seq<seq<string>> {
    seq(|s|, i requires 0 <= i < |s| => Filtered(IdsOf(s[i].activities), ids))
  }

  /** The outer loop, over the dehydrated slice. */
  method FindAllHits(dehydrated: seq<Agg>, ids: set<string>, ghost s: seq<Agg>, ghost groupOf: Grouping,
                     ghost store: Hydration.Store) returns (hits: seq<seq<string>>)
    requires GoodList(s, groupOf, store) && dehydrated == Dehydrated(s)
    ensures hits == HitsOf(s, ids)
  {
    hide Good;
    hits := [];
    var toFind := ids;
    for i := 0 to |dehydrated|
      invariant hits == HitsOf(s, ids)[..i]
      invariant forall k, id :: i <= k < |s| && id in IdsOf(s[k].activities) ==> (id in toFind <==> id in ids)
    {
      var mine := dehydrated[i].activityIds;
      assert mine == IdsOf(s[i].activities);
      DistinctIdList(s[i], groupOf, store);
      SameFiltered(mine, toFind, ids);
      var found, left := FindHits(mine, toFind);
      forall k, id | i < k < |s| && id in IdsOf(s[k].activities) ensures id in left <==> id in ids {
        IdsDisjoint(s, i, k, groupOf, store);
      }
      hits, toFind := hits + [found], left;
    }
  }

  lemma DistinctIdList(a: Agg, groupOf: Grouping, store: Hydration.Store)
    requires Good(a, groupOf, store)
    ensures HashCache.NoDuplicates(IdsOf(a.activities))
  {
  }

  // ---- what becomes of one aggregate ----

  lemma SameLength(a: seq<string>, b: seq<string>)
    requires HashCache.NoDuplicates(a) && HashCache.NoDuplicates(b) && forall id :: id in a <==> id in b
    ensures |a| == |b|
  {
    ElementCount(a);
    ElementCount(b);
    assert (set x | x in a) == (set x | x in b);
  }

  /** The hit activities, in the order in which the caller named them. */
  lemma OrderedHits(a: Agg, wanted: seq<string>, groupOf: Grouping, store: Hydration.Store)
    requires Good(a, groupOf, store) && HashCache.NoDuplicates(wanted)
    requires Kept(a.activities, ToSet(wanted)) != []
    ensures var hits := Filtered(IdsOf(a.activities), ToSet(wanted));
            RemovedAll(a, Filtered(wanted, ToSet(hits))) == (Shrunk(a, ToSet(wanted)), true)
  {
    var ids := IdsOf(a.activities);
    var hits := Filtered(ids, ToSet(wanted));
    var ordered := Filtered(wanted, ToSet(hits));
    FilteredHolds(ids, ToSet(wanted));
    FilteredHolds(wanted, ToSet(hits));
    SameLength(hits, ordered);
    HitOrKept(a.activities, ToSet(wanted));
    forall i | 0 <= i < |ordered| ensures Holds(a.activities, ordered[i]) {
      assert ordered[i] in ordered;
    }
    RemovedAllIsShrunk(a, ordered);
    forall x | x in a.activities ensures x.id in ToSet(ordered) <==> x.id in ToSet(wanted) {
      var k :| 0 <= k < |a.activities| && a.activities[k] == x;
      assert ids[k] == x.id && x.id in ids;
    }
    SameKept(a.activities, ToSet(ordered), ToSet(wanted));
  }

  method ShrinkCopy(a: Agg, hits: seq<string>, wanted: seq<string>, ghost groupOf: Grouping, ghost store: Hydration.Store)
    returns (shrunk: Agg)
    requires Good(a, groupOf, store) && HashCache.NoDuplicates(wanted)
    requires hits == Filtered(IdsOf(a.activities), ToSet(wanted)) && Kept(a.activities, ToSet(wanted)) != []
    ensures shrunk == Shrunk(a, ToSet(wanted))
  {
    OrderedHits(a, wanted, groupOf, store);
    var copy := new AggregatedActivity.Clone(a);
    var removed := copy.RemoveMany(Filtered(wanted, ToSet(hits)));
    shrunk := copy.agg;
  }

  // ---- the diff ----

  /** The aggregates of `s` that lose everything, or that keep something. */
  ghost function Part(s: seq<Agg>, ids: set<string>, emptied: bool): seq<Agg> {
    if s == [] then []
    else
      var a := s[|s| - 1];
      Part(s[..|s| - 1], ids, emptied) + (if Kept(a.activities, ids) == [] <==> emptied then [a] else [])
  }

  lemma {:induction false} PartHolds(s: seq<Agg>, ids: set<string>, emptied: bool)
    ensures forall a :: a in Part(s, ids, emptied) <==> a in s && (Kept(a.activities, ids) == [] <==> emptied)
  {
    hide Kept;
    if s != [] {
      var rest, a := s[..|s| - 1], s[|s| - 1];
      PartHolds(rest, ids, emptied);
      assert s == rest + [a];
    }
  }

  lemma {:induction false} PartIsDistinct(s: seq<Agg>, ids: set<string>, emptied: bool)
    requires DistinctGroups(s)
    ensures DistinctGroups(Part(s, ids, emptied))
  {
    hide Kept;
    if s != [] {
      var rest, a := s[..|s| - 1], s[|s| - 1];
      PartIsDistinct(rest, ids, emptied);
      PartHolds(rest, ids, emptied);
      var p := Part(rest, ids, emptied);
      forall i | 0 <= i < |p| ensures p[i].group != a.group {
        assert p[i] in rest;
        var k :| 0 <= k < |rest| && rest[k] == p[i];
        assert s[k] == p[i];
      }
    }
  }

  lemma PartsCover(members: seq<string>, s: seq<Agg>, groups: Groups, ids: set<string>, changed: seq<(Agg, Agg)>)
    requires Decodes(members, s, groups) && ByGroup(s) == groups && DistinctGroups(s)
    requires Firsts(changed) == Part(s, ids, false)
    requires forall i :: 0 <= i < |changed| ==> changed[i].1 == Shrunk(changed[i].0, ids)
    ensures Covers(groups, ids, Part(s, ids, true), changed)
  {
    hide Kept, Shrunk, ByGroup, Part, StoredText;
    var deleted, kept := Part(s, ids, true), Part(s, ids, false);
    PartHolds(s, ids, true);
    PartHolds(s, ids, false);
    PartIsDistinct(s, ids, true);
    PartIsDistinct(s, ids, false);
    var all := deleted + kept;
    PartsFrom(s, groups, deleted, kept, ids);
    forall g | g in groups ensures Has(all, g) {
      PartsHave(s, deleted, kept, g);
    }
    forall i | 0 <= i < |deleted| ensures Kept(deleted[i].activities, ids) == [] {
      assert deleted[i] in deleted;
    }
    forall i | 0 <= i < |changed| ensures Kept(changed[i].0.activities, ids) != [] {
      assert kept[i] in kept && kept[i] == changed[i].0;
    }
  }

  lemma PartsFrom(s: seq<Agg>, groups: Groups, deleted: seq<Agg>, kept: seq<Agg>, ids: set<string>)
    requires DistinctGroups(s) && DistinctGroups(deleted) && DistinctGroups(kept)
    requires forall i :: 0 <= i < |s| ==> s[i].group in groups && groups[s[i].group] == s[i]
    requires forall a :: a in deleted ==> a in s && Kept(a.activities, ids) == []
    requires forall a :: a in kept ==> a in s && Kept(a.activities, ids) != []
    ensures From(deleted + kept, groups)
  {
    hide Kept;
    var all := deleted + kept;
    forall i | 0 <= i < |all| ensures all[i] in s {
      assert all[i] in deleted || all[i] in kept;
    }
    forall i, j | 0 <= i < j < |all| ensures all[i].group != all[j].group {
      PartsDiffer(s, deleted, kept, ids, i, j);
    }
  }

  lemma PartsHave(s: seq<Agg>, deleted: seq<Agg>, kept: seq<Agg>, g: string)
    requires g in ByGroup(s) && forall a :: a in s ==> a in deleted || a in kept
    ensures Has(deleted + kept, g)
  {
    ByGroupHolds(s);
    var k :| 0 <= k < |s| && s[k].group == g;
    assert s[k] in deleted + kept;
  }

  lemma PartsDiffer(s: seq<Agg>, deleted: seq<Agg>, kept: seq<Agg>, ids: set<string>, i: nat, j: nat)
    requires DistinctGroups(s) && DistinctGroups(deleted) && DistinctGroups(kept) && i < j < |deleted + kept|
    requires forall a :: a in deleted ==> a in s && Kept(a.activities, ids) == []
    requires forall a :: a in kept ==> a in s && Kept(a.activities, ids) != []
    ensures (deleted + kept)[i].group != (deleted + kept)[j].group
  {
    var a, b := (deleted + kept)[i], (deleted + kept)[j];
    if i < |deleted| <= j {
      assert a in deleted && b in kept;
      var p :| 0 <= p < |s| && s[p] == a;
      var q :| 0 <= q < |s| && s[q] == b;
      assert p != q;
    }
  }
}
