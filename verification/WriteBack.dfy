/** `_translateDiff` and `_updateFromDiff` of src/feeds/aggregated_feed/AggregatedFeed.ts on
    the sorted set: what a diff removes, what it adds, and when that is what was meant. */
module WriteBack {
  import opened Ranking
  import opened Results
  import opened Activities
  import opened Aggregates
  import opened Aggregator
  import opened SortedSet
  import opened AggregateStore
  import Hydration

  // ---- serializeActivities: a dictionary keyed by serialization id ----

  /** The place of the aggregate with the given update time. */
  function TimePlace(list: seq<Agg>, time: int): Option<nat> {
    if list == [] then None
    else if UpdateTime(list[|list| - 1]) == time then Some(|list| - 1)
    else TimePlace(list[..|list| - 1], time)
  }

  /** The dictionary's values in key order. Its keys are serialization ids, that is update
      times (SerializationIdIsUpdateTime): an equal time overwrites. */
  function Serialized(aggs: seq<Agg>): (r: seq<Agg>)
  {
    if aggs == [] then []
    else
      var rest, a := Serialized(aggs[..|aggs| - 1]), aggs[|aggs| - 1];
      var p := TimePlace(rest, UpdateTime(a));
      if p.Some? && p.value < |rest| then rest[p.value := a] else rest + [a]
  }

  predicate TimesDiffer(aggs: seq<Agg>) {
    forall i, j :: 0 <= i < j < |aggs| ==> UpdateTime(aggs[i]) != UpdateTime(aggs[j])
  }

  lemma {:induction false} TimePlaceHolds(list: seq<Agg>, time: int)
    ensures TimePlace(list, time).Some? ==>
      TimePlace(list, time).value < |list| && UpdateTime(list[TimePlace(list, time).value]) == time
    ensures TimePlace(list, time).None? ==> forall i :: 0 <= i < |list| ==> UpdateTime(list[i]) != time
  {
    if list != [] {
      TimePlaceHolds(list[..|list| - 1], time);
      assert forall i :: 0 <= i < |list| - 1 ==> list[..|list| - 1][i] == list[i];
    }
  }

  /** Two aggregates with the same update time: one of them is lost. A list is serialized
      completely exactly when its update times differ. */
  lemma {:induction false} SerializedIff(aggs: seq<Agg>)
    ensures |Serialized(aggs)| <= |aggs|
    ensures TimesDiffer(aggs) ==> Serialized(aggs) == aggs
    ensures |Serialized(aggs)| == |aggs| <==> TimesDiffer(aggs)
  {
    if aggs != [] {
      var rest, a := aggs[..|aggs| - 1], aggs[|aggs| - 1];
      SerializedIff(rest);
      TimesDifferSnoc(rest, a);
      TimePlaceHolds(rest, UpdateTime(a));
      assert aggs == rest + [a];
    }
  }

  /** From the given place on no aggregate has the update time of `a`. */
  ghost predicate NotAgain(aggs: seq<Agg>, place: nat, a: Agg) {
    forall j :: place <= j < |aggs| ==> UpdateTime(aggs[j]) != UpdateTime(a)
  }

  ghost predicate LastOfItsTime(aggs: seq<Agg>, a: Agg) {
    exists k :: 0 <= k < |aggs| && aggs[k] == a && NotAgain(aggs, k + 1, a)
  }

  /** Of aggregates with one update time the last is the one that is written. */
  lemma {:induction false} LastIsSerialized(aggs: seq<Agg>, a: Agg)
    ensures a in Serialized(aggs) <==> LastOfItsTime(aggs, a)
    ensures TimesDiffer(Serialized(aggs))
  {
    if aggs != [] {
      var rest, x := aggs[..|aggs| - 1], aggs[|aggs| - 1];
      LastIsSerialized(rest, a);
      LastOfItsTimeSnoc(rest, x, a);
      var s := Serialized(rest);
      TimePlaceHolds(s, UpdateTime(x));
      PutByTime(s, TimePlace(s, UpdateTime(x)), x, a);
      assert aggs == rest + [x];
    }
  }

  lemma LastOfItsTimeSnoc(rest: seq<Agg>, x: Agg, a: Agg)
    ensures LastOfItsTime(rest + [x], a) <==> a == x || (UpdateTime(a) != UpdateTime(x) && LastOfItsTime(rest, a))
  {
    hide UpdateTime;
    var aggs := rest + [x];
    assert aggs[|rest|] == x && forall i :: 0 <= i < |rest| ==> aggs[i] == rest[i];
    assert NotAgain(aggs, |rest| + 1, a);
    if k :| 0 <= k < |rest| && rest[k] == a && NotAgain(rest, k + 1, a) && UpdateTime(a) != UpdateTime(x) {
      assert aggs[k] == a && NotAgain(aggs, k + 1, a);
    }
    if k :| 0 <= k < |aggs| && aggs[k] == a && NotAgain(aggs, k + 1, a) && a != x {
      assert rest[k] == a && NotAgain(rest, k + 1, a);
      assert UpdateTime(aggs[|rest|]) != UpdateTime(a);
    }
  }

  lemma PutByTime(s: seq<Agg>, p: Option<nat>, x: Agg, a: Agg)
    requires TimesDiffer(s)
    requires p.Some? ==> p.value < |s| && UpdateTime(s[p.value]) == UpdateTime(x)
    requires p.None? ==> forall i :: 0 <= i < |s| ==> UpdateTime(s[i]) != UpdateTime(x)
    ensures var r := if p.Some? && p.value < |s| then s[p.value := x] else s + [x];
      TimesDiffer(r) && (a in r <==> a == x || (UpdateTime(a) != UpdateTime(x) && a in s))
  {
    hide UpdateTime;
    if p.Some? {
      var r := s[p.value := x];
      assert r[p.value] == x;
      forall i | 0 <= i < |s| && s[i] == a && UpdateTime(a) != UpdateTime(x) ensures a in r {
        assert r[i] == a;
      }
    }
  }

  lemma TimesDifferSnoc(rest: seq<Agg>, a: Agg)
    ensures TimesDiffer(rest + [a])
       <==> TimesDiffer(rest) && forall i :: 0 <= i < |rest| ==> UpdateTime(rest[i]) != UpdateTime(a)
  {
    var aggs := rest + [a];
    assert aggs[|rest|] == a && forall i :: 0 <= i < |rest| ==> aggs[i] == rest[i];
  }

  // ---- the diff on the sorted set ----

  function TextsOf(aggs: seq<Agg>): seq<string> {
    seq(|aggs|, i requires 0 <= i < |aggs| => StoredText(aggs[i]))
  }

  function PairsOf(aggs: seq<Agg>): seq<Pair> {
    seq(|aggs|, i requires 0 <= i < |aggs| => (Score(aggs[i]), StoredText(aggs[i])))
  }

  /** Remove first, then add. */
  function Updated(z: ZSet, toRemove: seq<Agg>, toAdd: seq<Agg>): ZSet {
    ZAdd(Without(z, TextsOf(Serialized(toRemove))), PairsOf(Serialized(toAdd)))
  }

  /** `s` are aggregates of `groups`, each at most once. */
  ghost predicate From(s: seq<Agg>, groups: Groups) {
    (forall i :: 0 <= i < |s| ==> s[i].group in groups && groups[s[i].group] == s[i]) &&
    forall i, j :: 0 <= i < j < |s| ==> s[i].group != s[j].group
  }

  ghost predicate Has(s: seq<Agg>, g: string) {
    exists i :: 0 <= i < |s| && s[i].group == g
  }

  lemma {:induction false} ZAddHolds(z: ZSet, pairs: seq<Pair>, m: string)
    ensures m in ZAdd(z, pairs) <==> m in z || exists i :: 0 <= i < |pairs| && pairs[i].1 == m
    ensures (forall i :: 0 <= i < |pairs| ==> pairs[i].1 != m) && m in z ==> ZAdd(z, pairs)[m] == z[m]
    ensures m in ZAdd(z, pairs) && (exists i :: 0 <= i < |pairs| && pairs[i].1 == m) ==>
      exists i :: 0 <= i < |pairs| && pairs[i] == (ZAdd(z, pairs)[m], m)
    decreases |pairs|
  {
    if pairs != [] {
      var z', rest := z[pairs[0].1 := pairs[0].0], pairs[1..];
      ZAddHolds(z', rest, m);
      assert forall i :: 0 <= i < |rest| ==> rest[i] == pairs[i + 1];
      if i :| 0 <= i < |rest| && rest[i].1 == m {
        var j :| 0 <= j < |rest| && rest[j] == (ZAdd(z', rest)[m], m);
        assert pairs[j + 1] == rest[j];
      } else if pairs[0].1 == m {
        assert pairs[0] == (ZAdd(z, pairs)[m], m);
      }
      if i :| 0 <= i < |pairs| && pairs[i].1 == m {
        assert i > 0 ==> rest[i - 1].1 == m;
      }
    }
  }

  lemma FromTimesDiffer(s: seq<Agg>, groups: Groups)
    requires From(s, groups) && DistinctTimes(groups)
    ensures TimesDiffer(s) && Serialized(s) == s
  {
    forall i, j | 0 <= i < j < |s| ensures UpdateTime(s[i]) != UpdateTime(s[j]) {
      assert s[i].group != s[j].group;
    }
    SerializedIff(s);
  }

  /** What a diff may say about the aggregates before and after it. */
  ghost predicate Explains(before: Groups, after: Groups, toRemove: seq<Agg>, toAdd: seq<Agg>) {
    From(toRemove, before) && From(toAdd, after) &&
    (forall g :: g in after ==> Has(toAdd, g) || (g in before && before[g] == after[g] && !Has(toRemove, g))) &&
    forall g :: g in before && !Has(toRemove, g) ==> g in after && after[g] == before[g]
  }

  /** The members of the updated sorted set. */
  lemma UpdatedMembers(z: ZSet, toRemove: seq<Agg>, toAdd: seq<Agg>, m: string)
    requires Serialized(toRemove) == toRemove && Serialized(toAdd) == toAdd
    ensures m in Updated(z, toRemove, toAdd) <==>
      (m in z && forall i :: 0 <= i < |toRemove| ==> StoredText(toRemove[i]) != m) ||
      exists i :: 0 <= i < |toAdd| && StoredText(toAdd[i]) == m
    ensures m in Updated(z, toRemove, toAdd) ==>
      (exists i :: 0 <= i < |toAdd| && StoredText(toAdd[i]) == m && Score(toAdd[i]) == Updated(z, toRemove, toAdd)[m]) ||
      ((forall i :: 0 <= i < |toAdd| ==> StoredText(toAdd[i]) != m) && m in z && Updated(z, toRemove, toAdd)[m] == z[m])
  {
    hide StoredText, Score;
    var w, pairs, gone := Without(z, TextsOf(toRemove)), PairsOf(toAdd), TextsOf(toRemove);
    ZAddHolds(w, pairs, m);
    assert forall i :: 0 <= i < |toAdd| ==> pairs[i] == (Score(toAdd[i]), StoredText(toAdd[i]));
    assert forall i :: 0 <= i < |toRemove| ==> gone[i] == StoredText(toRemove[i]);
    if i :| 0 <= i < |toAdd| && StoredText(toAdd[i]) == m {
      assert pairs[i].1 == m;
    }
  }

  /** The store after a diff represents the aggregates after it. */
  lemma DiffRepresents(z: ZSet, before: Groups, after: Groups, toRemove: seq<Agg>, toAdd: seq<Agg>,
                       groupOf: Grouping, store: Hydration.Store)
    requires Coherent(before, groupOf, store) && Represents(z, before) && Coherent(after, groupOf, store)
    requires Explains(before, after, toRemove, toAdd)
    ensures Represents(Updated(z, toRemove, toAdd), after)
  {
    hide StoredText, Score, Good;
    FromTimesDiffer(toRemove, before);
    FromTimesDiffer(toAdd, after);
    hide Explains, Coherent, Updated;
    forall g | g in after ensures StoredText(after[g]) in Updated(z, toRemove, toAdd) &&
        Updated(z, toRemove, toAdd)[StoredText(after[g])] == Score(after[g]) {
      AfterIsStored(z, before, after, toRemove, toAdd, g, groupOf, store);
    }
    forall m | m in Updated(z, toRemove, toAdd) ensures exists g :: g in after && StoredText(after[g]) == m {
      StoredIsAfter(z, before, after, toRemove, toAdd, m, groupOf, store);
    }
  }

  lemma AfterIsStored(z: ZSet, before: Groups, after: Groups, toRemove: seq<Agg>, toAdd: seq<Agg>, g: string,
                      groupOf: Grouping, store: Hydration.Store)
    requires Coherent(before, groupOf, store) && Represents(z, before) && Coherent(after, groupOf, store)
    requires Explains(before, after, toRemove, toAdd) && g in after
    requires Serialized(toRemove) == toRemove && Serialized(toAdd) == toAdd
    ensures StoredText(after[g]) in Updated(z, toRemove, toAdd)
    ensures Updated(z, toRemove, toAdd)[StoredText(after[g])] == Score(after[g])
  {
    hide StoredText, Score, Good;
    var m := StoredText(after[g]);
    UpdatedMembers(z, toRemove, toAdd, m);
    if Has(toAdd, g) {
      var i :| 0 <= i < |toAdd| && toAdd[i].group == g;
      assert StoredText(toAdd[i]) == m;
    } else {
      forall i | 0 <= i < |toRemove| ensures StoredText(toRemove[i]) != m {
        if StoredText(toRemove[i]) == m {
          TextIsInjective(toRemove[i], before[g], groupOf, store);
          assert false;
        }
      }
    }
    forall i | 0 <= i < |toAdd| && StoredText(toAdd[i]) == m ensures toAdd[i] == after[g] {
      TextIsInjective(toAdd[i], after[g], groupOf, store);
    }
  }

  lemma StoredIsAfter(z: ZSet, before: Groups, after: Groups, toRemove: seq<Agg>, toAdd: seq<Agg>, m: string,
                      groupOf: Grouping, store: Hydration.Store)
    requires Coherent(before, groupOf, store) && Represents(z, before) && Coherent(after, groupOf, store)
    requires Explains(before, after, toRemove, toAdd) && m in Updated(z, toRemove, toAdd)
    requires Serialized(toRemove) == toRemove && Serialized(toAdd) == toAdd
    ensures exists g :: g in after && StoredText(after[g]) == m
  {
    hide StoredText, Score, Good;
    UpdatedMembers(z, toRemove, toAdd, m);
    if i :| 0 <= i < |toAdd| && StoredText(toAdd[i]) == m {
      assert toAdd[i].group in after && StoredText(after[toAdd[i].group]) == m;
    } else {
      var g :| g in before && StoredText(before[g]) == m;
      forall i | 0 <= i < |toRemove| ensures toRemove[i].group != g {
        assert StoredText(toRemove[i]) != m;
      }
      assert g in after && StoredText(after[g]) == m;
    }
  }
}
