/** src/feeds/base/base.ts over the Redis timeline: a flat feed keeps ids, reads put the
    bodies back. The score of an id (its UUID time stamp, or its own numeric value) is a
    parameter; the dice that decide about trimming are arguments. */
module Feed {
  import opened Ranking
  import opened Results
  import opened Activities
  import opened SortedSet
  import opened TimelineRuns
  import HashCache
  import Hydration

  /** The bodies of a slice of ids, in order; null (None) when one is missing. */
  function BodiesOf(ids: seq<string>, store: Hydration.Store): Option<seq<Activity>> {
    if ids == [] then Some([])
    else
      var rest, id := BodiesOf(ids[..|ids| - 1], store), ids[|ids| - 1];
      if rest.Some? && id in store then Some(rest.value + [store[id]]) else None
  }

  lemma {:induction false} BodiesInOrder(ids: seq<string>, store: Hydration.Store)
    ensures BodiesOf(ids, store).Some? <==> forall i :: 0 <= i < |ids| ==> ids[i] in store
    ensures BodiesOf(ids, store).Some? ==> |BodiesOf(ids, store).value| == |ids|
    ensures BodiesOf(ids, store).Some? ==> forall i :: 0 <= i < |ids| ==> BodiesOf(ids, store).value[i] == store[ids[i]]
  {
    if ids != [] {
      var rest := ids[..|ids| - 1];
      BodiesInOrder(rest, store);
      assert forall i :: 0 <= i < |rest| ==> rest[i] == ids[i];
    }
  }

  /** Bodies fetched for the slice serve it as well as the whole store. */
  lemma FetchedBodies(ids: seq<string>, data: Hydration.Store, store: Hydration.Store)
    requires forall i :: 0 <= i < |ids| ==> ids[i] in data && ids[i] in store && data[ids[i]] == store[ids[i]]
    ensures BodiesOf(ids, data) == BodiesOf(ids, store)
  {
    BodiesInOrder(ids, data);
    BodiesInOrder(ids, store);
    assert BodiesOf(ids, data).value == BodiesOf(ids, store).value;
  }

  /** The loop of `hydrateActivities`. */
  method HydrateActivities(ids: seq<string>, data: Hydration.Store) returns (hydrated: seq<Activity>)
    requires forall i :: 0 <= i < |ids| ==> ids[i] in data
    ensures BodiesOf(ids, data) == Some(hydrated)
  {
    hydrated := [];
    for i := 0 to |ids|
      invariant BodiesOf(ids[..i], data) == Some(hydrated)
    {
      assert ids[..i + 1][..i] == ids[..i] && ids[..i + 1][i] == ids[i];
      hydrated := hydrated + [data[ids[i]]];
    }
    assert ids[..|ids|] == ids;
  }

  /** A stop of 0 counts as none. */
  predicate NoStop(stop: Option<int>) { stop.None? || stop.value == 0 }

  class BaseFeed {
    const timeline: RedisSortedSetCache
    const maxLength: nat
    const score: Scoring
    var activityStorage: Hydration.Store

    constructor (timeline: RedisSortedSetCache, maxLength: nat, score: Scoring, storage: Hydration.Store)
      ensures this.timeline == timeline && this.maxLength == maxLength && this.score == score
      ensures activityStorage == storage
      ensures maxLength > 0 && !timeline.sortAsc && Hydration.Keyed(storage) ==> Valid()
    {
      this.timeline := timeline;
      this.maxLength := maxLength;
      this.score := score;
      this.activityStorage := storage;
    }

    ghost predicate Valid()
      reads this, timeline
    {
      maxLength > 0 && !timeline.sortAsc && Hydration.Keyed(activityStorage)
    }

    method Trim(length: Option<nat>)
      requires Valid()
      modifies timeline
      ensures timeline.z == Keep(old(timeline.z), if length.Some? && length.value != 0 then length.value else maxLength)
    {
      var removed := timeline.Trim(Some(if length.Some? && length.value != 0 then length.value else maxLength));
    }

    /** `roll` is the outcome of `Math.random() <= trimChance`. An empty list, which the
        sorted set rejects, is meant to add nothing. The results count what was created. */
    method AddMany(ids: seq<string>, trim: bool, roll: bool) returns (created: seq<nat>)
      requires Valid()
      modifies timeline
      ensures Sum(created) == |RedisStep(old(timeline.z), Add(ids), score)| - old(|timeline.z|)
      ensures var added := RedisStep(old(timeline.z), Add(ids), score);
              timeline.z == if trim && roll then RedisStep(added, TimelineRuns.Op.Trim(maxLength), score) else added
    {
      hide ZAdd, Keep, ZRemRangeByRank;
      var pairs: seq<(Option<real>, string)> := seq(|ids|, i requires 0 <= i < |ids| => (Some(score(ids[i])), ids[i]));
      created := [];
      if ids != [] {
        var results := timeline.AddMany(pairs);
        assert results.Ok? && Numeric(pairs) == ScoredPairs(ids, score);
        created := results.value;
      } else {
        NothingAdded(timeline.z, score);
      }
      ghost var added := timeline.z;
      assert added == RedisStep(old(timeline.z), Add(ids), score);
      if trim && roll {
        TrimRanks(added, maxLength);
        Trim(None);
      }
    }

    /** The results say of each id how often it went. */
    method RemoveMany(ids: seq<string>, trim: bool, roll: bool) returns (removed: seq<nat>)
      requires Valid()
      modifies timeline
      ensures |removed| == |ids|
      ensures Sum(removed) == old(|timeline.z|) - |RedisStep(old(timeline.z), Remove(ids), score)|
      ensures var left := RedisStep(old(timeline.z), Remove(ids), score);
              timeline.z == if trim && roll then RedisStep(left, TimelineRuns.Op.Trim(maxLength), score) else left
    {
      hide Keep, ZRemRangeByRank;
      removed := timeline.RemoveMany(ids);
      if trim && roll {
        TrimRanks(timeline.z, maxLength);
        Trim(None);
      }
    }

    /** Reads ids, then their bodies in one request. */
    method GetActivitySlice(start: Option<nat>, stop: Option<nat>) returns (r: Result<seq<Activity>>)
      requires Valid()
      ensures var bodies := BodiesOf(RedisWindow(Listing(timeline.z), start, stop), activityStorage);
              r == if bodies.Some? then Ok(bodies.value) else Err(TypeError)
    {
      hide Listing;
      var pairs := timeline.GetResults(start, stop);
      var ids := seq(|pairs|, i requires 0 <= i < |pairs| => pairs[i].1);
      ghost var window := RedisWindow(Listing(timeline.z), start, stop);
      assert ids == window;
      WindowIsDistinct(timeline.z, start, stop);
      BodiesInOrder(ids, activityStorage);
      Hydration.FetchIff(activityStorage, ids);
      var data := Hydration.FetchBodies(activityStorage, ids);
      if data.Err? {
        return Err(data.error);
      }
      var hydrated := HydrateActivities(ids, data.value);
      FetchedBodies(ids, data.value, activityStorage);
      r := Ok(hydrated);
    }

    /** Exceptions of the slice are swallowed: the caller then gets null. */
    method GetItem(start: int, stop: Option<int>) returns (r: Result<Option<seq<Activity>>>)
      requires Valid()
      ensures r == Err(TypeError) <==> start == 0 && NoStop(stop)
      ensures r == Err(AssertionError) <==> start < 0 || (stop.Some? && stop.value < 0)
      ensures start > 0 && stop == Some(start) ==> r == Ok(Some([]))
      ensures start > 0 && NoStop(stop) ==>
        r == Ok(BodiesOf(RedisWindow(Listing(timeline.z), Some(start), Some(start + 1)), activityStorage))
      ensures start >= 0 && stop.Some? && stop.value > 0 && stop.value != start ==>
        r == Ok(BodiesOf(RedisWindow(Listing(timeline.z), Some(start), Some(stop.value)), activityStorage))
    {
      var given := stop.Some? && stop.value != 0;
      if start == 0 && !given {
        return Err(TypeError);
      }
      if start < 0 || (stop.Some? && stop.value < 0) {
        return Err(AssertionError);
      }
      var bound := start + 1;
      if given {
        bound := stop.value;
      }
      if start != 0 && start == bound {
        return Ok(Some([]));
      }
      var slice := GetActivitySlice(Some(start), Some(bound));
      r := Ok(if slice.Ok? then Some(slice.value) else None);
    }
  }

  lemma NothingAdded(z: ZSet, score: Scoring)
    ensures RedisStep(z, Add([]), score) == z
  {
  }

  lemma WindowIsDistinct(z: ZSet, start: Option<nat>, stop: Option<nat>)
    ensures HashCache.NoDuplicates(RedisWindow(Listing(z), start, stop))
  {
    DistinctPlaces(z);
  }

  /** Where bodies are stored before ids are added, a read of the first `k` ids returns the
      full activities in timeline order: none is lost, repeated or exchanged. */
  lemma ReadIsComplete(z: ZSet, store: Hydration.Store, k: nat)
    requires k > 0 && Hydration.Keyed(store) && forall id :: id in z ==> id in store
    ensures |Listing(z)| == |z|
    ensures var r := BodiesOf(RedisWindow(Listing(z), Some(0), Some(k)), store);
            r.Some? && |r.value| == Min(k, |z|) && DistinctIds(r.value) &&
            forall i :: 0 <= i < |r.value| ==> r.value[i] == store[Listing(z)[i]]
  {
    ListingSize(z);
    var l := RedisWindow(Listing(z), Some(0), Some(k));
    WindowIsDistinct(z, Some(0), Some(k));
    forall i | 0 <= i < |l| ensures l[i] == Listing(z)[i] && l[i] in store {
      AtPlace(z, i);
    }
    BodiesInOrder(l, store);
  }
}
