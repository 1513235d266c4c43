/** `hydrateActivities` of src/feeds/base/base.ts over the activity storage: the timeline
    keeps ids only, and reads fetch the bodies of a whole slice at once. */
module Hydration {
  import opened Results
  import opened Activities
  import opened Aggregates
  import HashCache

  type Store = map<string, Activity>

  /** Bodies are inserted one by one, each under its own id; a later one replaces an earlier. */
  function Stored(store: Store, xs: seq<Activity>): Store
    decreases |xs|
  {
    if xs == [] then store else Stored(store[xs[0].id := xs[0]], xs[1..])
  }

  /** Nothing stored is lost or replaced. */
  ghost predicate Grows(store: Store, later: Store) {
    forall id :: id in store ==> id in later && later[id] == store[id]
  }

  lemma {:induction false} StoredIsKeyed(store: Store, xs: seq<Activity>)
    requires Keyed(store)
    ensures Keyed(Stored(store, xs))
    decreases |xs|
  {
    if xs != [] {
      StoredIsKeyed(store[xs[0].id := xs[0]], xs[1..]);
    }
  }

  /** Bodies are stored under their own id. */
  ghost predicate Keyed(store: Store) { forall id :: id in store ==> store[id].id == id }

  function AllIds(dehydrated: seq<Agg>): seq<string> {
    if dehydrated == [] then []
    else AllIds(dehydrated[..|dehydrated| - 1]) + dehydrated[|dehydrated| - 1].activityIds
  }

  /** `getMany` deserializes what it fetched, and throws on a missing body; the bodies are
      then looked up by the id they carry. */
  function FetchBodies(store: Store, ids: seq<string>): Result<Store> {
    var got := HashCache.Fetched(store, ids);
    if exists f :: f in got && got[f].None? then Err(TypeError)
    else Ok(map f | f in store && (exists g :: g in got && got[g] == Some(store[f])) :: store[f])
  }

  /** Fetching works exactly when no id is asked for twice and every body is there. */
  lemma FetchIff(store: Store, ids: seq<string>)
    ensures FetchBodies(store, ids).Ok? <==> HashCache.NoDuplicates(ids) && forall id :: id in ids ==> id in store
    ensures FetchBodies(store, ids).Ok? && Keyed(store) ==>
              FetchBodies(store, ids).value == map id | id in store && id in ids :: store[id]
  {
    if !HashCache.NoDuplicates(ids) {
      HashCache.FetchedRepeated(store, ids);
    } else {
      HashCache.FetchedDistinct(store, ids);
      var got := HashCache.Fetched(store, ids);
      if (forall id :: id in ids ==> id in store) && Keyed(store) {
        forall f | f in store ensures (exists g :: g in got && got[g] == Some(store[f])) <==> f in ids {
          if f in ids {
            assert f in got && got[f] == Some(store[f]);
          }
        }
      }
    }
  }

  /** A slice of aggregates, bodies put back. */
  function HydrateAll(dehydrated: seq<Agg>, store: Store): Result<seq<Agg>> {
    var data := FetchBodies(store, AllIds(dehydrated));
    if data.Err? then Err(data.error)
    else if exists i, j :: 0 <= i < |dehydrated| && 0 <= j < |dehydrated[i].activityIds| &&
                           dehydrated[i].activityIds[j] !in data.value then Err(TypeError)
    else Ok(seq(|dehydrated|, i requires 0 <= i < |dehydrated| => Hydrate(dehydrated[i], data.value)))
  }

  lemma {:induction false} AllIdsHolds(dehydrated: seq<Agg>, i: nat)
    requires i < |dehydrated|
    ensures forall id :: id in dehydrated[i].activityIds ==> id in AllIds(dehydrated)
  {
    if i < |dehydrated| - 1 {
      AllIdsHolds(dehydrated[..|dehydrated| - 1], i);
    }
  }

  /** Every aggregate of a slice gets exactly its own bodies, in order. */
  lemma HydrateAllIsHydrate(dehydrated: seq<Agg>, store: Store)
    requires Keyed(store) && HashCache.NoDuplicates(AllIds(dehydrated))
    requires forall id :: id in AllIds(dehydrated) ==> id in store
    ensures forall i, j :: 0 <= i < |dehydrated| && 0 <= j < |dehydrated[i].activityIds| ==>
              dehydrated[i].activityIds[j] in store
    ensures HydrateAll(dehydrated, store) ==
      Ok(seq(|dehydrated|, i requires 0 <= i < |dehydrated| => Hydrate(dehydrated[i], store)))
  {
    FetchIff(store, AllIds(dehydrated));
    var data := FetchBodies(store, AllIds(dehydrated)).value;
    forall i | 0 <= i < |dehydrated|
      ensures forall j :: 0 <= j < |dehydrated[i].activityIds| ==>
                dehydrated[i].activityIds[j] in data && dehydrated[i].activityIds[j] in store
    {
      AllIdsHolds(dehydrated, i);
    }
    forall i | 0 <= i < |dehydrated| ensures Hydrate(dehydrated[i], data) == Hydrate(dehydrated[i], store) {
      assert Bodies(dehydrated[i].activityIds, data) == Bodies(dehydrated[i].activityIds, store);
    }
    var found := HydrateAll(dehydrated, store);
    assert found.Ok? && |found.value| == |dehydrated|;
    assert found.value == seq(|dehydrated|, i requires 0 <= i < |dehydrated| => Hydrate(dehydrated[i], store));
  }
}
