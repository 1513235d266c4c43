/** The activity storage (src/storage/redis/RedisActivityStorage.ts over
    src/storage/base/base_storage.ts): bodies as texts in the sharded hash, by id. What it
    gives back are the identity fields; the rest of a text, its tail of context and time, is a
    parameter. `Hydration.FetchBodies` is this fetch with the bodies taken as they were. */
module BodyStorage {
  import opened Results
  import opened Activities
  import opened ActivitySerializer
  import opened HashCache
  import Hydration
  import Text

  /** Context and time as `dumps` writes them. */
  type Tail = Activity -> string

  function IdentityOf(x: Activity): Identity {
    Identity(x.id, x.actorId, x.verbId, x.objectId, x.targetId)
  }

  function TextOf(x: Activity, tail: Tail): string {
    Text.Join(Fields(IdentityOf(x)) + [tail(x)], ",")
  }

  function Texts(store: Hydration.Store, tail: Tail): Hash {
    map id | id in store :: TextOf(store[id], tail)
  }

  // ---- insertion ----

  lemma {:induction false} WrittenOver(h: Hash, pairs: seq<(string, string)>)
    ensures Written(h, pairs) == h + Written(map[], pairs)
    decreases |pairs|
  {
    if pairs == [] {
      assert h + map[] == h;
    } else {
      var (k, v) := pairs[0];
      var none: Hash := map[];
      WrittenOver(h[k := v], pairs[1..]);
      WrittenOver(none[k := v], pairs[1..]);
      var rest := Written(none, pairs[1..]);
      assert h[k := v] + rest == h + (none[k := v] + rest);
    }
  }

  lemma {:induction false} WrittenLast(h: Hash, pairs: seq<(string, string)>, k: string, v: string)
    ensures Written(h, pairs + [(k, v)]) == Written(h, pairs)[k := v]
    decreases |pairs|
  {
    var all := pairs + [(k, v)];
    if pairs == [] {
      assert all[0] == (k, v) && all[1..] == [];
    } else {
      assert all[0] == pairs[0] && all[1..] == pairs[1..] + [(k, v)];
      WrittenLast(h[pairs[0].0 := pairs[0].1], pairs[1..], k, v);
    }
  }

  ghost predicate DistinctKeys(pairs: seq<(string, string)>) {
    forall i, j :: 0 <= i < j < |pairs| ==> pairs[i].0 != pairs[j].0
  }

  lemma {:induction false} WrittenElsewhere(h: Hash, pairs: seq<(string, string)>, k: string, v: string)
    requires forall i :: 0 <= i < |pairs| ==> pairs[i].0 != k
    ensures Written(h[k := v], pairs) == Written(h, pairs)[k := v]
    decreases |pairs|
  {
    if pairs != [] {
      var (f, w) := pairs[0];
      assert h[k := v][f := w] == h[f := w][k := v];
      WrittenElsewhere(h[f := w], pairs[1..], k, v);
    }
  }

  lemma {:induction false} WrittenReplaced(h: Hash, pairs: seq<(string, string)>, p: nat, v: string)
    requires p < |pairs| && DistinctKeys(pairs)
    ensures Written(h, pairs[p := (pairs[p].0, v)]) == Written(h, pairs)[pairs[p].0 := v]
    decreases |pairs|
  {
    var all := pairs[p := (pairs[p].0, v)];
    var (k, old_) := pairs[0];
    if p == 0 {
      assert all[1..] == pairs[1..];
      WrittenElsewhere(h, pairs[1..], k, v);
      WrittenElsewhere(h, pairs[1..], k, old_);
    } else {
      assert all[0] == pairs[0] && all[1..] == pairs[1..][p - 1 := (pairs[p].0, v)];
      WrittenReplaced(h[k := old_], pairs[1..], p - 1, v);
    }
  }

  lemma {:induction false} StoredLast(store: Hydration.Store, xs: seq<Activity>, x: Activity)
    ensures Hydration.Stored(store, xs + [x]) == Hydration.Stored(store, xs)[x.id := x]
    decreases |xs|
  {
    var all := xs + [x];
    if xs == [] {
      assert all[0] == x && all[1..] == [];
    } else {
      assert all[0] == xs[0] && all[1..] == xs[1..] + [x];
      StoredLast(store[xs[0].id := xs[0]], xs[1..], x);
    }
  }

  lemma {:induction false} StoredOver(store: Hydration.Store, xs: seq<Activity>)
    ensures Hydration.Stored(store, xs) == store + Hydration.Stored(map[], xs)
    decreases |xs|
  {
    if xs == [] {
      assert store + map[] == store;
    } else {
      var x := xs[0];
      var none: Hydration.Store := map[];
      StoredOver(store[x.id := x], xs[1..]);
      StoredOver(none[x.id := x], xs[1..]);
      var rest := Hydration.Stored(none, xs[1..]);
      assert store[x.id := x] + rest == store + (none[x.id := x] + rest);
    }
  }

  /** `serializeActivities`: a dictionary by id, so the last of equal ids counts. */
  method SerializeBodies(xs: seq<Activity>, tail: Tail) returns (pairs: seq<(string, string)>)
    ensures DistinctKeys(pairs) && Written(map[], pairs) == Texts(Hydration.Stored(map[], xs), tail)
  {
    hide TextOf;
    pairs := [];
    for i := 0 to |xs|
      invariant DistinctKeys(pairs) && Written(map[], pairs) == Texts(Hydration.Stored(map[], xs[..i]), tail)
    {
      ghost var seen := xs[..i];
      assert xs[..i + 1] == seen + [xs[i]];
      StoredLast(map[], seen, xs[i]);
      var id, text := xs[i].id, TextOf(xs[i], tail);
      var p := 0;
      while p < |pairs| && pairs[p].0 != id
        invariant p <= |pairs| && forall j :: 0 <= j < p ==> pairs[j].0 != id
      {
        p := p + 1;
      }
      if p < |pairs| {
        WrittenReplaced(map[], pairs, p, text);
        pairs := pairs[p := (id, text)];
      } else {
        WrittenLast(map[], pairs, id, text);
        pairs := pairs + [(id, text)];
      }
    }
    assert xs[..|xs|] == xs;
  }

  /** `addMany` of the activity storage. */
  method InsertBodies(cache: ShardedHashCache, xs: seq<Activity>, tail: Tail, ghost store: Hydration.Store)
    requires cache.Valid() && cache.Contents() == Texts(store, tail)
    modifies cache
    ensures cache.Valid() && cache.Contents() == Texts(Hydration.Stored(store, xs), tail)
  {
    hide Written, Texts, Hydration.Stored;
    var pairs := SerializeBodies(xs, tail);
    WrittenTexts(store, xs, pairs, tail);
    var results := cache.SetMany(pairs);
  }

  lemma WrittenTexts(store: Hydration.Store, xs: seq<Activity>, pairs: seq<(string, string)>, tail: Tail)
    requires Written(map[], pairs) == Texts(Hydration.Stored(map[], xs), tail)
    ensures Written(Texts(store, tail), pairs) == Texts(Hydration.Stored(store, xs), tail)
  {
    hide Written, Texts, Hydration.Stored;
    WrittenOver(Texts(store, tail), pairs);
    StoredOver(store, xs);
    TextsConcat(store, Hydration.Stored(map[], xs), tail);
  }

  lemma TextsConcat(a: Hydration.Store, b: Hydration.Store, tail: Tail)
    ensures Texts(a + b, tail) == Texts(a, tail) + Texts(b, tail)
  {
    hide TextOf;
  }

  // ---- fetching ----

  /** Every stored text gives its identity back. */
  ghost predicate Loadable(store: Hydration.Store, tail: Tail, parses: JsonParser) {
    forall id :: id in store ==> Loads(store[id], tail, parses)
  }

  ghost predicate Loads(x: Activity, tail: Tail, parses: JsonParser) {
    Fits(IdentityOf(x)) && ContextLoads(Text.Split(tail(x), ",")[0], parses)
  }

  /** A missing value throws. */
  function LoadValue(value: Option<string>, freshId: string, parses: JsonParser): Result<Identity> {
    if value.None? then Err(TypeError) else LoadText(value.value, freshId, parses)
  }

  /** `getMany` of the activity storage: the values in key order, deserialized one by one. */
  method FetchIdentities(cache: ShardedHashCache, ids: seq<string>, freshId: string, parses: JsonParser, tail: Tail,
                         ghost store: Hydration.Store) returns (r: Result<seq<Identity>>)
    requires cache.Valid() && cache.Contents() == Texts(store, tail) && Plain(freshId) && Loadable(store, tail, parses)
    ensures r.Ok? <==> NoDuplicates(ids) && forall i :: 0 <= i < |ids| ==> ids[i] in store
    ensures r.Ok? ==> |r.value| == |ids| && forall i :: 0 <= i < |ids| ==> r.value[i] == IdentityOf(store[ids[i]])
  {
    hide Texts, TextOf, LoadText, Loads, Uniq, Fetched;
    var got := cache.GetMany(ids);
    GotIff(store, tail, ids);
    var keys := Uniq(ids);
    UniqProperties(ids);
    var loaded: seq<Identity> := [];
    for i := 0 to |keys|
      invariant |loaded| == i
      invariant forall j :: 0 <= j < i ==> keys[j] in got && LoadValue(got[keys[j]], freshId, parses) == Ok(loaded[j])
    {
      assert keys[i] in ids && keys[i] in got;
      var one := LoadValue(got[keys[i]], freshId, parses);
      if one.Err? {
        if NoDuplicates(ids) && forall i :: 0 <= i < |ids| ==> ids[i] in store {
          ValueLoads(store[keys[i]], tail, freshId, parses);
        }
        return Err(one.error);
      }
      loaded := loaded + [one.value];
    }
    if NoDuplicates(ids) {
      assert keys == ids;
      forall i | 0 <= i < |ids| ensures ids[i] in store && loaded[i] == IdentityOf(store[ids[i]]) {
        assert got[ids[i]].Some?;
        ValueLoads(store[ids[i]], tail, freshId, parses);
      }
    }
    r := Ok(loaded);
  }

  lemma ValueLoads(x: Activity, tail: Tail, freshId: string, parses: JsonParser)
    requires Loads(x, tail, parses) && Plain(freshId)
    ensures LoadValue(Some(TextOf(x, tail)), freshId, parses) == Ok(IdentityOf(x))
  {
    RoundTripIff(IdentityOf(x), tail(x), freshId, parses);
  }

  /** What the sharded hash answers. */
  lemma GotIff(store: Hydration.Store, tail: Tail, ids: seq<string>)
    ensures forall id :: id in ids ==> id in Fetched(Texts(store, tail), ids)
    ensures NoDuplicates(ids) ==> forall id :: id in ids ==>
      Fetched(Texts(store, tail), ids)[id] == if id in store then Some(TextOf(store[id], tail)) else None
    ensures !NoDuplicates(ids) ==> exists id :: id in ids && Fetched(Texts(store, tail), ids)[id] == None
  {
    var h := Texts(store, tail);
    FetchedKeys(ids, Lookups(h, Uniq(ids)));
    hide TextOf;
    if NoDuplicates(ids) {
      FetchedDistinct(h, ids);
    } else {
      FetchedRepeated(h, ids);
    }
  }

  lemma {:induction false} FetchedKeys(ids: seq<string>, values: seq<Option<string>>)
    ensures forall id :: id in ids <==> id in ZipBack(ids, values)
  {
    if ids != [] {
      FetchedKeys(ids[..|ids| - 1], values);
      assert ids == ids[..|ids| - 1] + [ids[|ids| - 1]];
    }
  }

  /** So the fetch on which the feeds are built is this one, as far as identities go: it
      succeeds exactly when this does, with bodies of the same identities. */
  lemma FetchesAgree(store: Hydration.Store, ids: seq<string>, r: Result<seq<Identity>>)
    requires Hydration.Keyed(store)
    requires r.Ok? <==> NoDuplicates(ids) && forall i :: 0 <= i < |ids| ==> ids[i] in store
    requires r.Ok? ==> |r.value| == |ids| && forall i :: 0 <= i < |ids| ==> r.value[i] == IdentityOf(store[ids[i]])
    ensures r.Ok? <==> Hydration.FetchBodies(store, ids).Ok?
    ensures r.Ok? ==> forall i :: 0 <= i < |ids| ==>
      ids[i] in Hydration.FetchBodies(store, ids).value &&
      r.value[i] == IdentityOf(Hydration.FetchBodies(store, ids).value[ids[i]])
  {
    Hydration.FetchIff(store, ids);
    hide Hydration.FetchBodies;
    assert (forall id :: id in ids ==> id in store) <==> forall i :: 0 <= i < |ids| ==> ids[i] in store;
  }

  // ---- the time ----

  /** `loads` reads the date from the fifth part. */
  function LoadTime<T>(text: string, parseDate: string -> T): T {
    parseDate(Field(Text.Split(text, ","), 4))
  }

  /** That part is the target: the time comes back exactly when the target's text, read as
      epoch seconds, happens to be the time. */
  lemma TimeIsReadFromTarget(x: Activity, tail: Tail, parseDate: string -> Option<int>)
    requires Fits(IdentityOf(x))
    ensures LoadTime(TextOf(x, tail), parseDate) == Some(x.time as int)
       <==> parseDate(DumpTarget(x.targetId)) == Some(x.time as int)
  {
    var fields := Fields(IdentityOf(x));
    SplitFields(fields, tail(x));
    assert Field(Text.Split(TextOf(x, tail), ","), 4) == fields[4];
  }
}
