/** src/storage/redis/structures/sorted_set.ts over an abstract Redis key: the
    commands are the ZSet functions below, `RedisSortedSetCache` is the source's class.
    Only the descending read is modelled: `REV: true` is forced in `getResults`. */
module SortedSet {
  import opened Ids
  import opened Ranking
  import opened Results
  import opened Chunks

  type Pair = (real, string)

  // ---- Redis commands ----

  /** ZADD: later pairs overwrite earlier ones. */
  function ZAdd(z: ZSet, pairs: seq<Pair>): ZSet
    decreases |pairs|
  {
    if pairs == [] then z else ZAdd(z[pairs[0].1 := pairs[0].0], pairs[1..])
  }

  /** ZREM of a list of members. */
  function Without(z: ZSet, values: seq<string>): ZSet {
    map m | m in z && m !in values :: z[m]
  }

  lemma RemoveOne(z: ZSet, values: seq<string>, i: nat)
    requires i < |values|
    ensures Without(z, values[..i + 1]) == Without(z, values[..i]) - {values[i]}
    ensures |Without(z, values[..i + 1])| <= |Without(z, values[..i])|
  {
    assert values[..i + 1] == values[..i] + [values[i]];
    var a, b := Without(z, values[..i + 1]), Without(z, values[..i]);
    assert a.Keys == b.Keys - {values[i]};
    assert |a.Keys| == |a| && |b.Keys| == |b|;
  }

  /** Ranks count from the lowest entry; negative ranks count from the end. */
  function FromEnd(rank: int, size: nat): int { if rank < 0 then rank + size else rank }

  /** ZREMRANGEBYRANK. */
  ghost function ZRemRangeByRank(z: ZSet, begin: int, end: int): ZSet {
    map m | m in z && !(FromEnd(begin, |z|) <= |z| - 1 - |Better(z, m)| <= FromEnd(end, |z|)) :: z[m]
  }

  /** The LIMIT clause of ZRANGE: a negative count means no limit. */
  function Limit<T>(l: seq<T>, offset: nat, count: int): seq<T> {
    if offset >= |l| then []
    else if count < 0 || count > |l| - offset then l[offset..]
    else l[offset..offset + count]
  }

  lemma {:induction false} ZAddConcat(z: ZSet, a: seq<Pair>, b: seq<Pair>)
    ensures ZAdd(z, a + b) == ZAdd(ZAdd(z, a), b)
    decreases |a|
  {
    if a == [] {
      assert a + b == b;
    } else {
      assert (a + b)[0] == a[0] && (a + b)[1..] == a[1..] + b;
      ZAddConcat(z[a[0].1 := a[0].0], a[1..], b);
    }
  }

  lemma {:induction false} ZAddGrows(z: ZSet, pairs: seq<Pair>)
    ensures |z| <= |ZAdd(z, pairs)|
    decreases |pairs|
  {
    if pairs != [] {
      var z' := z[pairs[0].1 := pairs[0].0];
      assert z.Keys <= z'.Keys;
      SubsetSize(z.Keys, z'.Keys);
      assert |z.Keys| == |z| && |z'.Keys| == |z'|;
      ZAddGrows(z', pairs[1..]);
    }
  }

  /** Trimming to `max` removes ranks 0 to -max-1 and leaves exactly the best `max`. */
  lemma TrimRanks(z: ZSet, max: nat)
    ensures ZRemRangeByRank(z, 0, -1 - max) == Keep(z, max)
  {
    forall m | m in z ensures |Better(z, m)| < |z| {
      var i := PlaceOf(z, m);
      ListingSize(z);
    }
  }

  // ---- slices: Redis LIMIT against Python's timeline[start:stop] ----

  /** `getResults`: 0 and missing both mean "no stop". */
  function RedisWindow<T>(l: seq<T>, start: Option<nat>, stop: Option<nat>): seq<T> {
    var from := if start.Some? then start.value else 0;
    Limit(l, from, if stop.None? || stop.value == 0 then -1 else stop.value - from)
  }

  function PythonWindow<T>(l: seq<T>, start: Option<nat>, stop: Option<nat>): seq<T> {
    var from := if start.Some? then start.value else 0;
    var to := if stop.Some? && stop.value < |l| then stop.value else |l|;
    if from < to then l[from..to] else []
  }

  /** The two stores cut the same slice exactly when the stop is missing, lies at or
      behind the start and is not 0, or the start is past the end of the timeline. */
  lemma WindowsAgree<T>(l: seq<T>, start: Option<nat>, stop: Option<nat>)
    ensures RedisWindow(l, start, stop) == PythonWindow(l, start, stop)
       <==> var from := if start.Some? then start.value else 0;
            stop.None? || (stop.value != 0 && from <= stop.value) || |l| <= from
  {
    var from := if start.Some? then start.value else 0;
    if stop.Some? && (stop.value == 0 || stop.value < from) && from < |l| {
      assert |RedisWindow(l, start, stop)| == |l| - from;
    }
  }

  lemma RangeIsPart(z: ZSet, begin: int, end: int)
    ensures |ZRemRangeByRank(z, begin, end)| <= |z|
  {
    var left := ZRemRangeByRank(z, begin, end);
    assert left.Keys <= z.Keys;
    SubsetSize(left.Keys, z.Keys);
    assert |left.Keys| == |left| && |z.Keys| == |z|;
  }

  /** The members with fewer than `n` below them: of all but itself those not better. */
  ghost function Lowest(z: ZSet, n: nat): ZSet {
    map m | m in z && |z| - 1 - |Better(z, m)| < n :: z[m]
  }

  /** Removing the ranks from `max` on leaves the `max` lowest members. */
  lemma LowestRanks(z: ZSet, max: nat)
    ensures ZRemRangeByRank(z, max, -1) == Lowest(z, max)
  {
  }

  // ---- the class ----

  class RedisSortedSetCache {
    var z: ZSet
    const sortAsc: bool
    const maxLength: nat

    constructor (sortAsc: bool, maxLength: nat)
      ensures z == map[] && this.sortAsc == sortAsc && this.maxLength == maxLength
    {
      z := map[];
      this.sortAsc := sortAsc;
      this.maxLength := maxLength;
    }

    function Count(): (n: nat)
      reads this
      ensures n == |Listing(z)|
    {
      ListingSize(z);
      |z|
    }

    /** Rejects an empty list, whose zip has no scores, and the whole list when one score is
        not a number; otherwise adds it in chunks of 200. Each result is the number of members
        that chunk created. */
    method AddMany(scoreValuePairs: seq<(Option<real>, string)>) returns (r: Result<seq<nat>>)
      modifies this
      ensures r.Err? <==> scoreValuePairs == [] || exists p :: p in scoreValuePairs && p.0.None?
      ensures r.Err? ==> z == old(z)
      ensures r.Ok? ==> z == ZAdd(old(z), Numeric(scoreValuePairs))
      ensures r.Ok? ==> Sum(r.value) == |z| - old(|z|)
    {
      if scoreValuePairs == [] {
        return Err(TypeError);
      }
      for i := 0 to |scoreValuePairs|
        invariant forall j :: 0 <= j < i ==> scoreValuePairs[j].0.Some?
      {
        if scoreValuePairs[i].0.None? {
          return Err(ValueError);
        }
      }
      var members := Numeric(scoreValuePairs);
      var membersChunk := Chunk(members, 200);
      var results: seq<nat> := [];
      for i := 0 to |membersChunk|
        invariant z == ZAdd(old(z), Concat(membersChunk[..i]))
        invariant Sum(results) == |z| - old(|z|)
      {
        var before := |z|;
        ZAddGrows(z, membersChunk[i]);
        ZAddConcat(old(z), Concat(membersChunk[..i]), membersChunk[i]);
        ConcatSnoc(membersChunk, i);
        z := ZAdd(z, membersChunk[i]);
        SumSnoc(results, |z| - before);
        results := results + [|z| - before];
      }
      ConcatOfChunks(members, 200);
      assert membersChunk[..|membersChunk|] == membersChunk;
      r := Ok(results);
    }

    method RemoveMany(values: seq<string>) returns (results: seq<nat>)
      modifies this
      ensures z == Without(old(z), values)
      ensures |results| == |values|
      ensures Sum(results) == old(|z|) - |z|
    {
      results := [];
      for i := 0 to |values|
        invariant |results| == i
        invariant z == Without(old(z), values[..i])
        invariant Sum(results) == old(|z|) - |z|
      {
        var before := |z|;
        RemoveOne(old(z), values, i);
        z := z - {values[i]};
        SumSnoc(results, before - |z|);
        results := results + [before - |z|];
      }
      assert values[..|values|] == values;
    }

    /** `zRemRangeByRank`; the ranks come from a full read. */
    method RemRangeByRank(begin: int, end: int)
      modifies this
      ensures z == ZRemRangeByRank(old(z), begin, end)
    {
      hide Listing;
      var all := ReadDescending(z);
      ListingSize(z);
      DistinctPlaces(z);
      var lo, hi := FromEnd(begin, |z|), FromEnd(end, |z|);
      var kept: ZSet := map[];
      for i := 0 to |all|
        invariant z == old(z)
        invariant forall m :: m in kept ==> m in z && kept[m] == z[m]
        invariant forall j :: 0 <= j < i ==> (all[j] in kept <==> !(lo <= |z| - 1 - j <= hi))
        invariant forall j :: i <= j < |all| ==> all[j] !in kept
      {
        AtPlace(z, i);
        if !(lo <= |z| - 1 - i <= hi) {
          kept := kept[all[i] := z[all[i]]];
        }
      }
      forall m | m in z ensures m in kept <==> m in ZRemRangeByRank(z, begin, end) {
        var j := PlaceOf(z, m);
        assert all[j] == m;
      }
      z := kept;
    }

    function LengthOr(length: Option<nat>): nat {
      if length.Some? && length.value != 0 then length.value else maxLength
    }

    /** Keeps the best `length` (or, sorted ascending, the lowest); without a length, as many
        as the cache is made for. */
    method Trim(length: Option<nat>) returns (removed: nat)
      modifies this
      ensures !sortAsc && length.Some? && length.value > 0 ==> z == Keep(old(z), length.value)
      ensures !sortAsc && (length.None? || length.value == 0) ==> z == Keep(old(z), maxLength)
      ensures sortAsc && length.Some? && length.value > 0 ==> z == Lowest(old(z), length.value)
      ensures sortAsc && (length.None? || length.value == 0) ==> z == Lowest(old(z), maxLength)
      ensures removed == old(|z|) - |z|
    {
      hide Keep, ZRemRangeByRank;
      var max: int := LengthOr(length);
      var begin: int, end: int := 0, -1 - max;
      if sortAsc {
        begin, end := max, -1;
      }
      var before := z;
      TrimRanks(before, max);
      RangeIsPart(before, begin, end);
      LowestRanks(before, max);
      RemRangeByRank(begin, end);
      removed := |before| - |z|;
    }

    /** A read from `start` up to `stop`, always reversed: on a cache sorted ascending, whose
        bounds are then the wrong way round, it finds nothing. */
    method GetResults(start: Option<nat>, stop: Option<nat>) returns (a: seq<Pair>)
      ensures sortAsc ==> a == []
      ensures !sortAsc ==> |a| == |RedisWindow(Listing(z), start, stop)|
      ensures forall i :: 0 <= i < |a| ==>
                a[i].1 == RedisWindow(Listing(z), start, stop)[i] && a[i].1 in z && a[i].0 == z[a[i].1]
    {
      hide Listing;
      if sortAsc {
        return [];
      }
      var stop' := if stop.None? || stop.value == 0 then -1 else stop.value;
      var start' := if start.None? then 0 else start.value;
      var limit := if stop' != -1 then stop' - start' else -1;
      var all := ReadDescending(z);
      var results := Limit(all, start', limit);
      assert results == RedisWindow(Listing(z), start, stop);
      hide RedisWindow;
      a := [];
      for i := 0 to |results|
        invariant |a| == i
        invariant forall j :: 0 <= j < i ==> a[j].1 == results[j] && a[j].1 in z && a[j].0 == z[a[j].1]
      {
        AtPlace(z, start' + i);
        assert results[i] == all[start' + i];
        a := a + [(z[results[i]], results[i])];
      }
    }

    /** The rank from the front of the order: zRevRank, or zRank. It is 0 for the first
        member, and 0 is taken for "not found". */
    method IndexOf(value: string) returns (r: Result<nat>)
      ensures r.Ok? <==> value in z && |Better(z, value)| != if sortAsc then |z| - 1 else 0
      ensures r.Ok? ==> r.value < |Listing(z)| == |z| &&
                        Listing(z)[if sortAsc then |z| - 1 - r.value else r.value] == value
    {
      ListingSize(z);
      var all := ReadDescending(z);
      var i := 0;
      while i < |all| && all[i] != value
        invariant i <= |all| && forall j :: 0 <= j < i ==> all[j] != value
      {
        i := i + 1;
      }
      if value in z {
        var k := PlaceOf(z, value);
        assert all[k] == value;
      }
      if i == |all| {
        return Err(ValueError);
      }
      AtPlace(z, i);
      var rank := if sortAsc then |all| - 1 - i else i;
      r := if rank == 0 then Err(ValueError) else Ok(rank);
    }
  }

  function Sum(s: seq<nat>): nat {
    if s == [] then 0 else Sum(s[..|s| - 1]) + s[|s| - 1]
  }

  lemma SumSnoc(s: seq<nat>, n: nat)
    ensures Sum(s + [n]) == Sum(s) + n
  {
    assert (s + [n])[..|s|] == s;
  }

  function Numeric(pairs: seq<(Option<real>, string)>): (r: seq<Pair>)
    requires forall p :: p in pairs ==> p.0.Some?
  {
    seq(|pairs|, i requires 0 <= i < |pairs| => (pairs[i].0.value, pairs[i].1))
  }

  lemma DistinctPlaces(z: ZSet)
    ensures forall i, j :: 0 <= i < j < |Listing(z)| ==> Listing(z)[i] != Listing(z)[j]
  {
    forall i, j | 0 <= i < j < |Listing(z)| ensures Listing(z)[i] != Listing(z)[j] {
      AtPlace(z, i);
      AtPlace(z, j);
    }
  }

  /** What the server does to answer a range read: put every member in its place. */
  method ReadDescending(z: ZSet) returns (s: seq<string>)
    ensures s == Listing(z)
  {
    hide Listing;
    var rest, done: ZSet := z.Keys, map[];
    s := [];
    ListingSize(done);
    while rest != {}
      invariant rest <= z.Keys && done == map m | m in z && m !in rest :: z[m]
      invariant s == Listing(done)
      decreases |rest|
    {
      var m :| m in rest;
      s := Place(done, s, m, z[m]);
      done := done[m := z[m]];
      rest := rest - {m};
    }
    assert done == z;
  }

  method Place(done: ZSet, s: seq<string>, m: string, score: real) returns (s': seq<string>)
    requires s == Listing(done) && m !in done
    ensures s' == Listing(done[m := score])
  {
    var z := done[m := score];
    var i := 0;
    assert forall j :: 0 <= j < |s| ==> s[j] in s;
    while i < |s| && !Above(z, m, s[i])
      invariant i <= |s|
      invariant forall j :: 0 <= j < i ==> Above(z, s[j], m)
    {
      AboveIsTotal(z, m, s[i]);
      i := i + 1;
    }
    InsertionPoint(done, m, score, i);
    InsertKeepsListing(done, s, m, score, i);
    s' := Inserted(s, i, m);
  }

  lemma InsertionPoint(done: ZSet, m: string, score: real, i: nat)
    requires m !in done && i <= |Listing(done)|
    requires i < |Listing(done)| ==> Above(done[m := score], m, Listing(done)[i])
    ensures forall j :: i <= j < |Listing(done)| ==> Above(done[m := score], m, Listing(done)[j])
  {
    var s, z := Listing(done), done[m := score];
    forall j | i <= j < |s| ensures Above(z, m, s[j]) {
      if i < j {
        assert s[i] in s && s[j] in s && Above(done, s[i], s[j]);
        AboveIsTransitive(z, m, s[i], s[j]);
      }
    }
  }
}
