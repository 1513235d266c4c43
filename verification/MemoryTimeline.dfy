/** src/storage/memory.py, the reference of src/storage/memory/InMemoryTimelineStorage.ts:
    one list of ids per key, kept in descending order by binary insertion. What the port
    does instead is modelled in PortDepartures. The serializer is the simple one, which
    stores an id as itself. */
module MemoryTimeline {
  import opened Ids
  import opened Ranking
  import opened Results
  import SortedSet

  /** Ids ordered by themselves: a sorted set whose scores are all the same. */
  function Flat(ids: set<string>): ZSet {
    map id | id in ids :: 0.0
  }

  function Elements(s: seq<string>): set<string> {
    set id | id in s
  }

  ghost predicate Descending(s: seq<string>) {
    forall i, j :: 0 <= i < j < |s| ==> Less(s[j], s[i])
  }

  /** A strictly descending list is the listing of its elements, and nothing else is. */
  lemma DescendingIsListing(s: seq<string>)
    requires Descending(s)
    ensures s == Listing(Flat(Elements(s)))
    ensures |s| == |Elements(s)|
  {
    var z := Flat(Elements(s));
    forall i, j | 0 <= i < j < |s| ensures Above(z, s[i], s[j]) {
      assert s[i] in s && s[j] in s;
    }
    assert IsListing(z, s);
    ListingIsUnique(z, s);
    ListingLength(z, s);
    assert z.Keys == Elements(s) && |z.Keys| == |z|;
  }

  lemma ListingIsDescending(ids: set<string>)
    ensures Descending(Listing(Flat(ids))) && Elements(Listing(Flat(ids))) == ids
  {
    var z := Flat(ids);
    var s := Listing(z);
    assert IsListing(z, s);
    forall i, j | 0 <= i < j < |s| ensures Less(s[j], s[i]) {
      assert Above(z, s[i], s[j]);
    }
  }

  /** The bisect contract: `r` splits `a[lo..hi]` into what is not below `x` and what is. */
  ghost predicate Splits(a: seq<string>, x: string, lo: int, hi: int, r: int)
    requires 0 <= lo && hi <= |a|
  {
    lo <= r && (r <= hi || r == lo) &&
    (forall i :: lo <= i < r ==> !Less(a[i], x)) &&
    forall i :: r <= i < hi ==> Less(a[i], x)
  }

  method ReverseBisectLeft(a: seq<string>, x: string, lo: int, hi: Option<int>) returns (r: Result<int>)
    requires hi.Some? ==> hi.value <= |a|
    requires forall i, j :: 0 <= i < j < |a| ==> !Less(a[i], a[j])
    ensures r.Err? <==> lo < 0
    ensures r.Ok? ==> Splits(a, x, lo, if hi.Some? then hi.value else |a|, r.value)
  {
    if lo < 0 {
      return Err(ValueError);
    }
    var low, high := lo, if hi.Some? then hi.value else |a|;
    ghost var end := high;
    while low < high
      invariant lo <= low && high <= end && (low <= high || low == lo)
      invariant forall i :: lo <= i < low ==> !Less(a[i], x)
      invariant forall i :: high <= i < end && 0 <= i ==> Less(a[i], x)
    {
      var mid := (low + high) / 2;
      if Less(a[mid], x) {
        BelowStaysBelow(a, x, mid, end);
        high := mid;
      } else {
        AtOrAboveStays(a, x, lo, mid);
        low := mid + 1;
      }
    }
    r := Ok(low);
  }

  lemma BelowStaysBelow(a: seq<string>, x: string, mid: int, end: int)
    requires 0 <= mid < end <= |a| && Less(a[mid], x)
    requires forall i, j :: 0 <= i < j < |a| ==> !Less(a[i], a[j])
    ensures forall i :: mid <= i < end ==> Less(a[i], x)
  {
    forall i | mid <= i < end ensures Less(a[i], x) {
      if mid < i {
        assert !Less(a[mid], a[i]);
        LessIsTotal(a[mid], a[i]);
        if a[mid] != a[i] {
          LessIsTransitive(a[i], a[mid], x);
        }
      }
    }
  }

  lemma AtOrAboveStays(a: seq<string>, x: string, lo: int, mid: int)
    requires 0 <= lo <= mid < |a| && !Less(a[mid], x)
    requires forall i, j :: 0 <= i < j < |a| ==> !Less(a[i], a[j])
    ensures forall i :: lo <= i <= mid ==> !Less(a[i], x)
  {
    forall i | lo <= i <= mid ensures !Less(a[i], x) {
      if Less(a[i], x) {
        BelowStaysBelow(a, x, i, mid + 1);
      }
    }
  }

  /** The split point is unique. */
  lemma SplitIsUnique(a: seq<string>, x: string, lo: int, hi: int, r: int, q: int)
    requires 0 <= lo && hi <= |a| && Splits(a, x, lo, hi, r) && Splits(a, x, lo, hi, q)
    ensures r == q
  {
    var k := if r < q then r else q;
    var below := k < hi && Less(a[k], x);
  }

  /** The doc comment promises a place to the left of equal entries. The code gives the
      place to their right, so the promise is met exactly when `x` is not in the range. */
  lemma LeftOfEqualIffAbsent(a: seq<string>, x: string, lo: int, hi: int, r: int)
    requires 0 <= lo <= hi <= |a| && Splits(a, x, lo, hi, r)
    requires forall i, j :: 0 <= i < j < |a| ==> !Less(a[i], a[j])
    ensures (forall i :: lo <= i < r ==> Less(x, a[i])) <==> x !in a[lo..hi]
  {
    LessIsIrreflexive(x);
    if x in a[lo..hi] {
      var k :| 0 <= k < hi - lo && a[lo..hi][k] == x;
      assert a[lo + k] == x && !Less(a[lo + k], x);
    } else {
      forall i | lo <= i < r ensures Less(x, a[i]) {
        LessIsTotal(x, a[i]);
        assert a[lo..hi][i - lo] == a[i];
      }
    }
  }

  class InMemoryTimelineStorage {
    var timelineStore: map<string, seq<string>>

    function Timeline(key: string): seq<string>
      reads this
    {
      if key in timelineStore then timelineStore[key] else []
    }

    /** Every timeline is strictly descending, hence free of duplicates. */
    ghost predicate Valid()
      reads this
    {
      forall key :: key in timelineStore ==> Descending(timelineStore[key])
    }

    constructor ()
      ensures Valid() && timelineStore == map[]
    {
      timelineStore := map[];
    }

    method GetSliceFromStorage(key: string, start: Option<nat>, stop: Option<nat>)
      returns (pairs: seq<(string, string)>)
      requires Valid()
      ensures var slice := SortedSet.PythonWindow(Listing(Flat(Elements(Timeline(key)))), start, stop);
        |pairs| == |slice| &&
        forall i :: 0 <= i < |pairs| ==> pairs[i].0 == slice[i] && pairs[i].1 == slice[i]
    {
      DescendingIsListing(Timeline(key));
      var results := SortedSet.PythonWindow(Timeline(key), start, stop);
      pairs := seq(|results|, i requires 0 <= i < |results| => (results[i], results[i]));
    }

    method AddToStorage(key: string, activities: seq<string>) returns (added: nat)
      requires Valid()
      modifies this
      ensures Valid()
      ensures timelineStore ==
        old(timelineStore)[key := Listing(Flat(old(Elements(Timeline(key))) + Elements(activities)))]
      ensures added == |old(Elements(Timeline(key))) + Elements(activities)| - |old(Timeline(key))|
    {
      DescendingIsListing(Timeline(key));
      var timeline := InsertAll(Timeline(key), activities);
      DescendingIsListing(timeline);
      added := |timeline| - |Timeline(key)|;
      timelineStore := timelineStore[key := timeline];
    }

    method RemoveFromStorage(key: string, activities: seq<string>) returns (removed: nat)
      requires Valid()
      modifies this
      ensures Valid()
      ensures timelineStore ==
        old(timelineStore)[key := Listing(Flat(old(Elements(Timeline(key))) - Elements(activities)))]
      ensures removed == |old(Timeline(key))| - |old(Elements(Timeline(key))) - Elements(activities)|
    {
      DescendingIsListing(Timeline(key));
      var timeline := RemoveAll(Timeline(key), activities);
      DescendingIsListing(timeline);
      removed := |Timeline(key)| - |timeline|;
      timelineStore := timelineStore[key := timeline];
    }

    method Trim(key: string, length: nat)
      requires Valid()
      modifies this
      ensures Valid()
      ensures timelineStore ==
        old(timelineStore)[key := Listing(Keep(Flat(old(Elements(Timeline(key)))), length))]
    {
      var timeline := Timeline(key);
      CutIsKeep(timeline, length);
      timelineStore := timelineStore[key := if length < |timeline| then timeline[..length] else timeline];
    }
  }

  lemma CutIsKeep(timeline: seq<string>, length: nat)
    requires Descending(timeline)
    ensures Listing(Keep(Flat(Elements(timeline)), length))
         == if length < |timeline| then timeline[..length] else timeline
    ensures Descending(Listing(Keep(Flat(Elements(timeline)), length)))
  {
    DescendingIsListing(timeline);
    ListingOfKeep(Flat(Elements(timeline)), length);
    if |timeline| <= length {
      assert timeline[..|timeline|] == timeline;
    }
  }

  method InsertAll(timeline: seq<string>, activities: seq<string>) returns (r: seq<string>)
    requires Descending(timeline)
    ensures Descending(r) && Elements(r) == Elements(timeline) + Elements(activities)
    ensures |r| >= |timeline|
  {
    r := timeline;
    for i := 0 to |activities|
      invariant Descending(r) && Elements(r) == Elements(timeline) + Elements(activities[..i])
      invariant |r| >= |timeline|
    {
      assert activities[..i + 1] == activities[..i] + [activities[i]];
      if activities[i] !in r {
        r := Insert(r, activities[i]);
      }
    }
    assert activities[..|activities|] == activities;
  }

  method RemoveAll(timeline: seq<string>, activities: seq<string>) returns (r: seq<string>)
    requires Descending(timeline)
    ensures Descending(r) && Elements(r) == Elements(timeline) - Elements(activities)
    ensures |r| <= |timeline|
  {
    r := timeline;
    for i := 0 to |activities|
      invariant Descending(r) && Elements(r) == Elements(timeline) - Elements(activities[..i])
      invariant |r| <= |timeline|
    {
      assert activities[..i + 1] == activities[..i] + [activities[i]];
      if activities[i] in r {
        r := RemoveFirst(r, activities[i]);
      }
    }
    assert activities[..|activities|] == activities;
  }

  method Insert(timeline: seq<string>, id: string) returns (r: seq<string>)
    requires Descending(timeline) && id !in timeline
    ensures Descending(r) && Elements(r) == Elements(timeline) + {id} && |r| == |timeline| + 1
  {
    DescendingIsAntitone(timeline);
    var place := ReverseBisectLeft(timeline, id, 0, None);
    var i := place.value;
    LeftOfEqualIffAbsent(timeline, id, 0, |timeline|, i);
    assert timeline[0..|timeline|] == timeline;
    r := Inserted(timeline, i, id);
    forall x ensures x in Elements(r) <==> x in Elements(timeline) + {id} {
      InsertedMembers(timeline, i, id, x);
    }
  }

  lemma DescendingIsAntitone(s: seq<string>)
    requires Descending(s)
    ensures forall i, j :: 0 <= i < j < |s| ==> !Less(s[i], s[j])
  {
    forall i, j | 0 <= i < j < |s| ensures !Less(s[i], s[j]) {
      if Less(s[i], s[j]) {
        LessIsTransitive(s[i], s[j], s[i]);
        LessIsIrreflexive(s[i]);
      }
    }
  }

  /** Python's `list.remove`: the first occurrence goes. */
  method RemoveFirst(timeline: seq<string>, id: string) returns (r: seq<string>)
    requires Descending(timeline) && id in timeline
    ensures Descending(r) && Elements(r) == Elements(timeline) - {id} && |r| == |timeline| - 1
  {
    var i := 0;
    while timeline[i] != id
      invariant i < |timeline| && forall j :: 0 <= j < i ==> timeline[j] != id
      invariant id in timeline[i..]
      decreases |timeline| - i
    {
      i := i + 1;
    }
    r := timeline[..i] + timeline[i + 1..];
    assert timeline == timeline[..i] + [id] + timeline[i + 1..];
    forall k | i < k < |timeline| ensures timeline[k] != id {
      LessIsIrreflexive(id);
    }
    assert id !in r;
    assert forall x :: x in timeline <==> x in r || x == id;
  }
}
