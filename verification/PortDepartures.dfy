/** What src/storage/memory/InMemoryTimelineStorage.ts does as written, against the timeline
    of module MemoryTimeline, which it ports. Each step is compared with the intended one:
    an exact condition says when the two agree. */
module PortDepartures {
  import opened Ids
  import opened MemoryTimeline
  import opened Ranking
  import opened Results
  import SortedSet

  function Min(a: nat, b: nat): nat {
    if a < b then a else b
  }

  /** What `x > a[i]` compares with: a missing element is below nothing. */
  function At(a: seq<string>, i: nat): Option<string> {
    if i < |a| then Some(a[i]) else None
  }

  predicate IsAbove(x: string, y: Option<string>) {
    y.Some? && Less(y.value, x)
  }

  /** Line 37: in TypeScript `// 2` is a comment, so the middle is the sum. It lies past the
      end of the list, and a comparison with a missing element is false. */
  method ReverseBisectLeftAsWritten(a: seq<string>, x: string) returns (r: nat)
    ensures r == if a == [] then 0 else |a| + 1
  {
    var lo, hi := 0, |a|;
    while lo < hi
      invariant hi == |a| && (lo == 0 || (a != [] && lo == |a| + 1))
    {
      var mid := lo + hi;
      if IsAbove(x, At(a, mid)) {
        hi := mid;
      } else {
        lo := mid + 1;
      }
    }
    r := lo;
  }

  /** `splice(start, 0, x)`: a start past the end counts as the end. */
  function SplicedIn(a: seq<string>, start: nat, x: string): seq<string> {
    var i := Min(start, |a|);
    a[..i] + [x] + a[i..]
  }

  /** Lines 92-103: what is not there yet is spliced in at the computed place. */
  method AddAsWritten(timeline: seq<string>, activities: seq<string>) returns (r: seq<string>)
    ensures r == Arrived(timeline, activities)
  {
    r := timeline;
    for i := 0 to |activities|
      invariant r == Arrived(timeline, activities[..i])
    {
      ghost var seen := activities[..i + 1];
      assert seen[..i] == activities[..i] && seen[i] == activities[i];
      if activities[i] !in r {
        var place := ReverseBisectLeftAsWritten(r, activities[i]);
        r := SplicedIn(r, place, activities[i]);
      }
    }
    assert activities[..|activities|] == activities;
  }

  /** First arrivals, in the order they arrive. */
  function Arrived(timeline: seq<string>, activities: seq<string>): seq<string> {
    if activities == [] then timeline
    else
      var n := |activities| - 1;
      var before := Arrived(timeline, activities[..n]);
      if activities[n] in before then before else before + [activities[n]]
  }

  lemma {:induction false} ArrivedElements(timeline: seq<string>, activities: seq<string>)
    ensures forall x :: x in Arrived(timeline, activities) <==> x in timeline || x in activities
  {
    if activities != [] {
      var rest, x := activities[..|activities| - 1], activities[|activities| - 1];
      ArrivedElements(timeline, rest);
      assert activities == rest + [x];
    }
  }

  /** One insertion lands where it should exactly when the new id is below the whole list. */
  lemma InsertionIff(timeline: seq<string>, id: string)
    requires Descending(timeline) && id !in timeline
    ensures Arrived(timeline, [id]) == Listing(Flat(Elements(timeline) + {id}))
       <==> timeline == [] || Less(id, timeline[|timeline| - 1])
  {
    hide Listing, Less;
    var r := timeline + [id];
    OneArrival(timeline, id);
    if timeline == [] || Less(id, timeline[|timeline| - 1]) {
      AppendedBelow(timeline, id);
      DescendingIsListing(r);
    }
    if r == Listing(Flat(Elements(timeline) + {id})) {
      ListingIsDescending(Elements(timeline) + {id});
      assert timeline != [] ==> Less(r[|timeline|], r[|timeline| - 1]);
    }
  }

  lemma OneArrival(timeline: seq<string>, id: string)
    requires id !in timeline
    ensures Arrived(timeline, [id]) == timeline + [id]
    ensures Elements(timeline + [id]) == Elements(timeline) + {id}
  {
    assert [id][..0] == [];
  }

  lemma AppendedBelow(timeline: seq<string>, id: string)
    requires Descending(timeline)
    requires timeline == [] || Less(id, timeline[|timeline| - 1])
    ensures Descending(timeline + [id])
  {
    forall i | 0 <= i < |timeline| ensures Less(id, timeline[i]) {
      var last := timeline[|timeline| - 1];
      if i < |timeline| - 1 {
        LessIsTransitive(id, last, timeline[i]);
      }
    }
  }

  /** `id` is below everything there and everything that came before it. */
  ghost predicate IsBelow(id: string, timeline: seq<string>, earlier: seq<string>) {
    (forall y :: y in timeline ==> Less(id, y)) && forall y :: y in earlier ==> Less(id, y)
  }

  /** Every id that is really new is older than everything it meets. */
  ghost predicate OlderEachTime(timeline: seq<string>, activities: seq<string>) {
    forall j :: 0 <= j < |activities| ==>
      activities[j] in timeline || activities[j] in activities[..j] || IsBelow(activities[j], timeline, activities[..j])
  }

  lemma OlderSnoc(timeline: seq<string>, rest: seq<string>, x: string)
    ensures OlderEachTime(timeline, rest + [x])
       <==> OlderEachTime(timeline, rest) && (x in timeline || x in rest || IsBelow(x, timeline, rest))
  {
    var all := rest + [x];
    assert forall j :: 0 <= j < |rest| ==> all[j] == rest[j] && all[..j] == rest[..j];
    assert all[|rest|] == x && all[..|rest|] == rest;
  }

  lemma DescendingSnoc(s: seq<string>, x: string)
    ensures Descending(s + [x]) <==> Descending(s) && forall y :: y in s ==> Less(x, y)
  {
    var all := s + [x];
    assert all[|s|] == x && forall i :: 0 <= i < |s| ==> all[i] == s[i];
    if Descending(all) {
      forall y | y in s ensures Less(x, y) {
        var i :| 0 <= i < |s| && s[i] == y;
        assert Less(all[|s|], all[i]);
      }
      forall i, j | 0 <= i < j < |s| ensures Less(s[j], s[i]) {
        assert Less(all[j], all[i]);
      }
    }
    if Descending(s) && forall y :: y in s ==> Less(x, y) {
      forall i, j | 0 <= i < j < |all| ensures Less(all[j], all[i]) {
        assert all[i] in s;
      }
    }
  }

  lemma {:induction false} ArrivedInOrder(timeline: seq<string>, activities: seq<string>)
    requires Descending(timeline)
    ensures Descending(Arrived(timeline, activities)) <==> OlderEachTime(timeline, activities)
  {
    hide Descending, OlderEachTime, Less;
    if activities == [] {
      NobodyCame(timeline);
    } else {
      var rest, x := activities[..|activities| - 1], activities[|activities| - 1];
      assert activities == rest + [x];
      ArrivedInOrder(timeline, rest);
      ArrivedElements(timeline, rest);
      OlderSnoc(timeline, rest, x);
      DescendingSnoc(Arrived(timeline, rest), x);
      assert (forall y :: y in Arrived(timeline, rest) ==> Less(x, y)) <==> IsBelow(x, timeline, rest);
    }
  }

  lemma NobodyCame(timeline: seq<string>)
    ensures OlderEachTime(timeline, [])
  {
  }

  /** A whole run of additions to any sorted timeline: the port keeps it sorted exactly when
      every id that is not there yet comes in below everything that is. */
  lemma AdditionsIff(timeline: seq<string>, activities: seq<string>)
    requires Descending(timeline)
    ensures Arrived(timeline, activities) == Listing(Flat(Elements(timeline) + Elements(activities)))
       <==> OlderEachTime(timeline, activities)
  {
    hide Listing, OlderEachTime, Less;
    var r, all := Arrived(timeline, activities), Elements(timeline) + Elements(activities);
    ArrivedElements(timeline, activities);
    ArrivedInOrder(timeline, activities);
    assert Elements(r) == all;
    if Descending(r) {
      DescendingIsListing(r);
    }
    ListingIsDescending(all);
  }

  /** Newer activities arriving one after the other come out oldest first. */
  lemma {:induction false} AscendingArrivalsStay(activities: seq<string>)
    requires forall i, j :: 0 <= i < j < |activities| ==> Less(activities[i], activities[j])
    ensures Arrived([], activities) == activities
  {
    hide Less, Elements;
    if activities != [] {
      var n := |activities| - 1;
      var before := activities[..n];
      AscendingArrivalsStay(before);
      LessIsIrreflexive(activities[n]);
      assert forall i :: 0 <= i < n ==> Less(activities[i], activities[n]);
      assert activities[n] !in before;
      assert activities == activities[..n] + [activities[n]];
    }
  }

  /** Line 137: `splice(length)` returns what it cuts off, and that is kept. */
  function TrimmedAsWritten(timeline: seq<string>, length: nat): seq<string> {
    timeline[Min(length, |timeline|)..]
  }

  /** So exactly the complement of what should stay is left, which is right only for an
      empty timeline. */
  lemma TrimIff(timeline: seq<string>, length: nat)
    requires Descending(timeline)
    ensures var kept := Listing(Keep(Flat(Elements(timeline)), length));
      timeline == kept + TrimmedAsWritten(timeline, length) &&
      (TrimmedAsWritten(timeline, length) == kept <==> timeline == [])
  {
    CutIsKeep(timeline, length);
    var n := Min(length, |timeline|);
    assert timeline == timeline[..n] + timeline[n..];
    if 0 < n < |timeline| {
      LessIsIrreflexive(timeline[0]);
      assert timeline[..n][0] == timeline[0] != timeline[n] == timeline[n..][0];
    }
  }

  /** Lines 107-116: the list `filter` returns is dropped, so nothing is removed and the
      count of removed entries is always 0. */
  method RemoveAsWritten(timeline: seq<string>, activities: seq<string>)
    returns (r: seq<string>, removed: int)
    ensures r == timeline && removed == 0
    ensures r == Listing(Flat(Elements(timeline) - Elements(activities)))
       <==> Descending(timeline) && forall id :: id in activities ==> id !in timeline
  {
    r := timeline;
    for i := 0 to |activities|
      invariant r == timeline
    {
      var filtered := Filtered(r, activities[i]);
    }
    removed := |timeline| - |r|;
    RemovalIff(timeline, activities);
  }

  function Filtered(timeline: seq<string>, id: string): (r: seq<string>)
    ensures forall x :: x in r <==> x in timeline && x != id
  {
    if timeline == [] then []
    else
      var rest := Filtered(timeline[1..], id);
      if timeline[0] == id then rest else [timeline[0]] + rest
  }

  lemma RemovalIff(timeline: seq<string>, activities: seq<string>)
    ensures timeline == Listing(Flat(Elements(timeline) - Elements(activities)))
       <==> Descending(timeline) && forall id :: id in activities ==> id !in timeline
  {
    var left := Elements(timeline) - Elements(activities);
    ListingIsDescending(left);
    if timeline == Listing(Flat(left)) {
      assert Elements(timeline) == left;
      forall id | id in activities ensures id !in timeline {
        assert id in Elements(activities);
      }
    }
    if Descending(timeline) && forall id :: id in activities ==> id !in timeline {
      assert left == Elements(timeline);
      DescendingIsListing(timeline);
    }
  }

  /** Line 73: `splice(start, stop)` takes `stop` entries, not entries up to `stop`, and
      takes them out of the stored timeline. */
  function ReadAsWritten(timeline: seq<string>, start: nat, stop: nat): (r: (seq<string>, seq<string>)) {
    var from := Min(start, |timeline|);
    var to := Min(from + stop, |timeline|);
    (timeline[from..to], timeline[..from] + timeline[to..])
  }

  /** What is read is the slice exactly when the slice starts at the front or past the end,
      is asked for empty, or reaches the end. What stays stored is the timeline exactly when
      nothing was read. */
  lemma ReadIff(timeline: seq<string>, start: nat, stop: nat)
    ensures ReadAsWritten(timeline, start, stop).0 == SortedSet.PythonWindow(timeline, Some(start), Some(stop))
       <==> start == 0 || stop == 0 || |timeline| <= start || |timeline| <= stop
    ensures ReadAsWritten(timeline, start, stop).1 == timeline
       <==> stop == 0 || |timeline| <= start
  {
    var from := Min(start, |timeline|);
    var to := Min(from + stop, |timeline|);
    var (read, left) := ReadAsWritten(timeline, start, stop);
    assert |left| == |timeline| - (to - from);
    if from == to {
      assert left == timeline;
    }
  }

  /** Reading the head twice: the second read starts where the first one ended. */
  lemma RepeatedReadMovesOn(timeline: seq<string>, stop: nat)
    requires stop <= |timeline|
    ensures ReadAsWritten(ReadAsWritten(timeline, 0, stop).1, 0, stop).0
         == timeline[stop..Min(stop + stop, |timeline|)]
  {
    assert ReadAsWritten(timeline, 0, stop).1 == timeline[stop..];
  }
}
