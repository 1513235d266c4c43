/** The follow-many and unfollow-many workers of src/task/setupTask.ts on flat feeds, with
    src/utils/splitId.ts: copying a followed user's activities in, and taking them out. */
module Follow {
  import opened Ranking
  import opened Results
  import opened Activities
  import opened SortedSet
  import opened TimelineRuns
  import opened MemoryTimeline
  import opened TrimSchedules
  import Text
  import Hydration
  import Feed

  // ---- splitId ----

  /** The last segment of an id; without a separator the id itself. A null id is only an
      error when there is a separator to split at. */
  function SplitId(id: Option<string>, separator: string): Result<Option<string>> {
    if separator == "" then Ok(id)
    else if id.None? then Err(TypeError)
    else
      var parts := Text.Split(id.value, separator);
      Ok(Some(parts[|parts| - 1]))
  }

  /** `last` is all of `s`, or ends it right behind a separator. */
  predicate EndsBehind(s: string, separator: string, last: string) {
    last == s || (|separator| + |last| <= |s| && s[|s| - |last| - |separator|..] == separator + last)
  }

  lemma {:induction false} SegmentAfterLast(s: string, separator: string)
    requires separator != ""
    ensures var parts := Text.Split(s, separator);
      !Text.Includes(parts[|parts| - 1], separator) && EndsBehind(s, separator, parts[|parts| - 1])
    decreases |s|
  {
    hide Text.Split, Text.Includes, EndsBehind;
    var i := SplitOff(s, separator);
    if i < |s| {
      var head, rest := s[..i], s[i + |separator|..];
      SegmentAfterLast(rest, separator);
      var parts := Text.Split(rest, separator);
      EndsBehindLonger(head, rest, separator, parts[|parts| - 1]);
    } else {
      AllOfIt(s, separator);
    }
  }

  lemma AllOfIt(s: string, separator: string)
    ensures EndsBehind(s, separator, s)
  {
  }

  /** What comes before the first separator; everything, when there is none. */
  lemma SplitOff(s: string, separator: string) returns (i: nat)
    requires separator != ""
    ensures i <= |s|
    ensures i < |s| ==> i + |separator| <= |s| && s == s[..i] + separator + s[i + |separator|..]
    ensures i < |s| ==> Text.Split(s, separator) == [s[..i]] + Text.Split(s[i + |separator|..], separator)
    ensures i == |s| ==> Text.Split(s, separator) == [s] && !Text.Includes(s, separator)
  {
    var found := Text.IndexOf(s, separator);
    if found.Some? {
      i := found.value;
    } else {
      i := |s|;
    }
  }

  lemma EndsBehindLonger(head: string, rest: string, separator: string, last: string)
    requires EndsBehind(rest, separator, last)
    ensures EndsBehind(head + separator + rest, separator, last)
  {
    var s := head + separator + rest;
    if last == rest {
      assert s[|s| - |last| - |separator|..] == separator + rest;
    } else {
      assert s[|s| - |last| - |separator|..] == rest[|rest| - |last| - |separator|..];
    }
  }

  /** Whatever the separator: the result contains none, and is the whole id or ends it right
      behind one. */
  lemma SplitIdIsLastSegment(id: string, separator: string)
    requires separator != ""
    ensures SplitId(Some(id), separator).Ok? && SplitId(Some(id), separator).value.Some?
    ensures var last := SplitId(Some(id), separator).value.value;
      !Text.Includes(last, separator) && EndsBehind(id, separator, last)
  {
    SegmentAfterLast(id, separator);
  }

  /** For a one-character separator it is the last of the joined segments. */
  lemma LastSegment(prefix: seq<string>, last: string, c: char)
    requires c !in last && forall i :: 0 <= i < |prefix| ==> c !in prefix[i]
    ensures SplitId(Some(Text.Join(prefix + [last], [c])), [c]) == Ok(Some(last))
  {
    Text.SplitJoin(prefix + [last], c);
  }

  /** No proper beginning of the separator is also its end; so for every single character. */
  ghost predicate Borderless(separator: string) {
    forall k :: 0 < k < |separator| ==> separator[..k] != separator[|separator| - k..]
  }

  lemma Overlap(id: string, separator: string, p: nat, q: nat)
    requires p < q < p + |separator| <= |id| && |separator| <= q
    requires id[p..p + |separator|] == separator && id[q - |separator|..q] == separator
    ensures separator[..q - p] == separator[|separator| - (q - p)..]
  {
    assert separator[..q - p] == id[p..q];
  }

  lemma OneEnding(id: string, separator: string, u: string, w: string)
    requires Borderless(separator) && separator != "" && |u| <= |w|
    requires !Text.Includes(u, separator) && EndsBehind(id, separator, u)
    requires !Text.Includes(w, separator) && EndsBehind(id, separator, w)
    ensures u == w
  {
    if |u| < |w| {
      var p, q := |id| - |u| - |separator|, |id| - |w|;
      assert id[p..p + |separator|] == separator && id[q..] == w;
      if q <= p {
        assert w[p - q..p - q + |separator|] == id[p..p + |separator|];
        assert Text.OccursAt(w, separator, p - q);
      } else {
        Overlap(id, separator, p, q);
        assert false;
      }
    } else {
      assert id[|id| - |u|..] == u && id[|id| - |w|..] == w;
    }
  }

  lemma EndingIsResult(id: string, separator: string, u: string)
    requires Borderless(separator) && separator != ""
    requires !Text.Includes(u, separator) && EndsBehind(id, separator, u)
    ensures SplitId(Some(id), separator) == Ok(Some(u))
  {
    SplitIdIsLastSegment(id, separator);
    var w := SplitId(Some(id), separator).value.value;
    hide Borderless, EndsBehind, Text.Includes;
    if |u| <= |w| {
      OneEnding(id, separator, u, w);
    } else {
      OneEnding(id, separator, w, u);
    }
  }

  /** `SplitId` finds whatever ends an id behind a separator, for every id, exactly when the
      separator cannot overlap itself: of `xaaay` split at `aa` the rest is `ay`, not `y`. */
  lemma SplitIdIff(separator: string)
    requires separator != ""
    ensures (forall id, u :: SplitId(Some(id), separator) == Ok(Some(u))
                        <==> !Text.Includes(u, separator) && EndsBehind(id, separator, u))
       <==> Borderless(separator)
  {
    if Borderless(separator) {
      forall id, u ensures SplitId(Some(id), separator) == Ok(Some(u))
                      <==> !Text.Includes(u, separator) && EndsBehind(id, separator, u)
      {
        hide SplitId, EndsBehind, Text.Includes, Borderless;
        SplitIdIsLastSegment(id, separator);
        if !Text.Includes(u, separator) && EndsBehind(id, separator, u) {
          EndingIsResult(id, separator, u);
        }
      }
    } else {
      var k :| 0 < k < |separator| && separator[..k] == separator[|separator| - k..];
      OverlapIsMissed(separator, k);
    }
  }

  lemma OverlapIsMissed(separator: string, k: nat)
    requires 0 < k < |separator| && separator[..k] == separator[|separator| - k..]
    ensures var id := separator + separator[k..];
      SplitId(Some(id), separator) == Ok(Some(separator[k..])) &&
      !Text.Includes("", separator) && EndsBehind(id, separator, "")
  {
    var id, rest := separator + separator[k..], separator[k..];
    assert !Text.Includes(rest, separator);
    Text.SplitOne(rest, separator);
    assert Text.Clean("", separator);
    assert id == "" + separator + rest;
    Text.SplitHead("", separator, rest);
    assert id[|id| - |separator|..] == separator[|separator| - k..] + separator[k..] == separator + "" by {
      assert id[|id| - |separator|..] == separator[|separator| - k..] + separator[k..];
      assert separator[..k] + separator[k..] == separator;
    }
  }

  // ---- which activities belong to a user ----

  /** An id names one of `users`: it is one of them or, when ids are split, it ends in one
      of them right behind a separator. */
  ghost predicate NamesOne(id: string, users: seq<string>, separator: string) {
    if separator == "" then id in users
    else exists u :: u in users && !Text.Includes(u, separator) && EndsBehind(id, separator, u)
  }

  lemma NamesOneIff(id: string, users: seq<string>, separator: string)
    requires Borderless(separator)
    ensures SplitId(Some(id), separator).Ok? && SplitId(Some(id), separator).value.Some?
    ensures SplitId(Some(id), separator).value.value in users <==> NamesOne(id, users, separator)
  {
    hide Borderless, EndsBehind, Text.Includes;
    if separator != "" {
      SplitIdIsLastSegment(id, separator);
      forall u | u in users && !Text.Includes(u, separator) && EndsBehind(id, separator, u)
        ensures SplitId(Some(id), separator) == Ok(Some(u))
      {
        EndingIsResult(id, separator, u);
      }
    }
  }

  /** An activity matches exactly when its actor or its target names one of the users; when
      ids are split, it must have a target to be looked at. */
  lemma MatchesIff(x: Activity, users: seq<string>, separator: string)
    requires Borderless(separator)
    ensures Matches(x, users, separator) <==>
      (separator == "" || x.targetId.Some?) &&
      (NamesOne(x.actorId, users, separator) || (x.targetId.Some? && NamesOne(x.targetId.value, users, separator)))
  {
    hide NamesOne;
    NamesOneIff(x.actorId, users, separator);
    if x.targetId.Some? {
      NamesOneIff(x.targetId.value, users, separator);
    }
  }

  /** None when `splitId` throws on a null target. */
  function BelongsTo(x: Activity, users: seq<string>, separator: string): Option<bool> {
    var actor, target := SplitId(Some(x.actorId), separator), SplitId(x.targetId, separator);
    if target.Err? then None
    else Some(actor.value.value in users || (target.value.Some? && target.value.value in users))
  }

  predicate Matches(x: Activity, users: seq<string>, separator: string) {
    BelongsTo(x, users, separator) == Some(true)
  }

  /** The ids of the matching activities, or None when one of them cannot be examined. */
  function Matching(items: seq<Activity>, users: seq<string>, separator: string): Option<seq<string>> {
    if items == [] then Some([])
    else
      var rest, x := Matching(items[..|items| - 1], users, separator), items[|items| - 1];
      var m := BelongsTo(x, users, separator);
      if rest.None? || m.None? then None
      else Some(rest.value + if m.value then [x.id] else [])
  }

  lemma {:induction false} MatchingHolds(items: seq<Activity>, users: seq<string>, separator: string)
    ensures Matching(items, users, separator).Some? <==> separator == "" || forall x :: x in items ==> x.targetId.Some?
    ensures Matching(items, users, separator).Some? ==> forall id ::
      id in Matching(items, users, separator).value <==> exists x :: x in items && x.id == id && Matches(x, users, separator)
  {
    if items != [] {
      var rest, x := items[..|items| - 1], items[|items| - 1];
      MatchingHolds(rest, users, separator);
      hide SplitId;
      SplitIdFailsIff(x, separator);
      assert items == rest + [x];
      assert BelongsTo(x, users, separator).None? <==> separator != "" && x.targetId.None?;
    }
  }

  lemma SplitIdFailsIff(x: Activity, separator: string)
    ensures SplitId(Some(x.actorId), separator).Ok? && SplitId(Some(x.actorId), separator).value.Some?
    ensures SplitId(x.targetId, separator).Err? <==> separator != "" && x.targetId.None?
  {
  }

  /** With unsplit ids exactly those activities are collected whose actor or target is one of
      the users. */
  lemma CollectedUnsplit(items: seq<Activity>, users: seq<string>)
    ensures Matching(items, users, "").Some?
    ensures forall id :: id in Matching(items, users, "").value <==>
      exists x :: x in items && x.id == id && (x.actorId in users || (x.targetId.Some? && x.targetId.value in users))
  {
    hide Matching, Matches;
    MatchingHolds(items, users, "");
    forall x ensures Matches(x, users, "") <==> x.actorId in users || (x.targetId.Some? && x.targetId.value in users) {
      MatchesIff(x, users, "");
    }
  }

  /** With split ids exactly those whose actor or target ends in one of the users. */
  lemma CollectedSplit(items: seq<Activity>, users: seq<string>, separator: string)
    requires separator != "" && Borderless(separator) && forall x :: x in items ==> x.targetId.Some?
    ensures Matching(items, users, separator).Some?
    ensures forall id :: id in Matching(items, users, separator).value <==>
      exists x, u :: x in items && x.id == id && u in users && !Text.Includes(u, separator) &&
        (EndsBehind(x.actorId, separator, u) || EndsBehind(x.targetId.value, separator, u))
  {
    hide Matching, Matches, Borderless, EndsBehind, Text.Includes;
    MatchingHolds(items, users, separator);
    forall x | x in items
      ensures Matches(x, users, separator) <==>
        exists u :: u in users && !Text.Includes(u, separator) &&
          (EndsBehind(x.actorId, separator, u) || EndsBehind(x.targetId.value, separator, u))
    {
      MatchesIff(x, users, separator);
    }
  }

  // ---- unfollow ----

  /** What the worker leaves of one feed: it trims, reads everything, and removes what
      belongs to the sources. None when it throws, right after the trim. */
  ghost function Unfollowed(z: ZSet, store: Hydration.Store, sources: seq<string>, separator: string, max: nat): Option<ZSet> {
    var t := Keep(z, max);
    var items := Feed.BodiesOf(Listing(t), store);
    if items.None? then None
    else
      var ids := Matching(items.value, sources, separator);
      if ids.None? then None else Some(Without(t, ids.value))
  }

  /** The worker fails exactly when a body is missing, or when ids are split and some
      activity in the trimmed feed has no target. */
  lemma UnfollowFailsIff(z: ZSet, store: Hydration.Store, sources: seq<string>, separator: string, max: nat)
    ensures Unfollowed(z, store, sources, separator, max).None? <==>
      (exists m :: m in Keep(z, max) && m !in store) ||
      (separator != "" && exists m :: m in Keep(z, max) && m in store && store[m].targetId.None?)
  {
    var t := Keep(z, max);
    var l := Listing(t);
    assert IsListing(t, l);
    Feed.BodiesInOrder(l, store);
    var items := Feed.BodiesOf(l, store);
    if items.Some? {
      MatchingHolds(items.value, sources, separator);
      forall m | m in t && store[m].targetId.None? ensures store[m] in items.value {
        var i :| 0 <= i < |l| && l[i] == m;
        assert items.value[i] == store[m];
      }
      forall x | x in items.value ensures exists m :: m in t && store[m] == x {
        var i :| 0 <= i < |items.value| && items.value[i] == x;
        assert l[i] in l && store[l[i]] == x;
      }
    } else {
      var i :| 0 <= i < |l| && l[i] !in store;
      assert l[i] in l;
    }
  }

  /** Unfollowing is complete and disturbs nothing else: of the trimmed feed exactly the
      activities with neither actor nor target among the sources survive, scores unchanged. */
  lemma UnfollowIsExact(z: ZSet, store: Hydration.Store, sources: seq<string>, separator: string, max: nat)
    requires Hydration.Keyed(store) && Unfollowed(z, store, sources, separator, max).Some?
    ensures forall m :: m in Keep(z, max) ==> m in store
    ensures Unfollowed(z, store, sources, separator, max).value
         == map m | m in Keep(z, max) && !Matches(store[m], sources, separator) :: z[m]
    ensures Borderless(separator) ==> forall m :: m in Unfollowed(z, store, sources, separator, max).value <==>
      m in Keep(z, max) && !NamesOne(store[m].actorId, sources, separator) &&
      !(store[m].targetId.Some? && NamesOne(store[m].targetId.value, sources, separator))
  {
    hide NamesOne;
    var t := Keep(z, max);
    var l := Listing(t);
    assert IsListing(t, l);
    hide Keep, Listing, Matches;
    forall m | m in t
      ensures m in store
      ensures m in Matching(Feed.BodiesOf(l, store).value, sources, separator).value
              <==> Matches(store[m], sources, separator)
    {
      MatchedIffMatches(l, store, sources, separator, m);
    }
    hide Unfollowed, Matching;
    if Borderless(separator) {
      UnfollowFailsIff(z, store, sources, separator, max);
      forall m | m in t {
        MatchesIff(store[m], sources, separator);
      }
    }
  }

  lemma MatchedIffMatches(l: seq<string>, store: Hydration.Store, sources: seq<string>, separator: string, m: string)
    requires Hydration.Keyed(store) && Feed.BodiesOf(l, store).Some? && m in l
    requires Matching(Feed.BodiesOf(l, store).value, sources, separator).Some?
    ensures m in store
    ensures m in Matching(Feed.BodiesOf(l, store).value, sources, separator).value <==> Matches(store[m], sources, separator)
  {
    hide Matches;
    Feed.BodiesInOrder(l, store);
    var items := Feed.BodiesOf(l, store).value;
    MatchingHolds(items, sources, separator);
    hide Feed.BodiesOf;
    var i :| 0 <= i < |l| && l[i] == m;
    assert items[i] == store[m] && items[i] in items;
    if m in Matching(items, sources, separator).value {
      var x :| x in items && x.id == m && Matches(x, sources, separator);
      var k :| 0 <= k < |items| && items[k] == x;
      assert store[l[k]] == x;
    }
  }

  // ---- follow ----

  /** The ids a follow brings in: of each target's user feed, the matching ones among the
      first `limit`. None when an activity cannot be examined, or when the limit is 0: the
      read refuses to be given neither a start nor a stop. */
  ghost function Copied(targets: seq<string>, userFeeds: map<string, ZSet>, store: Hydration.Store, separator: string,
                        limit: nat): Option<seq<string>> {
    if targets == [] then Some([])
    else
      var user := targets[|targets| - 1];
      var rest := Copied(targets[..|targets| - 1], userFeeds, store, separator, limit);
      var feed := if user in userFeeds then userFeeds[user] else map[];
      var items := Feed.BodiesOf(RedisWindow(Listing(feed), Some(0), Some(limit)), store);
      if rest.None? || items.None? || limit == 0 then None
      else
        var ids := Matching(items.value, [user], separator);
        if ids.None? then None else Some(rest.value + ids.value)
  }

  /** `id` is among the best `limit` of the user's feed, and belongs to the user. */
  ghost predicate CopiedOf(id: string, user: string, userFeeds: map<string, ZSet>, store: Hydration.Store, separator: string,
                           limit: nat) {
    user in userFeeds && InTop(userFeeds[user], limit, id) && id in store && Matches(store[id], [user], separator)
  }

  lemma MatchesMore(x: Activity, user: string, users: seq<string>, separator: string)
    requires Matches(x, [user], separator) && user in users
    ensures Matches(x, users, separator)
  {
  }

  /** A follow copies, of each target's user feed, exactly what is among the best `limit` and
      belongs to that target. */
  lemma {:induction false} CopiedHolds(targets: seq<string>, userFeeds: map<string, ZSet>, store: Hydration.Store,
                                       separator: string, limit: nat)
    requires Hydration.Keyed(store) && Copied(targets, userFeeds, store, separator, limit).Some?
    ensures forall id :: id in Copied(targets, userFeeds, store, separator, limit).value <==>
      exists u :: u in targets && CopiedOf(id, u, userFeeds, store, separator, limit)
  {
    hide Matches, Listing;
    if targets != [] {
      var user, rest := targets[|targets| - 1], targets[..|targets| - 1];
      CopiedHolds(rest, userFeeds, store, separator, limit);
      var l := Limit(Listing(if user in userFeeds then userFeeds[user] else map[]), 0, limit);
      hide CopiedOf;
      forall id ensures id in Matching(Feed.BodiesOf(l, store).value, [user], separator).value
                   <==> CopiedOf(id, user, userFeeds, store, separator, limit)
      {
        CopiedOfHolds(id, user, userFeeds, store, separator, limit);
      }
      hide Copied, Matching;
      assert targets == rest + [user];
    }
  }

  lemma MatchedAreListed(l: seq<string>, store: Hydration.Store, users: seq<string>, separator: string, id: string)
    requires Hydration.Keyed(store) && Feed.BodiesOf(l, store).Some?
    requires Matching(Feed.BodiesOf(l, store).value, users, separator).Some?
    ensures id in Matching(Feed.BodiesOf(l, store).value, users, separator).value ==> id in l
  {
    hide Matches;
    Feed.BodiesInOrder(l, store);
    var items := Feed.BodiesOf(l, store).value;
    MatchingHolds(items, users, separator);
    hide Feed.BodiesOf;
    if id in Matching(items, users, separator).value {
      var x :| x in items && x.id == id && Matches(x, users, separator);
      var k :| 0 <= k < |items| && items[k] == x;
      assert store[l[k]] == x && l[k] in l;
    }
  }

  lemma CopiedOfHolds(id: string, user: string, userFeeds: map<string, ZSet>, store: Hydration.Store,
                      separator: string, limit: nat)
    requires Hydration.Keyed(store) && limit > 0
    requires var l := Limit(Listing(if user in userFeeds then userFeeds[user] else map[]), 0, limit);
             Feed.BodiesOf(l, store).Some? && Matching(Feed.BodiesOf(l, store).value, [user], separator).Some?
    ensures var l := Limit(Listing(if user in userFeeds then userFeeds[user] else map[]), 0, limit);
            id in Matching(Feed.BodiesOf(l, store).value, [user], separator).value
            <==> CopiedOf(id, user, userFeeds, store, separator, limit)
  {
    hide Matches, Listing;
    var z := if user in userFeeds then userFeeds[user] else map[];
    var l := Limit(Listing(z), 0, limit);
    InTopIsPrefix(z, limit, id);
    LimitIsPrefix(Listing(z), limit);
    if id in l {
      MatchedIffMatches(l, store, [user], separator, id);
    } else {
      MatchedAreListed(l, store, [user], separator, id);
    }
  }

  /** Everything a follow copies belongs to one of the followed users. */
  lemma {:induction false} CopiedMatch(targets: seq<string>, userFeeds: map<string, ZSet>, store: Hydration.Store,
                                       separator: string, limit: nat, all: seq<string>)
    requires Hydration.Keyed(store) && Copied(targets, userFeeds, store, separator, limit).Some?
    requires forall u :: u in targets ==> u in all
    ensures forall id :: id in Copied(targets, userFeeds, store, separator, limit).value ==>
              id in store && Matches(store[id], all, separator)
  {
    if targets != [] {
      var user, rest := targets[|targets| - 1], targets[..|targets| - 1];
      CopiedMatch(rest, userFeeds, store, separator, limit, all);
      var feed := if user in userFeeds then userFeeds[user] else map[];
      var l := RedisWindow(Listing(feed), Some(0), Some(limit));
      CopiedFrom(l, store, user, separator, all);
    }
  }

  lemma CopiedFrom(l: seq<string>, store: Hydration.Store, user: string, separator: string, all: seq<string>)
    requires Hydration.Keyed(store) && Feed.BodiesOf(l, store).Some? && user in all
    requires Matching(Feed.BodiesOf(l, store).value, [user], separator).Some?
    ensures forall id :: id in Matching(Feed.BodiesOf(l, store).value, [user], separator).value ==>
              id in store && Matches(store[id], all, separator)
  {
    Feed.BodiesInOrder(l, store);
    var items := Feed.BodiesOf(l, store).value;
    MatchingHolds(items, [user], separator);
    forall id | id in Matching(items, [user], separator).value ensures id in store && Matches(store[id], all, separator) {
      var x :| x in items && x.id == id && Matches(x, [user], separator);
      var k :| 0 <= k < |items| && items[k] == x;
      assert store[l[k]] == x;
      MatchesMore(x, user, all, separator);
    }
  }

  /** Follow and then unfollow the same users: the feed is back where it was exactly when it
      held nothing of theirs and the copies pushed nothing over the edge. */
  lemma FollowThenUnfollowIff(ids: set<string>, targets: seq<string>, userFeeds: map<string, ZSet>,
                              store: Hydration.Store, separator: string, limit: nat, max: nat, score: Scoring)
    requires Hydration.Keyed(store) && Copied(targets, userFeeds, store, separator, limit).Some?
    requires var copied := Copied(targets, userFeeds, store, separator, limit).value;
             Unfollowed(Scored(ids + Elements(copied), score), store, targets, separator, max).Some?
    ensures var copied := Copied(targets, userFeeds, store, separator, limit).value;
            var followed := Scored(ids + Elements(copied), score);
            Unfollowed(followed, store, targets, separator, max).value == Scored(ids, score)
            <==> forall id :: id in ids ==> InTop(followed, max, id) && id in store && !Matches(store[id], targets, separator)
  {
    hide Copied, Unfollowed, Matches, Listing;
    var copied := Copied(targets, userFeeds, store, separator, limit).value;
    var followed := Scored(ids + Elements(copied), score);
    CopiedMatch(targets, userFeeds, store, separator, limit, targets);
    UnfollowIsExact(followed, store, targets, separator, max);
    var back := Unfollowed(followed, store, targets, separator, max).value;
    assert forall m :: m in back ==> m in ids;
    if back == Scored(ids, score) {
      forall id | id in ids ensures InTop(followed, max, id) && id in store && !Matches(store[id], targets, separator) {
        assert id in back;
      }
    }
  }

  // ---- the workers ----

  /** The item loop of both workers. */
  method CollectMatching(items: seq<Activity>, users: seq<string>, separator: string) returns (r: Result<seq<string>>)
    ensures r == var ids := Matching(items, users, separator); if ids.Some? then Ok(ids.value) else Err(TypeError)
  {
    var activityIds := [];
    for i := 0 to |items|
      invariant Matching(items[..i], users, separator) == Some(activityIds)
    {
      assert items[..i + 1][..i] == items[..i] && items[..i + 1][i] == items[i];
      var belongs := BelongsTo(items[i], users, separator);
      if belongs.None? {
        MatchingStopsAt(items, i + 1, users, separator);
        return Err(TypeError);
      }
      activityIds := activityIds + if belongs.value then [items[i].id] else [];
    }
    assert items[..|items|] == items;
    r := Ok(activityIds);
  }

  lemma {:induction false} MatchingStopsAt(items: seq<Activity>, i: nat, users: seq<string>, separator: string)
    requires i <= |items| && Matching(items[..i], users, separator).None?
    ensures Matching(items, users, separator).None?
    decreases |items|
  {
    if i == |items| {
      assert items[..i] == items;
    } else {
      assert items[..|items| - 1][..i] == items[..i];
      MatchingStopsAt(items[..|items| - 1], i, users, separator);
    }
  }

  /** Unfollowing on one feed; when it throws, the feed has been trimmed and nothing else. */
  method UnfollowOne(feed: Feed.BaseFeed, sources: seq<string>, separator: string, roll: bool) returns (r: Result<()>)
    requires feed.Valid()
    modifies feed.timeline
    ensures feed.Valid()
    ensures r.Ok? <==> Unfollowed(old(feed.timeline.z), feed.activityStorage, sources, separator, feed.maxLength).Some?
    ensures feed.timeline.z == if r.Err? then Keep(old(feed.timeline.z), feed.maxLength)
      else Unfollowed(old(feed.timeline.z), feed.activityStorage, sources, separator, feed.maxLength).value
  {
    hide Listing, Keep, Matching, Feed.BodiesOf, RedisWindow, Without;
    ghost var z0, max := feed.timeline.z, feed.maxLength;
    feed.Trim(None);
    var got := feed.GetItem(0, Some(feed.maxLength));
    WholeFeed(z0, max);
    if got.Err? || got.value.None? {
      return Err(TypeError);
    }
    var ids := CollectMatching(got.value.value, sources, separator);
    if ids.Err? {
      return Err(TypeError);
    }
    RemoveCollected(feed, ids.value, roll, z0);
    r := Ok(());
  }

  /** The removal that ends the loop body, on a feed that was just trimmed. */
  method RemoveCollected(feed: Feed.BaseFeed, ids: seq<string>, roll: bool, ghost z0: ZSet)
    requires feed.Valid() && feed.timeline.z == Keep(z0, feed.maxLength)
    modifies feed.timeline
    ensures feed.Valid() && feed.timeline.z == Without(Keep(z0, feed.maxLength), ids)
  {
    hide Keep, Sum, ZRemRangeByRank;
    if ids != [] {
      var removed := feed.RemoveMany(ids, true, roll);
      TrimAgain(z0, feed.maxLength, ids);
    } else {
      assert Without(feed.timeline.z, []) == feed.timeline.z;
    }
  }

  /** After the trim the window of `maxLength` entries is the whole feed. */
  lemma WholeFeed(z: ZSet, max: nat)
    ensures max > 0 ==> RedisWindow(Listing(Keep(z, max)), Some(0), Some(max)) == Listing(Keep(z, max))
  {
    ListingOfKeep(z, max);
    ListingSize(Keep(z, max));
  }

  /** Trimming once more after the removal has no effect. */
  lemma TrimAgain(z: ZSet, max: nat, ids: seq<string>)
    ensures ZRemRangeByRank(Without(Keep(z, max), ids), 0, -1 - max) == Without(Keep(z, max), ids)
  {
    var k := Keep(z, max);
    var w := Without(k, ids);
    TrimRanks(w, max);
    forall m | m in w ensures InTop(w, max, m) {
      PartHasFewerBetter(w, z, m);
    }
  }

  /** The worker: every feed of the user in turn. When one fails, those before it are done,
      it is trimmed, and those behind it are untouched. */
  method UnfollowMany(feeds: seq<Feed.BaseFeed>, sources: seq<string>, separator: string)
    returns (r: Result<()>, ghost done: nat)
    requires forall i :: 0 <= i < |feeds| ==> feeds[i].Valid()
    requires forall i, j :: 0 <= i < j < |feeds| ==> feeds[i].timeline != feeds[j].timeline
    modifies set i | 0 <= i < |feeds| :: feeds[i].timeline
    ensures r.Ok? <==> forall i :: 0 <= i < |feeds| ==>
      Unfollowed(old(feeds[i].timeline.z), feeds[i].activityStorage, sources, separator, feeds[i].maxLength).Some?
    ensures done <= |feeds| && (r.Ok? <==> done == |feeds|)
    ensures forall i :: 0 <= i < done ==>
      Unfollowed(old(feeds[i].timeline.z), feeds[i].activityStorage, sources, separator, feeds[i].maxLength)
      == Some(feeds[i].timeline.z)
    ensures done < |feeds| ==> feeds[done].timeline.z == Keep(old(feeds[done].timeline.z), feeds[done].maxLength)
    ensures forall i :: done < i < |feeds| ==> feeds[i].timeline.z == old(feeds[i].timeline.z)
  {
    hide Unfollowed, Keep;
    done := 0;
    for n := 0 to |feeds|
      invariant done == n && forall i :: 0 <= i < |feeds| ==> feeds[i].Valid()
      invariant forall i :: n <= i < |feeds| ==> feeds[i].timeline.z == old(feeds[i].timeline.z)
      invariant forall i :: 0 <= i < n ==>
        Unfollowed(old(feeds[i].timeline.z), feeds[i].activityStorage, sources, separator, feeds[i].maxLength)
        == Some(feeds[i].timeline.z)
    {
      var roll: bool := *;
      var one := UnfollowOne(feeds[n], sources, separator, roll);
      if one.Err? {
        return Err(TypeError), n;
      }
      done := n + 1;
    }
    r := Ok(());
  }

  lemma {:induction false} CopiedStopsAt(targets: seq<string>, i: nat, userFeeds: map<string, ZSet>, store: Hydration.Store,
                                         separator: string, limit: nat)
    requires i <= |targets| && Copied(targets[..i], userFeeds, store, separator, limit).None?
    ensures Copied(targets, userFeeds, store, separator, limit).None?
    decreases |targets|
  {
    hide Matching, Listing;
    if i == |targets| {
      assert targets[..i] == targets;
    } else {
      assert targets[..|targets| - 1][..i] == targets[..i];
      CopiedStopsAt(targets[..|targets| - 1], i, userFeeds, store, separator, limit);
    }
  }

  lemma CopiedSnoc(targets: seq<string>, i: nat, userFeeds: map<string, ZSet>, store: Hydration.Store, separator: string,
                   limit: nat)
    requires i < |targets| && targets[i] in userFeeds
    ensures var rest := Copied(targets[..i], userFeeds, store, separator, limit);
      var items := Feed.BodiesOf(RedisWindow(Listing(userFeeds[targets[i]]), Some(0), Some(limit)), store);
      Copied(targets[..i + 1], userFeeds, store, separator, limit) ==
      if rest.None? || items.None? || limit == 0 || Matching(items.value, [targets[i]], separator).None? then None
      else Some(rest.value + Matching(items.value, [targets[i]], separator).value)
  {
    hide Matching, Listing;
    var seen := targets[..i + 1];
    assert seen[..i] == targets[..i] && seen[i] == targets[i];
  }

  /** The first loop of the follow worker: reads each target's user feed in turn. */
  method CollectFromAll(targets: seq<string>, targetFeeds: seq<Feed.BaseFeed>, separator: string, limit: nat,
                        ghost userFeeds: map<string, ZSet>, ghost store: Hydration.Store)
    returns (r: Result<seq<string>>)
    requires |targetFeeds| == |targets|
    requires forall i :: 0 <= i < |targets| ==>
      targetFeeds[i].Valid() && targetFeeds[i].activityStorage == store &&
      targets[i] in userFeeds && userFeeds[targets[i]] == targetFeeds[i].timeline.z
    ensures r == var copied := Copied(targets, userFeeds, store, separator, limit);
                 if copied.Some? then Ok(copied.value) else Err(TypeError)
  {
    hide Copied, Matching, Listing;
    var activities := [];
    assert Copied(targets[..0], userFeeds, store, separator, limit) == Some([]) by {
      NothingCopied(userFeeds, store, separator, limit);
      assert targets[..0] == [];
    }
    for i := 0 to |targets|
      invariant Copied(targets[..i], userFeeds, store, separator, limit) == Some(activities)
    {
      CopiedSnoc(targets, i, userFeeds, store, separator, limit);
      var items := targetFeeds[i].GetItem(0, Some(limit));
      if items.Err? || items.value.None? {
        CopiedStopsAt(targets, i + 1, userFeeds, store, separator, limit);
        return Err(TypeError);
      }
      var ids := CollectMatching(items.value.value, [targets[i]], separator);
      if ids.Err? {
        CopiedStopsAt(targets, i + 1, userFeeds, store, separator, limit);
        return Err(TypeError);
      }
      activities := activities + ids.value;
    }
    assert targets[..|targets|] == targets;
    r := Ok(activities);
  }

  lemma NothingCopied(userFeeds: map<string, ZSet>, store: Hydration.Store, separator: string, limit: nat)
    ensures Copied([], userFeeds, store, separator, limit) == Some([])
  {
  }

  /** A feed after `ids` were added, with or without the trim the dice may have asked for. */
  ghost predicate GotAdded(before: ZSet, after: ZSet, ids: seq<string>, score: Scoring, max: nat) {
    var added := ZAdd(before, ScoredPairs(ids, score));
    after == added || after == Keep(added, max)
  }

  /** Then it holds nothing but what it held and what was added, and of that at least the
      best `max`. */
  lemma GotAddedHolds(before: ZSet, after: ZSet, ids: seq<string>, score: Scoring, max: nat, m: string)
    requires GotAdded(before, after, ids, score, max)
    ensures m in after ==> m in before || m in ids
    ensures (m in before || m in ids) && |Better(ZAdd(before, ScoredPairs(ids, score)), m)| < max ==> m in after
    ensures m in after && m in ids ==> after[m] == score(m)
  {
    hide Better;
    StepKeeps(before, Op.Add(ids), score, m);
    if m in ids {
      AddedScore(before, ids, score, m);
    }
  }

  lemma {:induction false} AddedScore(z: ZSet, ids: seq<string>, score: Scoring, m: string)
    requires m in ids
    ensures var added := ZAdd(z, ScoredPairs(ids, score)); m in added && added[m] == score(m)
    decreases |ids|
  {
    var pairs, z' := ScoredPairs(ids, score), z[ids[0] := score(ids[0])];
    assert pairs[1..] == ScoredPairs(ids[1..], score);
    if m in ids[1..] {
      AddedScore(z', ids[1..], score, m);
    } else {
      assert ids == [ids[0]] + ids[1..];
      NotAddedScore(z', ids[1..], score, m);
    }
  }

  lemma {:induction false} NotAddedScore(z: ZSet, ids: seq<string>, score: Scoring, m: string)
    requires m in z && m !in ids
    ensures var added := ZAdd(z, ScoredPairs(ids, score)); m in added && added[m] == z[m]
    decreases |ids|
  {
    if ids != [] {
      assert ScoredPairs(ids, score)[1..] == ScoredPairs(ids[1..], score);
      NotAddedScore(z[ids[0] := score(ids[0])], ids[1..], score, m);
    }
  }

  /** The worker: what it collects goes into every feed of the user, or, when it throws,
      nowhere. */
  method FollowMany(feeds: seq<Feed.BaseFeed>, targets: seq<string>, targetFeeds: seq<Feed.BaseFeed>, separator: string,
                    limit: nat, ghost userFeeds: map<string, ZSet>, ghost store: Hydration.Store)
    returns (r: Result<()>)
    requires forall i :: 0 <= i < |feeds| ==> feeds[i].Valid()
    requires forall i, j :: 0 <= i < j < |feeds| ==> feeds[i].timeline != feeds[j].timeline
    requires |targetFeeds| == |targets|
    requires forall i :: 0 <= i < |targets| ==>
      targetFeeds[i].Valid() && targetFeeds[i].activityStorage == store &&
      targets[i] in userFeeds && userFeeds[targets[i]] == targetFeeds[i].timeline.z
    modifies set i | 0 <= i < |feeds| :: feeds[i].timeline
    ensures r.Ok? <==> Copied(targets, userFeeds, store, separator, limit).Some?
    ensures r.Err? ==> forall i :: 0 <= i < |feeds| ==> feeds[i].timeline.z == old(feeds[i].timeline.z)
    ensures r.Ok? ==> forall i :: 0 <= i < |feeds| ==>
      GotAdded(old(feeds[i].timeline.z), feeds[i].timeline.z, Copied(targets, userFeeds, store, separator, limit).value,
               feeds[i].score, feeds[i].maxLength)
  {
    hide Copied, GotAdded;
    var activities := CollectFromAll(targets, targetFeeds, separator, limit, userFeeds, store);
    if activities.Err? {
      return Err(TypeError);
    }
    var ids := activities.value;
    for n := 0 to |feeds|
      invariant forall i :: 0 <= i < |feeds| ==> feeds[i].Valid()
      invariant forall i :: n <= i < |feeds| ==> feeds[i].timeline.z == old(feeds[i].timeline.z)
      invariant forall i :: 0 <= i < n ==>
        GotAdded(old(feeds[i].timeline.z), feeds[i].timeline.z, ids, feeds[i].score, feeds[i].maxLength)
    {
      AddToOne(feeds[n], ids);
    }
    r := Ok(());
  }

  /** One feed of the user, the dice deciding about the trim. */
  method AddToOne(feed: Feed.BaseFeed, ids: seq<string>)
    requires feed.Valid()
    modifies feed.timeline
    ensures feed.Valid()
    ensures GotAdded(old(feed.timeline.z), feed.timeline.z, ids, feed.score, feed.maxLength)
  {
    hide Keep, ZAdd, ZRemRangeByRank, Sum;
    var roll: bool := *;
    ghost var added := ZAdd(feed.timeline.z, ScoredPairs(ids, feed.score));
    TrimRanks(added, feed.maxLength);
    var created := feed.AddMany(ids, true, roll);
  }
}
