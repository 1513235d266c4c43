/** src/aggregators/base/BaseAggregator.ts and recentRank.ts:
    grouping a batch of activities, and merging it into aggregates that exist already. */
module Aggregator {
  import opened Results
  import opened Ids
  import opened Activities
  import opened Aggregates
  import opened Sorting

  /** The abstract `getGroup`. */
  type Grouping = Activity -> string

  type Groups = map<string, Agg>

  // ---- orders ----

  function LaterId(a: Activity, b: Activity): bool { Less(b.id, a.id) }

  /** Ascending by update time: the code's order, although its comment says reversed. */
  function LaterUpdate(a: Agg, b: Agg): bool { UpdateTime(a) > UpdateTime(b) }

  function SortById(xs: seq<Activity>): seq<Activity> { SortBy(xs, LaterId) }

  lemma LaterIdIsConsistent()
    ensures Consistent(LaterId)
  {
    forall a, b | LaterId(a, b) ensures !LaterId(b, a) {
      if LaterId(b, a) {
        LessIsTransitive(a.id, b.id, a.id);
        LessIsIrreflexive(a.id);
      }
    }
    forall a, b, c | !LaterId(a, b) && !LaterId(b, c) ensures !LaterId(a, c) {
      LessIsTotal(b.id, c.id);
      if LaterId(a, c) && b.id != c.id {
        LessIsTransitive(b.id, c.id, a.id);
      }
    }
  }

  /** Of two dated aggregates the one updated earlier comes first. */
  ghost predicate OldestFirst(s: seq<Agg>) {
    forall i, j :: 0 <= i < j < |s| && s[i].updatedAt.Some? && s[j].updatedAt.Some? ==>
      s[i].updatedAt.value <= s[j].updatedAt.value
  }

  /** `rank`, in the caller's array. */
  method Rank(aggregated: array<Agg>)
    modifies aggregated
    ensures aggregated[..] == SortBy(old(aggregated[..]), LaterUpdate)
    ensures OldestFirst(aggregated[..]) && multiset(aggregated[..]) == multiset(old(aggregated[..]))
  {
    SortOrders(aggregated[..], LaterUpdate);
    SortPermutes(aggregated[..], LaterUpdate);
    SortInPlace(aggregated, LaterUpdate);
  }

  // ---- grouping ----

  function InGroup(s: seq<Activity>, g: string, groupOf: Grouping): seq<Activity> {
    if s == [] then []
    else InGroup(s[..|s| - 1], g, groupOf) + (if groupOf(s[|s| - 1]) == g then [s[|s| - 1]] else [])
  }

  function Current(m: Groups, g: string): Agg { if g in m then m[g] else New(g) }

  function GroupFold(s: seq<Activity>, groupOf: Grouping): Result<Groups> {
    if s == [] then Ok(map[])
    else
      var r, x := GroupFold(s[..|s| - 1], groupOf), s[|s| - 1];
      if r.Err? then r
      else
        var a := Appended(Current(r.value, groupOf(x)), x);
        if a.Err? then Err(a.error) else Ok(r.value[groupOf(x) := a.value])
  }

  function Named(s: seq<Activity>, groupOf: Grouping): set<string> {
    set i | 0 <= i < |s| :: groupOf(s[i])
  }

  /** Aggregating from scratch: what every group amounts to. */
  function GroupMap(s: seq<Activity>, groupOf: Grouping): Groups {
    map g | g in Named(s, groupOf) :: Grown(New(g), InGroup(s, g, groupOf))
  }

  lemma {:induction false} InGroupMembers(s: seq<Activity>, g: string, groupOf: Grouping)
    ensures forall x :: x in InGroup(s, g, groupOf) <==> x in s && groupOf(x) == g
  {
    if s != [] {
      var rest, x := s[..|s| - 1], s[|s| - 1];
      InGroupMembers(rest, g, groupOf);
      assert s == rest + [x];
    }
  }

  lemma {:induction false} InGroupIsDistinct(s: seq<Activity>, g: string, groupOf: Grouping)
    requires DistinctIds(s)
    ensures DistinctIds(InGroup(s, g, groupOf))
  {
    if s != [] {
      var rest, x := s[..|s| - 1], s[|s| - 1];
      assert s == rest + [x];
      DistinctPrefix(rest, [x]);
      InGroupIsDistinct(rest, g, groupOf);
      InGroupMembers(rest, g, groupOf);
      assert forall y :: y in rest ==> y.id != x.id by {
        assert forall k :: 0 <= k < |rest| ==> rest[k] == s[k] && s[k].id != x.id;
      }
    }
  }

  lemma InGroupProperties(s: seq<Activity>, g: string, groupOf: Grouping)
    ensures forall x :: x in InGroup(s, g, groupOf) <==> x in s && groupOf(x) == g
    ensures InGroup(s, g, groupOf) == [] <==> g !in Named(s, groupOf)
    ensures DistinctIds(s) ==> DistinctIds(InGroup(s, g, groupOf))
  {
    InGroupMembers(s, g, groupOf);
    var t := InGroup(s, g, groupOf);
    if t != [] {
      assert t[0] in s;
    }
    if g in Named(s, groupOf) {
      var i :| 0 <= i < |s| && groupOf(s[i]) == g;
      assert s[i] in t;
    }
    if DistinctIds(s) {
      InGroupIsDistinct(s, g, groupOf);
    }
  }

  lemma {:induction false} InGroupConcat(a: seq<Activity>, b: seq<Activity>, g: string, groupOf: Grouping)
    ensures InGroup(a + b, g, groupOf) == InGroup(a, g, groupOf) + InGroup(b, g, groupOf)
    decreases |b|
  {
    if b == [] {
      assert a + b == a;
    } else {
      assert (a + b)[..|a + b| - 1] == a + b[..|b| - 1];
      InGroupConcat(a, b[..|b| - 1], g, groupOf);
    }
  }

  lemma NamedConcat(a: seq<Activity>, b: seq<Activity>, groupOf: Grouping)
    ensures Named(a + b, groupOf) == Named(a, groupOf) + Named(b, groupOf)
  {
    var s := a + b;
    forall i | 0 <= i < |s| ensures groupOf(s[i]) in Named(a, groupOf) + Named(b, groupOf) {
      assert s[i] == if i < |a| then a[i] else b[i - |a|];
    }
    forall g | g in Named(a, groupOf) + Named(b, groupOf) ensures g in Named(s, groupOf) {
      if i :| 0 <= i < |a| && groupOf(a[i]) == g {
        assert s[i] == a[i];
      } else {
        var i :| 0 <= i < |b| && groupOf(b[i]) == g;
        assert s[|a| + i] == b[i];
      }
    }
  }

  /** Without repeated ids grouping never throws, and gives every group its own activities. */
  lemma {:induction false} GroupFoldIsGroupMap(s: seq<Activity>, groupOf: Grouping)
    requires DistinctIds(s)
    ensures GroupFold(s, groupOf) == Ok(GroupMap(s, groupOf))
  {
    if s == [] {
      assert GroupMap(s, groupOf) == map[];
    } else {
      var rest, x := s[..|s| - 1], s[|s| - 1];
      assert s == rest + [x];
      DistinctPrefix(rest, [x]);
      GroupFoldIsGroupMap(rest, groupOf);
      GroupMapStep(rest, x, groupOf);
    }
  }

  lemma InGroupSnoc(rest: seq<Activity>, x: Activity, g: string, groupOf: Grouping)
    ensures InGroup(rest + [x], g, groupOf)
         == if groupOf(x) == g then InGroup(rest, g, groupOf) + [x] else InGroup(rest, g, groupOf)
  {
    assert (rest + [x])[..|rest|] == rest;
  }

  lemma CurrentIsGrown(rest: seq<Activity>, g: string, groupOf: Grouping)
    ensures Current(GroupMap(rest, groupOf), g) == Grown(New(g), InGroup(rest, g, groupOf))
  {
    InGroupProperties(rest, g, groupOf);
    GrownNothing(g);
  }

  lemma GroupStep(rest: seq<Activity>, x: Activity, groupOf: Grouping)
    requires DistinctIds(rest + [x])
    ensures Appended(Current(GroupMap(rest, groupOf), groupOf(x)), x)
         == Ok(Grown(New(groupOf(x)), InGroup(rest + [x], groupOf(x), groupOf)))
  {
    var g := groupOf(x);
    var t := InGroup(rest, g, groupOf);
    CurrentIsGrown(rest, g, groupOf);
    InGroupSnoc(rest, x, g, groupOf);
    InGroupProperties(rest + [x], g, groupOf);
    NewStep(g, t, x);
  }

  lemma NewStep(g: string, t: seq<Activity>, x: Activity)
    requires DistinctIds(t + [x])
    ensures Appended(Grown(New(g), t), x) == Ok(Grown(New(g), t + [x]))
  {
    FreshId(t, x, Cap(|t|));
    assert New(g).activities + t == t;
    GrownStep(New(g), t, x);
  }

  lemma NamedOne(x: Activity, groupOf: Grouping)
    ensures Named([x], groupOf) == {groupOf(x)}
  {
    assert [x][0] == x;
  }

  lemma GroupMapStep(rest: seq<Activity>, x: Activity, groupOf: Grouping)
    requires DistinctIds(rest + [x])
    ensures var g := groupOf(x);
            var a := Appended(Current(GroupMap(rest, groupOf), g), x);
            a.Ok? && GroupMap(rest + [x], groupOf) == GroupMap(rest, groupOf)[g := a.value]
  {
    hide Appended, Grown, InGroup, Named, DistinctIds;
    var g, m, m' := groupOf(x), GroupMap(rest, groupOf), GroupMap(rest + [x], groupOf);
    GroupStep(rest, x, groupOf);
    NamedConcat(rest, [x], groupOf);
    NamedOne(x, groupOf);
    var a := Appended(Current(m, g), x);
    forall h | h in m' ensures m'[h] == m[g := a.value][h] {
      InGroupSnoc(rest, x, h, groupOf);
    }
    assert m'.Keys == m[g := a.value].Keys;
  }

  // ---- merging ----

  datatype Diff = Diff(latest: Groups, changed: Groups)

  predicate Mergeable(cur: Groups, new_: Groups) {
    forall g :: g in cur && g in new_ ==> AppendAll(cur[g], new_[g].activities).Ok?
  }

  /** A group met for the first time is new; an existing one gets a copy with the retained
      new activities appended. */
  function DiffOf(cur: Groups, new_: Groups): Diff
    requires Mergeable(cur, new_)
  {
    Diff(map g | g in new_ && g !in cur :: new_[g],
         map g | g in new_ && g in cur :: AppendAll(cur[g], new_[g].activities).value)
  }

  /** Throws when an id is repeated, within the batch or against a retained activity. */
  function MergeMap(cur: Groups, ys: seq<Activity>, groupOf: Grouping): Result<Diff> {
    var r := GroupFold(SortById(ys), groupOf);
    if r.Err? || !Mergeable(cur, r.value) then Err(DuplicateActivity) else Ok(DiffOf(cur, r.value))
  }

  function Apply(cur: Groups, d: Diff): Groups { cur + d.latest + d.changed }

  // ---- incremental merging against aggregating from scratch ----

  predicate Precede(xs: seq<Activity>, ys: seq<Activity>) {
    forall i, j :: 0 <= i < |xs| && 0 <= j < |ys| ==> Less(xs[i].id, ys[j].id)
  }

  lemma SortedDistinct(xs: seq<Activity>)
    requires DistinctIds(xs)
    ensures DistinctIds(SortById(xs)) && InOrder(SortById(xs), LaterId) && multiset(SortById(xs)) == multiset(xs)
    ensures NoTies(SortById(xs), LaterId)
  {
    var s := SortById(xs);
    LaterIdIsConsistent();
    SortOrders(xs, LaterId);
    SortPermutes(xs, LaterId);
    forall i, j | 0 <= i < j < |s| ensures s[i].id != s[j].id {
      if s[i].id == s[j].id {
        DistinctOnce(xs, s[i], s[j]);
        TwiceInMultiset(s, i, j);
        OnceInMultiset(xs, s[i]);
        assert false;
      }
    }
    forall i, j | 0 <= i < |s| && 0 <= j < |s| && s[i] != s[j]
      ensures LaterId(s[i], s[j]) || LaterId(s[j], s[i])
    {
      LessIsTotal(s[i].id, s[j].id);
    }
  }

  lemma DistinctOnce(xs: seq<Activity>, a: Activity, b: Activity)
    requires DistinctIds(xs) && a in multiset(xs) && b in multiset(xs) && a.id == b.id
    ensures a == b
  {
    var i :| 0 <= i < |xs| && xs[i] == a;
    var j :| 0 <= j < |xs| && xs[j] == b;
  }

  lemma TwiceInMultiset(s: seq<Activity>, i: nat, j: nat)
    requires i < j < |s| && s[i] == s[j]
    ensures multiset(s)[s[i]] >= 2
  {
    assert s == s[..i] + [s[i]] + s[i + 1..j] + [s[j]] + s[j + 1..];
  }

  lemma OnceInMultiset(xs: seq<Activity>, a: Activity)
    requires DistinctIds(xs)
    ensures multiset(xs)[a] <= 1
  {
    if a in xs {
      var i :| 0 <= i < |xs| && xs[i] == a;
      assert xs == xs[..i] + [a] + xs[i + 1..];
      assert a !in xs[..i] && a !in xs[i + 1..];
    }
  }

  lemma SortConcat(xs: seq<Activity>, ys: seq<Activity>)
    requires DistinctIds(xs + ys) && Precede(xs, ys)
    ensures SortById(xs + ys) == SortById(xs) + SortById(ys)
  {
    DistinctPrefix(xs, ys);
    SortedDistinct(xs);
    SortedDistinct(ys);
    SortedDistinct(xs + ys);
    hide SortById;
    var a, b := SortById(xs), SortById(ys);
    LaterBehind(xs, ys, a, b);
    OrderedIsUnique(SortById(xs + ys), a + b, LaterId);
  }

  lemma LaterBehind(xs: seq<Activity>, ys: seq<Activity>, a: seq<Activity>, b: seq<Activity>)
    requires Precede(xs, ys) && multiset(a) == multiset(xs) && multiset(b) == multiset(ys)
    requires InOrder(a, LaterId) && InOrder(b, LaterId)
    ensures InOrder(a + b, LaterId)
  {
    hide Less;
    LaterIdIsConsistent();
    var all := a + b;
    forall i, j | 0 <= i < j < |all| ensures !LaterId(all[i], all[j]) {
      if i < |a| <= j {
        assert all[i] in multiset(xs) && all[j] in multiset(ys);
        assert LaterId(all[j], all[i]);
      }
    }
  }

  /** How many activities of a batch fall into a group does not depend on their order. */
  lemma {:induction false} GroupSizeOfSorted(xs: seq<Activity>, g: string, groupOf: Grouping)
    ensures |InGroup(SortById(xs), g, groupOf)| == |InGroup(xs, g, groupOf)|
  {
    if xs != [] {
      var rest, x := SortById(xs[..|xs| - 1]), xs[|xs| - 1];
      GroupSizeOfSorted(xs[..|xs| - 1], g, groupOf);
      var i := PlaceFor(rest, x, LaterId);
      InGroupConcat(rest[..i] + [x], rest[i..], g, groupOf);
      InGroupConcat(rest[..i], [x], g, groupOf);
      InGroupConcat(rest[..i], rest[i..], g, groupOf);
      assert rest == rest[..i] + rest[i..];
      assert InGroup([x], g, groupOf) == [] + if groupOf(x) == g then [x] else [];
    }
  }

  lemma DistinctKept(old_: seq<Activity>, new_: seq<Activity>, m: nat, n: nat)
    requires DistinctIds(old_ + new_) && m <= |old_| && n <= |new_|
    ensures DistinctIds(old_[..m] + new_[..n])
  {
    var s := old_[..m] + new_[..n];
    forall i, j | 0 <= i < j < |s| ensures s[i].id != s[j].id {
      assert s[i] == (old_ + new_)[if i < m then i else i - m + |old_|];
      assert s[j] == (old_ + new_)[if j < m then j else j - m + |old_|];
    }
  }

  lemma GrownFromNew(g: string, xs: seq<Activity>)
    ensures Grown(New(g), xs).activities == xs[..Cap(|xs|)]
    ensures Grown(New(g), xs).minimized == |xs| - Cap(|xs|)
  {
    assert [] + xs == xs;
  }

  /** One group, merged and from scratch. */
  lemma MergedGroup(g: string, old_: seq<Activity>, new_: seq<Activity>)
    requires old_ != [] && DistinctIds(old_ + new_)
    ensures AppendAll(Grown(New(g), old_), Grown(New(g), new_).activities).Ok?
    ensures AppendAll(Grown(New(g), old_), Grown(New(g), new_).activities).value == Grown(New(g), old_ + new_)
       <==> |new_| <= MAX_AGGREGATED_ACTIVITIES_LENGTH
  {
    var cur, kept := Grown(New(g), old_), new_[..Cap(|new_|)];
    GrownFromNew(g, old_);
    GrownFromNew(g, new_);
    DistinctKept(old_, new_, Cap(|old_|), Cap(|new_|));
    AppendAllGrows(cur, kept);
    GrownTwice(New(g), old_, kept);
    GrownFromNew(g, old_ + kept);
    GrownFromNew(g, old_ + new_);
    assert |new_| <= MAX_AGGREGATED_ACTIVITIES_LENGTH ==> kept == new_;
  }

  /** Merging a later batch into the aggregates of an earlier one gives, group by group,
      what aggregating everything at once gives, exactly when the batch puts at most 15
      activities into each group that exists already: `merge` only sees the retained ones. */
  lemma IncrementalIff(xs: seq<Activity>, ys: seq<Activity>, groupOf: Grouping)
    requires DistinctIds(xs + ys) && Precede(xs, ys)
    ensures GroupFold(SortById(xs), groupOf) == Ok(GroupMap(SortById(xs), groupOf))
    ensures GroupFold(SortById(xs + ys), groupOf) == Ok(GroupMap(SortById(xs + ys), groupOf))
    ensures var cur := GroupMap(SortById(xs), groupOf);
            var d := MergeMap(cur, ys, groupOf);
            d.Ok? &&
            (Apply(cur, d.value) == GroupMap(SortById(xs + ys), groupOf)
             <==> forall g :: g in cur ==> |InGroup(ys, g, groupOf)| <= MAX_AGGREGATED_ACTIVITIES_LENGTH)
  {
    var a, b := SortById(xs), SortById(ys);
    DistinctPrefix(xs, ys);
    SortedDistinct(xs);
    SortedDistinct(ys);
    SortedDistinct(xs + ys);
    SortConcat(xs, ys);
    GroupFoldIsGroupMap(a, groupOf);
    GroupFoldIsGroupMap(b, groupOf);
    GroupFoldIsGroupMap(a + b, groupOf);
    MergeOfSorted(a, b, groupOf);
    MergeIsDiff(GroupMap(a, groupOf), ys, GroupMap(b, groupOf), groupOf);
    hide GroupFold, GroupMap, InGroup, Mergeable, DiffOf, Apply, MergeMap, SortById, DistinctIds, Precede;
    forall g ensures |InGroup(ys, g, groupOf)| == |InGroup(b, g, groupOf)| {
      GroupSizeOfSorted(ys, g, groupOf);
    }
  }

  lemma MergeIsDiff(cur: Groups, ys: seq<Activity>, new_: Groups, groupOf: Grouping)
    requires GroupFold(SortById(ys), groupOf) == Ok(new_) && Mergeable(cur, new_)
    ensures MergeMap(cur, ys, groupOf) == Ok(DiffOf(cur, new_))
  {
  }

  lemma MergeOfSorted(a: seq<Activity>, b: seq<Activity>, groupOf: Grouping)
    requires DistinctIds(a + b)
    ensures var cur, new_ := GroupMap(a, groupOf), GroupMap(b, groupOf);
            Mergeable(cur, new_) &&
            (Apply(cur, DiffOf(cur, new_)) == GroupMap(a + b, groupOf)
             <==> forall g :: g in cur ==> |InGroup(b, g, groupOf)| <= MAX_AGGREGATED_ACTIVITIES_LENGTH)
  {
    var cur, new_, all := GroupMap(a, groupOf), GroupMap(b, groupOf), GroupMap(a + b, groupOf);
    NamedConcat(a, b, groupOf);
    forall g | g in all ensures Agrees(a, b, g, groupOf) {
      GroupOfConcat(a, b, g, groupOf);
    }
    AppliedIff(cur, new_, all);
  }

  /** What merging makes of one group of two sorted batches. */
  ghost predicate Agrees(a: seq<Activity>, b: seq<Activity>, g: string, groupOf: Grouping) {
    var cur, new_, all := GroupMap(a, groupOf), GroupMap(b, groupOf), GroupMap(a + b, groupOf);
    g in all &&
    (g in cur && g in new_ ==>
       AppendAll(cur[g], new_[g].activities).Ok? &&
       (AppendAll(cur[g], new_[g].activities).value == all[g]
        <==> |InGroup(b, g, groupOf)| <= MAX_AGGREGATED_ACTIVITIES_LENGTH)) &&
    (g in cur && g !in new_ ==> cur[g] == all[g] && |InGroup(b, g, groupOf)| == 0) &&
    (g !in cur ==> g in new_ && new_[g] == all[g])
  }

  lemma GroupOfConcat(a: seq<Activity>, b: seq<Activity>, g: string, groupOf: Grouping)
    requires DistinctIds(a + b) && g in Named(a + b, groupOf)
    ensures Agrees(a, b, g, groupOf)
  {
    NamedConcat(a, b, groupOf);
    InGroupConcat(a, b, g, groupOf);
    InGroupProperties(a, g, groupOf);
    InGroupProperties(b, g, groupOf);
    InGroupProperties(a + b, g, groupOf);
    var old_, new_ := InGroup(a, g, groupOf), InGroup(b, g, groupOf);
    if old_ == [] {
      assert old_ + new_ == new_;
    } else {
      assert new_ == [] ==> old_ + new_ == old_;
      MergedGroup(g, old_, new_);
    }
  }

  lemma AppliedIff(cur: Groups, new_: Groups, all: Groups)
    requires all.Keys == cur.Keys + new_.Keys && Mergeable(cur, new_)
    requires forall g :: g in cur && g !in new_ ==> cur[g] == all[g]
    requires forall g :: g in new_ && g !in cur ==> new_[g] == all[g]
    ensures Apply(cur, DiffOf(cur, new_)) == all
       <==> forall g :: g in cur && g in new_ ==> AppendAll(cur[g], new_[g].activities).value == all[g]
  {
    hide AppendAll;
    var r := Apply(cur, DiffOf(cur, new_));
    forall g | g in all
      ensures g in r
      ensures r[g] == if g in cur && g in new_ then AppendAll(cur[g], new_[g].activities).value else all[g]
    {
    }
    assert r.Keys == all.Keys;
    hide Apply, DiffOf;
    if forall g :: g in cur && g in new_ ==> AppendAll(cur[g], new_[g].activities).value == all[g] {
      forall g | g in all ensures r[g] == all[g] {
      }
    }
  }

  // ---- any split of a sorted stream ----

  function Flatten(batches: seq<seq<Activity>>): seq<Activity> {
    if batches == [] then [] else Flatten(batches[..|batches| - 1]) + batches[|batches| - 1]
  }

  function MergeBatches(batches: seq<seq<Activity>>, groupOf: Grouping): Result<Groups> {
    if batches == [] then Ok(map[])
    else
      var r := MergeBatches(batches[..|batches| - 1], groupOf);
      if r.Err? then r
      else
        var d := MergeMap(r.value, batches[|batches| - 1], groupOf);
        if d.Err? then Err(d.error) else Ok(Apply(r.value, d.value))
  }

  ghost predicate SmallBatches(batches: seq<seq<Activity>>, groupOf: Grouping) {
    forall i, g :: 0 <= i < |batches| ==> |InGroup(batches[i], g, groupOf)| <= MAX_AGGREGATED_ACTIVITIES_LENGTH
  }

  ghost predicate Ascending(s: seq<Activity>) {
    forall i, j :: 0 <= i < j < |s| ==> Less(s[i].id, s[j].id)
  }

  /** However a sorted stream is cut into batches of at most 15 activities a group, merging
      them one by one gives the aggregates of the whole stream. */
  lemma {:induction false} AnySplitGivesOneResult(batches: seq<seq<Activity>>, groupOf: Grouping)
    requires Ascending(Flatten(batches)) && SmallBatches(batches, groupOf)
    ensures MergeBatches(batches, groupOf) == Ok(GroupMap(SortById(Flatten(batches)), groupOf))
  {
    if batches == [] {
      assert Named([], groupOf) == {};
    } else {
      var rest, ys := batches[..|batches| - 1], batches[|batches| - 1];
      var xs := Flatten(rest);
      AscendingParts(xs, ys);
      AnySplitGivesOneResult(rest, groupOf);
      IncrementalIff(xs, ys, groupOf);
    }
  }

  lemma AscendingParts(xs: seq<Activity>, ys: seq<Activity>)
    requires Ascending(xs + ys)
    ensures Ascending(xs) && Precede(xs, ys) && DistinctIds(xs + ys)
  {
    var s := xs + ys;
    forall i, j | 0 <= i < j < |s| ensures s[i].id != s[j].id {
      LessIsIrreflexive(s[i].id);
    }
    assert forall i :: 0 <= i < |xs| ==> s[i] == xs[i];
    forall i, j | 0 <= i < |xs| && 0 <= j < |ys| ensures Less(xs[i].id, ys[j].id) {
      assert s[i] == xs[i] && s[|xs| + j] == ys[j];
    }
  }

  // ---- the methods ----

  /** `s` lists the values of `m`, each group once. */
  ghost predicate Lists(s: seq<Agg>, m: Groups) {
    (forall i :: 0 <= i < |s| ==> s[i].group in m && m[s[i].group] == s[i]) &&
    (forall g :: g in m ==> exists i :: 0 <= i < |s| && s[i].group == g) &&
    forall i, j :: 0 <= i < j < |s| ==> s[i].group != s[j].group
  }

  ghost predicate Keyed(m: Groups) { forall g :: g in m ==> m[g].group == g }

  lemma {:induction false} GroupFoldIsKeyed(s: seq<Activity>, groupOf: Grouping)
    ensures GroupFold(s, groupOf).Ok? ==> Keyed(GroupFold(s, groupOf).value)
  {
    if s != [] {
      GroupFoldIsKeyed(s[..|s| - 1], groupOf);
    }
  }

  lemma {:induction false} GroupFoldStopsAt(s: seq<Activity>, i: nat, groupOf: Grouping)
    requires i <= |s| && GroupFold(s[..i], groupOf).Err?
    ensures GroupFold(s, groupOf).Err?
    decreases |s|
  {
    if i == |s| {
      assert s[..i] == s;
    } else {
      assert s[..|s| - 1][..i] == s[..i];
      GroupFoldStopsAt(s[..|s| - 1], i, groupOf);
    }
  }

  lemma {:induction false} AppendAllStopsAt(a: Agg, xs: seq<Activity>, i: nat)
    requires i <= |xs| && AppendAll(a, xs[..i]).Err?
    ensures AppendAll(a, xs).Err?
    decreases |xs|
  {
    if i == |xs| {
      assert xs[..i] == xs;
    } else {
      assert xs[..|xs| - 1][..i] == xs[..i];
      AppendAllStopsAt(a, xs[..|xs| - 1], i);
    }
  }

  /** The keys of the dictionary, each once. */
  ghost predicate ListsKeys(keys: seq<string>, m: Groups) {
    (forall g :: g in m <==> g in keys) && forall i, j :: 0 <= i < j < |keys| ==> keys[i] != keys[j]
  }

  lemma NothingGrouped(groupOf: Grouping)
    ensures GroupFold([], groupOf) == Ok(map[])
  {
  }

  lemma OneKeyMore(keys: seq<string>, m: Groups, g: string, a: Agg)
    requires ListsKeys(keys, m)
    ensures ListsKeys(if g in m then keys else keys + [g], m[g := a])
  {
  }

  lemma GroupFoldSnoc(s: seq<Activity>, i: nat, groupOf: Grouping, m: Groups)
    requires i < |s| && GroupFold(s[..i], groupOf) == Ok(m)
    ensures var grown := Appended(Current(m, groupOf(s[i])), s[i]);
      GroupFold(s[..i + 1], groupOf) == if grown.Err? then Err(DuplicateActivity) else Ok(m[groupOf(s[i]) := grown.value])
  {
    assert s[..i + 1][..i] == s[..i] && s[..i + 1][i] == s[i];
  }

  /** Sorts the caller's list, then fills a dictionary; `keys` is its key order. */
  method GroupActivities(activities: array<Activity>, groupOf: Grouping)
    returns (r: Result<Groups>, keys: seq<string>)
    modifies activities
    ensures activities[..] == SortById(old(activities[..]))
    ensures r == if GroupFold(SortById(old(activities[..])), groupOf).Err? then Err(DuplicateActivity)
                 else GroupFold(SortById(old(activities[..])), groupOf)
    ensures r.Ok? ==> (forall g :: g in r.value <==> g in keys)
                      && forall i, j :: 0 <= i < j < |keys| ==> keys[i] != keys[j]
  {
    SortInPlace(activities, LaterId);
    hide Appended, Current, SortById, GroupFold;
    ghost var sorted := activities[..];
    var aggregates: Groups := map[];
    keys := [];
    assert GroupFold(sorted[..0], groupOf) == Ok(aggregates) by {
      NothingGrouped(groupOf);
      assert sorted[..0] == [];
    }
    for i := 0 to activities.Length
      invariant activities[..] == sorted
      invariant GroupFold(sorted[..i], groupOf) == Ok(aggregates)
      invariant ListsKeys(keys, aggregates)
    {
      var activity := activities[i];
      var group := groupOf(activity);
      GroupFoldSnoc(sorted, i, groupOf, aggregates);
      if group !in aggregates {
        keys := keys + [group];
      }
      var grown := Appended(Current(aggregates, group), activity);
      if grown.Err? {
        GroupFoldStopsAt(sorted, i + 1, groupOf);
        return Err(DuplicateActivity), keys;
      }
      OneKeyMore(if group in aggregates then keys else keys[..|keys| - 1], aggregates, group, grown.value);
      aggregates := aggregates[group := grown.value];
    }
    assert sorted[..activities.Length] == sorted;
    r := Ok(aggregates);
  }

  /** Groups and ranks. */
  method Aggregate(activities: array<Activity>, groupOf: Grouping) returns (r: Result<seq<Agg>>)
    modifies activities
    ensures r.Err? <==> GroupFold(SortById(old(activities[..])), groupOf).Err?
    ensures r.Ok? ==> Lists(r.value, GroupFold(SortById(old(activities[..])), groupOf).value)
    ensures r.Ok? ==> OldestFirst(r.value)
  {
    ghost var sorted := SortById(activities[..]);
    var groups, keys := GroupActivities(activities, groupOf);
    if groups.Err? {
      return Err(groups.error);
    }
    GroupFoldIsKeyed(sorted, groupOf);
    var values := seq(|keys|, i requires 0 <= i < |keys| && keys[i] in groups.value => groups.value[keys[i]]);
    assert forall i :: 0 <= i < |keys| ==> values[i].group == keys[i] by {
      assert forall i :: 0 <= i < |keys| ==> keys[i] in keys;
    }
    assert Lists(values, groups.value) by {
      forall g | g in groups.value ensures exists i :: 0 <= i < |values| && values[i].group == g {
        assert g in keys;
        var i :| 0 <= i < |keys| && keys[i] == g;
        assert values[i].group == g;
      }
    }
    SortOrders(values, LaterUpdate);
    RankedLists(values, groups.value);
    r := Ok(SortBy(values, LaterUpdate));
  }

  lemma RankedLists(values: seq<Agg>, m: Groups)
    requires Lists(values, m)
    ensures Lists(SortBy(values, LaterUpdate), m)
  {
    hide SortBy;
    var s := SortBy(values, LaterUpdate);
    SortPermutes(values, LaterUpdate);
    SameElements(values, s);
    forall i | 0 <= i < |s| ensures s[i] in values {
      assert s[i] in s;
    }
    forall g | g in m ensures exists i :: 0 <= i < |s| && s[i].group == g {
      var k :| 0 <= k < |values| && values[k].group == g;
      assert values[k] in s;
    }
    forall i, j | 0 <= i < j < |s| ensures s[i].group != s[j].group {
      RankedOnce(values, m, s, i, j);
    }
  }

  lemma SameElements(values: seq<Agg>, s: seq<Agg>)
    requires multiset(s) == multiset(values)
    ensures forall a :: a in s <==> a in values
  {
    assert forall a :: a in s <==> a in multiset(s);
    assert forall a :: a in values <==> a in multiset(values);
  }

  lemma RankedOnce(values: seq<Agg>, m: Groups, s: seq<Agg>, i: nat, j: nat)
    requires Lists(values, m) && multiset(s) == multiset(values) && i < j < |s|
    ensures s[i].group != s[j].group
  {
    assert s[i] in multiset(values) && s[j] in multiset(values);
    OnceListed(values, m, s[i]);
    assert s[i] == s[j] ==> multiset(s)[s[i]] >= 2 by {
      assert s == s[..i] + [s[i]] + s[i + 1..j] + [s[j]] + s[j + 1..];
    }
  }

  lemma OccursOnce(values: seq<Agg>, i: nat)
    requires i < |values| && forall j :: 0 <= j < |values| && j != i ==> values[j] != values[i]
    ensures multiset(values)[values[i]] == 1
  {
    var left, a, right := values[..i], values[i], values[i + 1..];
    assert values == left + [a] + right;
    assert a !in left && a !in right;
  }

  lemma OnceListed(values: seq<Agg>, m: Groups, a: Agg)
    requires Lists(values, m) && a in values
    ensures multiset(values)[a] == 1
  {
    var i :| 0 <= i < |values| && values[i] == a;
    assert forall j :: 0 <= j < |values| && j != i ==> values[j].group != a.group;
    hide Lists;
    OccursOnce(values, i);
  }

  /** The dictionary `merge` builds: of two aggregates with one group the later counts. */
  function ByGroup(aggregated: seq<Agg>): Groups {
    if aggregated == [] then map[]
    else
      var a := aggregated[|aggregated| - 1];
      ByGroup(aggregated[..|aggregated| - 1])[a.group := a]
  }

  /** `changed` pairs every changed group's present aggregate with its successor, once. */
  ghost predicate Pairs(changed: seq<(Agg, Agg)>, cur: Groups, next: Groups) {
    (forall i :: 0 <= i < |changed| ==>
       changed[i].0.group in next && changed[i].0.group in cur &&
       changed[i].0 == cur[changed[i].0.group] && changed[i].1 == next[changed[i].0.group]) &&
    (forall g :: g in next ==> exists i :: 0 <= i < |changed| && changed[i].0.group == g) &&
    forall i, j :: 0 <= i < j < |changed| ==> changed[i].0.group != changed[j].0.group
  }

  /** Copies an aggregate and appends to the copy. */
  method AppendToCopy(current: Agg, activities: seq<Activity>) returns (r: Result<Agg>)
    ensures r.Ok? <==> AppendAll(current, activities).Ok?
    ensures r.Ok? ==> r == AppendAll(current, activities)
  {
    var copy := new AggregatedActivity.Clone(current);
    for i := 0 to |activities|
      invariant AppendAll(current, activities[..i]) == Ok(copy.agg)
    {
      assert activities[..i + 1][..i] == activities[..i] && activities[..i + 1][i] == activities[i];
      var step := copy.Append(activities[i]);
      if step.Err? {
        AppendAllStopsAt(current, activities, i + 1);
        return Err(DuplicateActivity);
      }
    }
    assert activities[..|activities|] == activities;
    r := Ok(copy.agg);
  }

  method Merge(aggregated: seq<Agg>, activities: array<Activity>, groupOf: Grouping)
    returns (r: Result<()>, latest: seq<Agg>, changed: seq<(Agg, Agg)>)
    modifies activities
    ensures r.Err? <==> MergeMap(ByGroup(aggregated), old(activities[..]), groupOf).Err?
    ensures r.Ok? ==> var d := MergeMap(ByGroup(aggregated), old(activities[..]), groupOf).value;
                      Lists(latest, d.latest) && Pairs(changed, ByGroup(aggregated), d.changed)
  {
    var current: Groups := map[];
    for i := 0 to |aggregated|
      invariant current == ByGroup(aggregated[..i])
    {
      assert aggregated[..i + 1][..i] == aggregated[..i];
      current := current[aggregated[i].group := aggregated[i]];
    }
    assert aggregated[..|aggregated|] == aggregated;
    ByGroupIsKeyed(aggregated);
    ghost var fold := GroupFold(SortById(activities[..]), groupOf);
    var newAggregated := Aggregate(activities, groupOf);
    if newAggregated.Err? {
      return Err(newAggregated.error), [], [];
    }
    r, latest, changed := Compare(current, newAggregated.value, fold.value);
  }

  /** The loop of `merge`: new groups against the present ones. */
  method Compare(current: Groups, list: seq<Agg>, ghost new_: Groups)
    returns (r: Result<()>, latest: seq<Agg>, changed: seq<(Agg, Agg)>)
    requires Lists(list, new_) && Keyed(current)
    ensures r.Ok? <==> Mergeable(current, new_)
    ensures r.Ok? ==> Lists(latest, DiffOf(current, new_).latest) && Pairs(changed, current, DiffOf(current, new_).changed)
  {
    hide Mergeable, Lists, Pairs, DiffOf, Keyed, AppendAll;
    latest, changed := [], [];
    for i := 0 to |list|
      invariant latest == Chosen(list[..i], current, false)
      invariant Grew(Chosen(list[..i], current, true), current, changed)
    {
      assert list[..i + 1][..i] == list[..i] && list[..i + 1][i] == list[i];
      var a := list[i];
      if a.group !in current {
        latest := latest + [a];
      } else {
        var grown := AppendToCopy(current[a.group], a.activities);
        if grown.Err? {
          RefusedGroup(list, i, current, new_);
          return Err(DuplicateActivity), latest, changed;
        }
        changed := changed + [(current[a.group], grown.value)];
      }
    }
    assert list[..|list|] == list;
    GrewMergeable(list, current, new_, changed);
    ChosenLists(list, current, new_);
    GrewPairs(list, current, new_, changed);
    r := Ok(());
  }

  lemma RefusedGroup(list: seq<Agg>, i: nat, current: Groups, new_: Groups)
    requires Lists(list, new_) && i < |list| && list[i].group in current
    requires AppendAll(current[list[i].group], list[i].activities).Err?
    ensures !Mergeable(current, new_)
  {
    assert list[i].group in new_;
  }

  /** The aggregates whose group is (or is not) in `current`. */
  ghost function Chosen(list: seq<Agg>, current: Groups, known: bool): seq<Agg> {
    if list == [] then []
    else
      var rest, a := Chosen(list[..|list| - 1], current, known), list[|list| - 1];
      if a.group in current <==> known then rest + [a] else rest
  }

  ghost predicate DistinctGroups(list: seq<Agg>) {
    forall i, j :: 0 <= i < j < |list| ==> list[i].group != list[j].group
  }

  lemma {:induction false} ChosenHolds(list: seq<Agg>, current: Groups, known: bool)
    ensures forall a :: a in Chosen(list, current, known) <==> a in list && (a.group in current <==> known)
    ensures DistinctGroups(list) ==> DistinctGroups(Chosen(list, current, known))
  {
    if list != [] {
      var rest, a := list[..|list| - 1], list[|list| - 1];
      ChosenHolds(rest, current, known);
      assert list == rest + [a];
      var c := Chosen(rest, current, known);
      if DistinctGroups(list) {
        forall i | 0 <= i < |c| ensures c[i].group != a.group {
          assert c[i] in rest;
          var k :| 0 <= k < |rest| && rest[k] == c[i];
          assert list[k] == c[i];
        }
      }
    }
  }

  ghost predicate Grew(known: seq<Agg>, current: Groups, changed: seq<(Agg, Agg)>) {
    |changed| == |known| && forall k :: 0 <= k < |known| ==>
      known[k].group in current && changed[k].0 == current[known[k].group] &&
      Ok(changed[k].1) == AppendAll(changed[k].0, known[k].activities)
  }

  lemma GrewMergeable(list: seq<Agg>, current: Groups, new_: Groups, changed: seq<(Agg, Agg)>)
    requires Lists(list, new_) && Grew(Chosen(list, current, true), current, changed)
    ensures Mergeable(current, new_)
  {
    forall g | g in current && g in new_ ensures AppendAll(current[g], new_[g].activities).Ok? {
      var k := PlaceOfGroup(list, current, new_, g);
    }
  }

  lemma PlaceOfGroup(list: seq<Agg>, current: Groups, new_: Groups, g: string) returns (k: nat)
    requires Lists(list, new_) && g in new_
    ensures var c := Chosen(list, current, g in current); k < |c| && c[k] == new_[g] && c[k].group == g
  {
    var p :| 0 <= p < |list| && list[p].group == g;
    ChosenHolds(list, current, g in current);
    var c := Chosen(list, current, g in current);
    assert list[p] in c;
    k :| 0 <= k < |c| && c[k] == list[p];
  }

  lemma ChosenLists(list: seq<Agg>, current: Groups, new_: Groups)
    requires Lists(list, new_) && Mergeable(current, new_)
    ensures Lists(Chosen(list, current, false), DiffOf(current, new_).latest)
  {
    var c, d := Chosen(list, current, false), DiffOf(current, new_).latest;
    ChosenHolds(list, current, false);
    forall i | 0 <= i < |c| ensures c[i].group in d && d[c[i].group] == c[i] {
      assert c[i] in c;
    }
    forall g | g in d ensures exists k :: 0 <= k < |c| && c[k].group == g {
      var k := PlaceOfGroup(list, current, new_, g);
    }
  }

  lemma GrewPairs(list: seq<Agg>, current: Groups, new_: Groups, changed: seq<(Agg, Agg)>)
    requires Lists(list, new_) && Keyed(current) && Mergeable(current, new_)
    requires Grew(Chosen(list, current, true), current, changed)
    ensures Pairs(changed, current, DiffOf(current, new_).changed)
  {
    var c, d := Chosen(list, current, true), DiffOf(current, new_).changed;
    ChosenHolds(list, current, true);
    forall i | 0 <= i < |c| ensures c[i].group in new_ && new_[c[i].group] == c[i] {
      assert c[i] in c;
    }
    forall g | g in d ensures exists k :: 0 <= k < |changed| && changed[k].0.group == g {
      var k := PlaceOfGroup(list, current, new_, g);
      assert changed[k].0.group == g;
    }
  }

  lemma {:induction false} ByGroupIsKeyed(aggregated: seq<Agg>)
    ensures Keyed(ByGroup(aggregated))
  {
    if aggregated != [] {
      ByGroupIsKeyed(aggregated[..|aggregated| - 1]);
    }
  }
}
