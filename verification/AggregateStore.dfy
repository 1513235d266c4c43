/** What an aggregated feed keeps in its timeline: one sorted-set member per aggregate,
    the member being the aggregate's serialized text and its score the update time. */
module AggregateStore {
  import opened Ids
  import opened Ranking
  import opened Results
  import opened Activities
  import opened Aggregates
  import opened Aggregator
  import opened AggregatedSerializer
  import opened SortedSet
  import Hydration
  import HashCache

  /** A body that was inserted before the feed refers to it. It is taken to come back whole,
      its time included; what src/serializers/ActivitySerializer.ts gives back instead of the
      time is in BodyStorage.TimeIsReadFromTarget. */
  ghost predicate Known(x: Activity, store: Hydration.Store) {
    x.id in store && store[x.id] == x && x.id != "" && ';' !in x.id
  }

  ghost predicate Good(a: Agg, groupOf: Grouping, store: Hydration.Store) {
    !a.dehydrated && a.activityIds == [] && a.activities != [] &&
    |a.activities| <= MAX_AGGREGATED_ACTIVITIES_LENGTH && DistinctIds(a.activities) &&
    a.updatedAt.Some? && GroupFits(a.group) &&
    forall i :: 0 <= i < |a.activities| ==> Known(a.activities[i], store) && groupOf(a.activities[i]) == a.group
  }

  ghost predicate DistinctTimes(groups: Groups) {
    forall g, h :: g in groups && h in groups && g != h ==> UpdateTime(groups[g]) != UpdateTime(groups[h])
  }

  /** The feed as it is meant: no aggregate is empty, every activity sits in the aggregate
      of its own group, and update times tell the aggregates apart. */
  ghost predicate Coherent(groups: Groups, groupOf: Grouping, store: Hydration.Store) {
    (forall g :: g in groups ==> groups[g].group == g && Good(groups[g], groupOf, store)) && DistinctTimes(groups)
  }

  /** Bodies that arrive later change nothing for a coherent feed. */
  lemma CoherentAsStoreGrows(groups: Groups, groupOf: Grouping, store: Hydration.Store, later: Hydration.Store)
    requires Coherent(groups, groupOf, store) && Hydration.Grows(store, later)
    ensures Coherent(groups, groupOf, later)
  {
    forall g | g in groups ensures Good(groups[g], groupOf, later) {
      var a := groups[g];
      forall i | 0 <= i < |a.activities| ensures Known(a.activities[i], later) {
        assert Known(a.activities[i], store);
      }
    }
  }

  function StoredText(a: Agg): string {
    var r := DumpText(a);
    if r.Ok? then r.value else ""
  }

  function Score(a: Agg): real { UpdateTime(a) as real }

  /** The sorted set holds the texts of these aggregates and nothing else. */
  ghost predicate Represents(z: ZSet, groups: Groups) {
    (forall g :: g in groups ==> StoredText(groups[g]) in z && z[StoredText(groups[g])] == Score(groups[g])) &&
    forall m :: m in z ==> exists g :: g in groups && StoredText(groups[g]) == m
  }

  // ---- texts and aggregates determine each other ----

  lemma TextLoads(a: Agg, groupOf: Grouping, store: Hydration.Store)
    requires Good(a, groupOf, store)
    ensures DumpText(a) == Ok(StoredText(a)) && DumpText(Dehydrate(a)) == Ok(StoredText(a))
    ensures LoadText(StoredText(a)) == Ok(Dehydrate(a))
  {
    var d := Dehydrate(a);
    assert Parts(d) == Parts(a);
    forall i | 0 <= i < |d.activityIds| ensures ';' !in d.activityIds[i] && d.activityIds[i] != "" {
      assert Known(a.activities[i], store);
    }
    FittingLoads(d);
  }

  lemma HydratesBack(a: Agg, groupOf: Grouping, store: Hydration.Store)
    requires Good(a, groupOf, store)
    ensures forall i :: 0 <= i < |Dehydrate(a).activityIds| ==> Dehydrate(a).activityIds[i] in store
    ensures Hydrate(Dehydrate(a), store) == a
  {
    forall i | 0 <= i < |a.activities| ensures a.activities[i].id in store && store[a.activities[i].id] == a.activities[i] {
      assert Known(a.activities[i], store);
    }
    HydrateInvertsDehydrate(a, store);
  }

  lemma TextIsInjective(a: Agg, b: Agg, groupOf: Grouping, store: Hydration.Store)
    requires Good(a, groupOf, store) && Good(b, groupOf, store) && StoredText(a) == StoredText(b)
    ensures a == b
  {
    TextLoads(a, groupOf, store);
    TextLoads(b, groupOf, store);
    HydratesBack(a, groupOf, store);
    HydratesBack(b, groupOf, store);
  }

  /** Write-back hits its target: a stored text that is loaded, hydrated, copied, dehydrated
      and dumped again is the identical text. */
  lemma WriteBackHits(z: ZSet, groups: Groups, m: string, groupOf: Grouping, store: Hydration.Store)
    requires Coherent(groups, groupOf, store) && Represents(z, groups) && m in z
    ensures LoadText(m).Ok?
    ensures var loaded := LoadText(m).value;
      (forall i :: 0 <= i < |loaded.activityIds| ==> loaded.activityIds[i] in store) &&
      var hydrated := Hydrate(loaded, store);
      hydrated.group in groups && groups[hydrated.group] == hydrated &&
      DumpText(Dehydrate(hydrated)) == Ok(m) && DumpText(hydrated) == Ok(m)
  {
    var g :| g in groups && StoredText(groups[g]) == m;
    TextLoads(groups[g], groupOf, store);
    HydratesBack(groups[g], groupOf, store);
  }

  // ---- reading a slice ----

  function LoadAll(members: seq<string>): Result<seq<Agg>> {
    if members == [] then Ok([])
    else
      var rest, a := LoadAll(members[..|members| - 1]), LoadText(members[|members| - 1]);
      if rest.Err? || a.Err? then Err(SerializationError) else Ok(rest.value + [a.value])
  }

  /** `s` are the aggregates of `groups` whose texts are `members`. */
  ghost predicate Decodes(members: seq<string>, s: seq<Agg>, groups: Groups) {
    |s| == |members| &&
    forall i :: 0 <= i < |s| ==> s[i].group in groups && groups[s[i].group] == s[i] && StoredText(s[i]) == members[i]
  }

  ghost predicate NoRepeats(members: seq<string>) {
    forall i, j :: 0 <= i < j < |members| ==> members[i] != members[j]
  }

  function Dehydrated(s: seq<Agg>): seq<Agg> {
    seq(|s|, i requires 0 <= i < |s| => Dehydrate(s[i]))
  }

  /** The aggregate a member stands for. */
  ghost function Owner(m: string, store: Hydration.Store): Agg {
    var r := LoadText(m);
    if r.Ok? && forall i :: 0 <= i < |r.value.activityIds| ==> r.value.activityIds[i] in store
    then Hydrate(r.value, store) else New("")
  }

  lemma OwnerOfMember(z: ZSet, groups: Groups, m: string, groupOf: Grouping, store: Hydration.Store)
    requires Coherent(groups, groupOf, store) && Represents(z, groups) && m in z
    ensures Owner(m, store).group in groups && groups[Owner(m, store).group] == Owner(m, store)
    ensures StoredText(Owner(m, store)) == m && LoadText(m) == Ok(Dehydrate(Owner(m, store)))
  {
    hide LoadText, DumpText, StoredText, Dehydrate, Hydrate, Good;
    var g :| g in groups && StoredText(groups[g]) == m;
    TextLoads(groups[g], groupOf, store);
    HydratesBack(groups[g], groupOf, store);
  }

  ghost predicate Loads(members: seq<string>, s: seq<Agg>) {
    |s| == |members| && forall i :: 0 <= i < |s| ==> LoadText(members[i]) == Ok(Dehydrate(s[i]))
  }

  lemma {:induction false} LoadAllIs(members: seq<string>, s: seq<Agg>)
    requires Loads(members, s)
    ensures LoadAll(members) == Ok(Dehydrated(s))
  {
    hide LoadText, Dehydrate;
    if s == [] {
      assert Dehydrated(s) == [];
    } else {
      var rest := s[..|s| - 1];
      LoadAllIs(members[..|s| - 1], rest);
      assert Dehydrated(s) == Dehydrated(rest) + [Dehydrate(s[|s| - 1])];
    }
  }

  ghost predicate GoodList(s: seq<Agg>, groupOf: Grouping, store: Hydration.Store) {
    (forall i :: 0 <= i < |s| ==> Good(s[i], groupOf, store)) &&
    forall i, j :: 0 <= i < j < |s| ==> s[i].group != s[j].group
  }

  /** No id is asked for twice: ids are distinct within an aggregate, and an id that sat in
      two aggregates would have two groups. */
  lemma {:induction false} IdsAreDistinct(s: seq<Agg>, groupOf: Grouping, store: Hydration.Store)
    requires GoodList(s, groupOf, store)
    ensures HashCache.NoDuplicates(Hydration.AllIds(Dehydrated(s)))
    ensures forall id :: id in Hydration.AllIds(Dehydrated(s)) ==>
              id in store && exists i :: 0 <= i < |s| && s[i].group == groupOf(store[id])
  {
    if s != [] {
      var rest, a := s[..|s| - 1], s[|s| - 1];
      IdsAreDistinct(rest, groupOf, store);
      var ids, mine := Hydration.AllIds(Dehydrated(rest)), IdsOf(a.activities);
      assert Dehydrated(s)[..|s| - 1] == Dehydrated(rest);
      assert Hydration.AllIds(Dehydrated(s)) == ids + mine;
      forall j | 0 <= j < |mine| ensures mine[j] in store && groupOf(store[mine[j]]) == a.group {
        assert Known(a.activities[j], store);
      }
      forall i, j | 0 <= i < |ids| && 0 <= j < |mine| ensures ids[i] != mine[j] {
        assert ids[i] in ids;
      }
      forall id | id in ids + mine ensures id in store && exists i :: 0 <= i < |s| && s[i].group == groupOf(store[id]) {
        if id in ids {
          var i :| 0 <= i < |rest| && rest[i].group == groupOf(store[id]);
          assert s[i].group == groupOf(store[id]);
        } else {
          assert id in mine && s[|s| - 1].group == groupOf(store[id]);
        }
      }
    }
  }

  /** Reading different members of the timeline gives back the aggregates themselves. */
  lemma SliceDecodes(z: ZSet, groups: Groups, members: seq<string>, groupOf: Grouping, store: Hydration.Store)
    returns (s: seq<Agg>)
    requires Hydration.Keyed(store) && Coherent(groups, groupOf, store) && Represents(z, groups)
    requires NoRepeats(members) && forall i :: 0 <= i < |members| ==> members[i] in z
    ensures Decodes(members, s, groups) && GoodList(s, groupOf, store)
    ensures LoadAll(members) == Ok(Dehydrated(s))
    ensures Hydration.HydrateAll(Dehydrated(s), store) == Ok(s)
  {
    s := seq(|members|, i requires 0 <= i < |members| => Owner(members[i], store));
    forall i | 0 <= i < |s|
      ensures s[i].group in groups && groups[s[i].group] == s[i] && StoredText(s[i]) == members[i]
      ensures LoadText(members[i]) == Ok(Dehydrate(s[i]))
    {
      OwnerOfMember(z, groups, members[i], groupOf, store);
    }
    LoadAllIs(members, s);
    forall i, j | 0 <= i < j < |s| ensures s[i].group != s[j].group {
      assert members[i] != members[j];
    }
    SliceHydrates(s, groupOf, store);
  }

  lemma SliceHydrates(s: seq<Agg>, groupOf: Grouping, store: Hydration.Store)
    requires Hydration.Keyed(store) && GoodList(s, groupOf, store)
    ensures Hydration.HydrateAll(Dehydrated(s), store) == Ok(s)
  {
    var d := Dehydrated(s);
    IdsAreDistinct(s, groupOf, store);
    Hydration.HydrateAllIsHydrate(d, store);
    forall i | 0 <= i < |s| ensures Hydrate(d[i], store) == s[i] {
      HydratesBack(s[i], groupOf, store);
    }
    assert seq(|d|, i requires 0 <= i < |d| => Hydrate(d[i], store)) == s;
  }

  // ---- the window and the trim, group by group ----

  ghost function Later(groups: Groups, g: string): set<string>
    requires g in groups
  {
    set h | h in groups && UpdateTime(groups[h]) > UpdateTime(groups[g])
  }

  /** The `n` most recently updated aggregates. */
  ghost function Newest(groups: Groups, n: int): Groups {
    map g | g in groups && |Later(groups, g)| < n :: groups[g]
  }

  lemma LaterIsDatedLater(groups: Groups, g: string, groupOf: Grouping, store: Hydration.Store)
    requires Coherent(groups, groupOf, store) && g in groups
    ensures groups[g].updatedAt.Some?
    ensures Later(groups, g) == set h | h in groups &&
      groups[h].updatedAt.Some? && groups[h].updatedAt.value > groups[g].updatedAt.value
  {
    hide Known, GroupFits;
    forall h | h in groups ensures groups[h].updatedAt.Some? {
      assert Good(groups[h], groupOf, store);
    }
  }

  /** Each text is stored under the date of its aggregate. */
  lemma ScoresAreDates(z: ZSet, groups: Groups, g: string, groupOf: Grouping, store: Hydration.Store)
    requires Coherent(groups, groupOf, store) && Represents(z, groups) && g in groups
    ensures StoredText(groups[g]) in z && groups[g].updatedAt == Some(z[StoredText(groups[g])].Floor)
    ensures z[StoredText(groups[g])] == z[StoredText(groups[g])].Floor as real
  {
    hide Known, GroupFits, StoredText;
    assert Good(groups[g], groupOf, store);
  }

  /** The score of an aggregate that only grew is the latest time appended. */
  lemma ScoreIsLatestAppended(group: string, events: seq<Event>)
    requires forall i :: 0 <= i < |events| ==> events[i].Appends?
    requires Succeeded(group, events) != []
    ensures var score, xs := Score(History(group, events).agg), Succeeded(group, events);
            (exists i :: 0 <= i < |xs| && xs[i].time as real == score) &&
            forall i :: 0 <= i < |xs| ==> xs[i].time as real <= score
  {
    hide History, Succeeded;
    AppendOnlyRun(group, events);
  }

  lemma TextIsNew(s: set<string>, g: string, groups: Groups, groupOf: Grouping, store: Hydration.Store)
    requires Coherent(groups, groupOf, store) && s <= groups.Keys && g in s
    ensures StoredText(groups[g]) !in set h | h in s - {g} :: StoredText(groups[h])
  {
    hide StoredText, Good;
    forall h | h in s && StoredText(groups[h]) == StoredText(groups[g]) ensures h == g {
      TextIsInjective(groups[g], groups[h], groupOf, store);
    }
  }

  lemma {:induction false} ImageSize(s: set<string>, groups: Groups, groupOf: Grouping, store: Hydration.Store)
    requires Coherent(groups, groupOf, store) && s <= groups.Keys
    ensures |set g | g in s :: StoredText(groups[g])| == |s|
    decreases |s|
  {
    hide StoredText, Coherent;
    var image := set g | g in s :: StoredText(groups[g]);
    if s != {} {
      var g :| g in s;
      ImageSize(s - {g}, groups, groupOf, store);
      var rest := set h | h in s - {g} :: StoredText(groups[h]);
      TextIsNew(s, g, groups, groupOf, store);
      assert image == rest + {StoredText(groups[g])};
    }
  }

  /** A member ranks as high in the sorted set as its aggregate does by update time. */
  lemma RankByUpdateTime(z: ZSet, groups: Groups, g: string, groupOf: Grouping, store: Hydration.Store)
    requires Coherent(groups, groupOf, store) && Represents(z, groups) && g in groups
    ensures |Better(z, StoredText(groups[g]))| == |Later(groups, g)|
    ensures groups[g].updatedAt.Some?
    ensures |Better(z, StoredText(groups[g]))| == |set h | h in groups &&
      groups[h].updatedAt.Some? && groups[h].updatedAt.value > groups[g].updatedAt.value|
  {
    hide StoredText, Good;
    var m := StoredText(groups[g]);
    LessIsIrreflexive(m);
    var image := set h | h in Later(groups, g) :: StoredText(groups[h]);
    forall x ensures x in Better(z, m) <==> x in image {
      if x in z {
        var h :| h in groups && StoredText(groups[h]) == x;
        assert h == g ==> x == m;
        assert Above(z, x, m) <==> h in Later(groups, g);
        if x in image {
          var k :| k in Later(groups, g) && StoredText(groups[k]) == x;
          TextIsInjective(groups[h], groups[k], groupOf, store);
        }
      }
    }
    assert Better(z, m) == image;
    LaterIsDatedLater(groups, g, groupOf, store);
    ImageSize(Later(groups, g), groups, groupOf, store);
  }

  lemma CoherentPart(groups: Groups, part: Groups, groupOf: Grouping, store: Hydration.Store)
    requires Coherent(groups, groupOf, store)
    requires forall g :: g in part ==> g in groups && part[g] == groups[g]
    ensures Coherent(part, groupOf, store)
  {
  }

  lemma KeptIffNewest(z: ZSet, groups: Groups, n: nat, g: string, groupOf: Grouping, store: Hydration.Store)
    requires Coherent(groups, groupOf, store) && Represents(z, groups) && g in groups
    ensures g in Newest(groups, n) <==> StoredText(groups[g]) in Keep(z, n)
  {
    RankByUpdateTime(z, groups, g, groupOf, store);
  }

  lemma KeptHasOwner(z: ZSet, groups: Groups, n: nat, m: string, groupOf: Grouping, store: Hydration.Store)
    requires Coherent(groups, groupOf, store) && Represents(z, groups) && m in Keep(z, n)
    ensures exists g :: g in Newest(groups, n) && StoredText(Newest(groups, n)[g]) == m
  {
    var g :| g in groups && StoredText(groups[g]) == m;
    KeptIffNewest(z, groups, n, g, groupOf, store);
    assert g in Newest(groups, n) && Newest(groups, n)[g] == groups[g];
  }

  lemma KeptText(z: ZSet, groups: Groups, n: nat, g: string, groupOf: Grouping, store: Hydration.Store)
    requires Coherent(groups, groupOf, store) && Represents(z, groups) && g in Newest(groups, n)
    ensures StoredText(groups[g]) in Keep(z, n) && Keep(z, n)[StoredText(groups[g])] == Score(groups[g])
  {
    KeptIffNewest(z, groups, n, g, groupOf, store);
  }

  lemma KeptTexts(z: ZSet, groups: Groups, n: nat, groupOf: Grouping, store: Hydration.Store)
    requires Coherent(groups, groupOf, store) && Represents(z, groups)
    ensures forall g :: g in Newest(groups, n) ==>
      StoredText(Newest(groups, n)[g]) in Keep(z, n) && Keep(z, n)[StoredText(Newest(groups, n)[g])] == Score(Newest(groups, n)[g])
  {
    forall g | g in Newest(groups, n)
      ensures StoredText(groups[g]) in Keep(z, n) && Keep(z, n)[StoredText(groups[g])] == Score(groups[g])
    {
      KeptText(z, groups, n, g, groupOf, store);
    }
  }

  lemma KeptHaveOwners(z: ZSet, groups: Groups, n: nat, groupOf: Grouping, store: Hydration.Store)
    requires Coherent(groups, groupOf, store) && Represents(z, groups)
    ensures forall m :: m in Keep(z, n) ==> exists g :: g in Newest(groups, n) && StoredText(Newest(groups, n)[g]) == m
  {
    forall m | m in Keep(z, n) ensures exists g :: g in Newest(groups, n) && StoredText(Newest(groups, n)[g]) == m {
      KeptHasOwner(z, groups, n, m, groupOf, store);
    }
  }

  lemma NewestRepresents(z: ZSet, groups: Groups, n: nat, groupOf: Grouping, store: Hydration.Store)
    requires Coherent(groups, groupOf, store) && Represents(z, groups)
    ensures Represents(Keep(z, n), Newest(groups, n)) && Coherent(Newest(groups, n), groupOf, store)
  {
    CoherentPart(groups, Newest(groups, n), groupOf, store);
    KeptTexts(z, groups, n, groupOf, store);
    KeptHaveOwners(z, groups, n, groupOf, store);
  }

  /** Trimming the sorted set keeps the `n` most recently updated aggregates. */
  lemma NewestIsTop(z: ZSet, groups: Groups, n: nat, groupOf: Grouping, store: Hydration.Store)
    requires Coherent(groups, groupOf, store) && Represents(z, groups)
    ensures Represents(Keep(z, n), Newest(groups, n)) && Coherent(Newest(groups, n), groupOf, store)
    ensures |Newest(groups, n)| == Min(n, |groups|)
    ensures forall g, h :: g in groups && g !in Newest(groups, n) && h in Newest(groups, n) ==>
      groups[g].updatedAt.Some? && groups[h].updatedAt.Some? && groups[g].updatedAt.value < groups[h].updatedAt.value
  {
    NewestIsPart(groups, n);
    hide Represents, Coherent, Keep, Newest, Listing;
    NewestRepresents(z, groups, n, groupOf, store);
    SameNumber(z, groups, groupOf, store);
    SameNumber(Keep(z, n), Newest(groups, n), groupOf, store);
    ListingOfKeep(z, n);
    ListingSize(Keep(z, n));
    ListingSize(z);
    forall g, h | g in groups && g !in Newest(groups, n) && h in Newest(groups, n)
      ensures groups[g].updatedAt.Some? && groups[h].updatedAt.Some? && groups[g].updatedAt.value < groups[h].updatedAt.value
    {
      LeftOutIsOlder(groups, n, g, h, groupOf, store);
    }
  }

  lemma NewestIsPart(groups: Groups, n: int)
    ensures forall g :: g in Newest(groups, n) ==> g in groups && Newest(groups, n)[g] == groups[g]
  {
  }

  lemma SameNumber(z: ZSet, groups: Groups, groupOf: Grouping, store: Hydration.Store)
    requires Coherent(groups, groupOf, store) && Represents(z, groups)
    ensures |z| == |groups|
  {
    hide StoredText, Coherent;
    ImageSize(groups.Keys, groups, groupOf, store);
    assert z.Keys == set g | g in groups.Keys :: StoredText(groups[g]);
    assert |z.Keys| == |z| && |groups.Keys| == |groups|;
  }

  lemma LeftOutIsOlder(groups: Groups, n: nat, g: string, h: string, groupOf: Grouping, store: Hydration.Store)
    requires Coherent(groups, groupOf, store) && g in groups && g !in Newest(groups, n) && h in Newest(groups, n)
    ensures groups[g].updatedAt.Some? && groups[h].updatedAt.Some? && groups[g].updatedAt.value < groups[h].updatedAt.value
  {
    hide Good;
    LaterIsDatedLater(groups, g, groupOf, store);
    LaterIsDatedLater(groups, h, groupOf, store);
    if groups[g].updatedAt.value >= groups[h].updatedAt.value {
      SubsetSize(Later(groups, g), Later(groups, h));
    }
  }

  lemma TopMembers(z: ZSet, n: nat)
    ensures |Listing(z)| == |z|
    ensures var members := Listing(z)[..Min(n, |z|)];
            NoRepeats(members) && (forall m :: m in Keep(z, n) <==> m in members) &&
            forall i :: 0 <= i < |members| ==> members[i] in Keep(z, n)
  {
    ListingOfKeep(z, n);
    var members := Listing(z)[..Min(n, |z|)];
    assert IsListing(Keep(z, n), members);
    forall i, j | 0 <= i < j < |members| ensures members[i] != members[j] {
      AboveIsAsymmetric(Keep(z, n), members[i], members[j]);
    }
    assert forall i :: 0 <= i < |members| ==> members[i] in members;
  }

  /** Reading the first `n` entries gives the `n` newest aggregates. */
  lemma WindowIsNewest(z: ZSet, groups: Groups, n: nat, groupOf: Grouping, store: Hydration.Store)
    returns (s: seq<Agg>)
    requires Hydration.Keyed(store) && Coherent(groups, groupOf, store) && Represents(z, groups)
    ensures |Listing(z)| == |z|
    ensures Decodes(Listing(z)[..Min(n, |z|)], s, Newest(groups, n))
    ensures LoadAll(Listing(z)[..Min(n, |z|)]) == Ok(Dehydrated(s))
    ensures Hydration.HydrateAll(Dehydrated(s), store) == Ok(s) && ByGroup(s) == Newest(groups, n)
    ensures GoodList(s, groupOf, store) && NewestFirst(s)
  {
    TopMembers(z, n);
    ListingOfKeep(z, n);
    assert IsListing(Keep(z, n), Listing(Keep(z, n)));
    hide StoredText, Good, LoadText, LoadAll, Keep, ByGroup, Listing, Represents, Newest, Coherent, Dehydrated, NewestFirst,
         IsListing, Decodes, GoodList, NoRepeats;
    NewestRepresents(z, groups, n, groupOf, store);
    s := WholeWindow(Keep(z, n), Newest(groups, n), Listing(z)[..Min(n, |z|)], groupOf, store);
  }

  /** Reading a whole feed. */
  lemma WholeWindow(z: ZSet, top: Groups, members: seq<string>, groupOf: Grouping, store: Hydration.Store)
    returns (s: seq<Agg>)
    requires Hydration.Keyed(store) && Coherent(top, groupOf, store) && Represents(z, top)
    requires IsListing(z, members) && NoRepeats(members) && forall m :: m in z <==> m in members
    ensures Decodes(members, s, top) && LoadAll(members) == Ok(Dehydrated(s))
    ensures Hydration.HydrateAll(Dehydrated(s), store) == Ok(s) && ByGroup(s) == top
    ensures GoodList(s, groupOf, store) && NewestFirst(s)
  {
    assert forall i :: 0 <= i < |members| ==> members[i] in members;
    hide StoredText, Good, LoadText, LoadAll, ByGroup, Represents, Coherent, Dehydrated, NewestFirst, IsListing, Decodes,
         GoodList, NoRepeats;
    s := SliceDecodes(z, top, members, groupOf, store);
    WindowGroups(z, top, members, s, groupOf, store);
    WindowDescends(z, top, members, s, groupOf, store);
  }

  /** Dated aggregates, each updated later than all behind it. */
  ghost predicate NewestFirst(s: seq<Agg>) {
    (forall i :: 0 <= i < |s| ==> s[i].updatedAt.Some?) &&
    forall i, j :: 0 <= i < j < |s| ==> s[i].updatedAt.value > s[j].updatedAt.value
  }

  lemma WindowDescends(z: ZSet, top: Groups, members: seq<string>, s: seq<Agg>, groupOf: Grouping, store: Hydration.Store)
    requires Coherent(top, groupOf, store) && Represents(z, top) && Decodes(members, s, top)
    requires GoodList(s, groupOf, store) && IsListing(z, members)
    ensures NewestFirst(s)
  {
    hide Good, StoredText;
    forall i | 0 <= i < |s| ensures s[i].updatedAt.Some? {
      LaterIsDatedLater(top, s[i].group, groupOf, store);
    }
    forall i, j | 0 <= i < j < |s| ensures s[i].updatedAt.value > s[j].updatedAt.value {
      assert Above(z, members[i], members[j]);
      ScoresAreDates(z, top, s[i].group, groupOf, store);
      ScoresAreDates(z, top, s[j].group, groupOf, store);
      assert s[i].group != s[j].group;
    }
  }

  lemma WindowGroups(z: ZSet, top: Groups, members: seq<string>, s: seq<Agg>, groupOf: Grouping, store: Hydration.Store)
    requires Coherent(top, groupOf, store) && Represents(z, top) && Decodes(members, s, top)
    requires forall m :: m in z ==> m in members
    ensures ByGroup(s) == top
  {
    hide StoredText, Good, ByGroup;
    forall g | g in top ensures exists i :: 0 <= i < |s| && s[i].group == g {
      var i := IsDecoded(z, top, members, s, g, groupOf, store);
    }
    hide Represents, Coherent;
    ListedGroups(s, top);
  }

  lemma ListedGroups(s: seq<Agg>, top: Groups)
    requires forall i :: 0 <= i < |s| ==> s[i].group in top && top[s[i].group] == s[i]
    requires forall g :: g in top ==> exists i :: 0 <= i < |s| && s[i].group == g
    ensures ByGroup(s) == top
  {
    hide ByGroup;
    ByGroupHolds(s);
    var b := ByGroup(s);
    forall g | g in b ensures g in top && b[g] == top[g] {
      var i :| 0 <= i < |s| && s[i].group == g && b[g] == s[i];
    }
  }

  lemma IsDecoded(z: ZSet, top: Groups, members: seq<string>, s: seq<Agg>, g: string, groupOf: Grouping,
                  store: Hydration.Store) returns (i: nat)
    requires Coherent(top, groupOf, store) && Represents(z, top) && Decodes(members, s, top)
    requires (forall m :: m in z ==> m in members) && g in top
    ensures i < |s| && s[i].group == g
  {
    hide StoredText, Good;
    i :| 0 <= i < |members| && members[i] == StoredText(top[g]);
    TextIsInjective(s[i], top[g], groupOf, store);
  }

  lemma {:induction false} ByGroupHolds(s: seq<Agg>)
    ensures forall i :: 0 <= i < |s| ==> s[i].group in ByGroup(s)
    ensures forall g :: g in ByGroup(s) ==> exists i :: 0 <= i < |s| && s[i].group == g && ByGroup(s)[g] == s[i]
  {
    if s != [] {
      var rest, a := s[..|s| - 1], s[|s| - 1];
      ByGroupHolds(rest);
      assert ByGroup(s) == ByGroup(rest)[a.group := a];
      hide ByGroup;
      forall g | g in ByGroup(s) ensures exists i :: 0 <= i < |s| && s[i].group == g && ByGroup(s)[g] == s[i] {
        if g == a.group {
          assert s[|s| - 1] == a && ByGroup(s)[g] == a;
        } else {
          assert g in ByGroup(rest);
          var i :| 0 <= i < |rest| && rest[i].group == g && ByGroup(rest)[g] == rest[i];
          assert s[i] == rest[i] && ByGroup(s)[g] == ByGroup(rest)[g];
        }
      }
      forall i | 0 <= i < |s| ensures s[i].group in ByGroup(s) {
        assert i < |s| - 1 ==> rest[i] == s[i];
      }
    }
  }
}
