/** Whole runs of a timeline: the in-memory store against the Redis store, and a store
    that trims at random moments (src/feeds/base/base.ts:235) against one that never does. */
module TimelineRuns {
  import opened Ids
  import opened Ranking
  import opened SortedSet
  import opened MemoryTimeline
  import Results

  type Scoring = string -> real

  datatype Op =
    | Add(ids: seq<string>)
    | Remove(ids: seq<string>)
    | Trim(max: nat)

  predicate Proper(op: Op) { op.Trim? ==> op.max > 0 }

  // ---- one step of each store: what the two storage classes ensure ----

  ghost function MemoryStep(timeline: seq<string>, op: Op): seq<string> {
    match op
    case Add(ids) => Listing(Flat(Elements(timeline) + Elements(ids)))
    case Remove(ids) => Listing(Flat(Elements(timeline) - Elements(ids)))
    case Trim(max) => Listing(Keep(Flat(Elements(timeline)), max))
  }

  function ScoredPairs(ids: seq<string>, score: Scoring): seq<Pair> {
    seq(|ids|, i requires 0 <= i < |ids| => (score(ids[i]), ids[i]))
  }

  ghost function RedisStep(z: ZSet, op: Op, score: Scoring): ZSet {
    match op
    case Add(ids) => ZAdd(z, ScoredPairs(ids, score))
    case Remove(ids) => Without(z, ids)
    case Trim(max) => ZRemRangeByRank(z, 0, -1 - max)
  }

  ghost function MemoryRun(run: seq<Op>): seq<string> {
    if run == [] then [] else MemoryStep(MemoryRun(run[..|run| - 1]), run[|run| - 1])
  }

  ghost function RedisRun(run: seq<Op>, score: Scoring): ZSet {
    if run == [] then map[] else RedisStep(RedisRun(run[..|run| - 1], score), run[|run| - 1], score)
  }

  // ---- a flat feed is determined by its set of ids ----

  function Scored(ids: set<string>, score: Scoring): ZSet {
    map id | id in ids :: score(id)
  }

  lemma {:induction false} AddScored(ids: set<string>, added: seq<string>, score: Scoring)
    ensures ZAdd(Scored(ids, score), ScoredPairs(added, score)) == Scored(ids + Elements(added), score)
    decreases |added|
  {
    if added == [] {
      assert ids + Elements(added) == ids;
    } else {
      var pairs := ScoredPairs(added, score);
      assert pairs[1..] == ScoredPairs(added[1..], score);
      assert Scored(ids, score)[added[0] := score(added[0])] == Scored(ids + {added[0]}, score);
      AddScored(ids + {added[0]}, added[1..], score);
      assert ids + {added[0]} + Elements(added[1..]) == ids + Elements(added) by {
        assert added == [added[0]] + added[1..];
      }
    }
  }

  /** One step of a flat feed, on the set of its ids. */
  ghost function IdsAfter(ids: set<string>, op: Op, score: Scoring): set<string> {
    match op
    case Add(added) => ids + Elements(added)
    case Remove(removed) => ids - Elements(removed)
    case Trim(max) => Keep(Scored(ids, score), max).Keys
  }

  lemma StepOnIds(ids: set<string>, op: Op, score: Scoring)
    ensures RedisStep(Scored(ids, score), op, score) == Scored(IdsAfter(ids, op, score), score)
  {
    match op
    case Add(added) => AddScored(ids, added, score);
    case Remove(_) =>
    case Trim(max) => TrimRanks(Scored(ids, score), max);
  }

  lemma {:induction false} RunIsScored(run: seq<Op>, score: Scoring)
    ensures RedisRun(run, score) == Scored(RedisRun(run, score).Keys, score)
  {
    if run != [] {
      var before := RedisRun(run[..|run| - 1], score);
      RunIsScored(run[..|run| - 1], score);
      StepOnIds(before.Keys, run[|run| - 1], score);
    }
  }

  // ---- the two stores simulate each other ----

  /** The scores never contradict the order of the ids (ties are allowed). */
  ghost predicate Monotone(ids: set<string>, score: Scoring) {
    forall a, b :: a in ids && b in ids && Less(a, b) ==> score(a) <= score(b)
  }

  lemma MonotoneListing(ids: set<string>, score: Scoring)
    requires Monotone(ids, score)
    ensures Listing(Scored(ids, score)) == Listing(Flat(ids))
  {
    var z, l := Scored(ids, score), Listing(Flat(ids));
    ListingIsDescending(ids);
    assert IsListing(Flat(ids), l);
    forall i, j | 0 <= i < j < |l| ensures Above(z, l[i], l[j]) {
      assert l[i] in l && l[j] in l;
    }
    ListingIsUnique(z, l);
  }

  lemma KeptIds(z: ZSet, max: nat)
    ensures Elements(Listing(Keep(z, max))) == Keep(z, max).Keys
  {
    assert IsListing(Keep(z, max), Listing(Keep(z, max)));
  }

  lemma SimulationStep(ids: set<string>, op: Op, score: Scoring)
    requires Proper(op) && Monotone(ids, score) && (op.Add? ==> Monotone(ids + Elements(op.ids), score))
    ensures MemoryStep(Listing(Flat(ids)), op) == Listing(Flat(IdsAfter(ids, op, score)))
    ensures Monotone(IdsAfter(ids, op, score), score)
  {
    ListingIsDescending(ids);
    if op.Trim? {
      var flat, scored := Flat(ids), Scored(ids, score);
      MonotoneListing(ids, score);
      ListingOfKeep(flat, op.max);
      ListingOfKeep(scored, op.max);
      assert flat.Keys == scored.Keys && |flat.Keys| == |flat| && |scored.Keys| == |scored|;
      KeptIds(flat, op.max);
      KeptIds(scored, op.max);
      assert Keep(flat, op.max) == Flat(Keep(flat, op.max).Keys);
    }
  }

  ghost predicate RunOver(run: seq<Op>, universe: set<string>) {
    forall i :: 0 <= i < |run| ==> Proper(run[i]) && (run[i].Add? ==> Elements(run[i].ids) <= universe)
  }

  lemma {:induction false} Simulation(run: seq<Op>, universe: set<string>, score: Scoring)
    requires RunOver(run, universe) && Monotone(universe, score)
    ensures RedisRun(run, score).Keys <= universe
    ensures MemoryRun(run) == Listing(Flat(RedisRun(run, score).Keys))
    ensures MemoryRun(run) == Listing(RedisRun(run, score))
  {
    var z := RedisRun(run, score);
    if run == [] {
      ListingSize(Flat({}));
    } else {
      var op, before := run[|run| - 1], RedisRun(run[..|run| - 1], score);
      Simulation(run[..|run| - 1], universe, score);
      RunIsScored(run[..|run| - 1], score);
      SimulationStep(before.Keys, op, score);
      StepOnIds(before.Keys, op, score);
    }
    RunIsScored(run, score);
    MonotoneListing(z.Keys, score);
  }

  /** Every run over the ids of `universe` reads the same from both stores exactly when
      the scores never contradict the order of those ids. */
  lemma StoresAgreeIffMonotone(universe: set<string>, score: Scoring)
    ensures (forall run :: RunOver(run, universe) ==> MemoryRun(run) == Listing(RedisRun(run, score)))
       <==> Monotone(universe, score)
  {
    if Monotone(universe, score) {
      forall run | RunOver(run, universe) ensures MemoryRun(run) == Listing(RedisRun(run, score)) {
        Simulation(run, universe, score);
      }
    } else {
      var a, b :| a in universe && b in universe && Less(a, b) && score(a) > score(b);
      var run := [Add([a, b])];
      StoresDisagree(a, b, score);
      assert RunOver(run, universe);
    }
  }

  lemma StoresDisagree(a: string, b: string, score: Scoring)
    requires Less(a, b) && score(a) > score(b)
    ensures MemoryRun([Add([a, b])]) == [b, a] && Listing(RedisRun([Add([a, b])], score)) == [a, b]
    ensures a != b
  {
    LessIsIrreflexive(a);
    OneAdd([a, b], score);
    assert Elements([a, b]) == {a, b};
    TwoMembers(Scored({a, b}, score), a, b);
    TwoMembers(Flat({a, b}), b, a);
  }

  lemma OneAdd(ids: seq<string>, score: Scoring)
    ensures RedisRun([Add(ids)], score) == Scored(Elements(ids), score)
    ensures MemoryRun([Add(ids)]) == Listing(Flat(Elements(ids)))
  {
    assert [] + [Add(ids)] == [Add(ids)];
    RunSnoc([], Add(ids), score);
    StepOnIds({}, Add(ids), score);
    assert Scored({}, score) == map[];
    assert {} + Elements(ids) == Elements(ids) && Elements(MemoryRun([])) + Elements(ids) == Elements(ids);
  }

  lemma TwoMembers(z: ZSet, a: string, b: string)
    requires z.Keys == {a, b} && Above(z, a, b)
    ensures Listing(z) == [a, b] && Keep(z, 1) == map[a := z[a]]
  {
    ListingIsUnique(z, [a, b]);
    AtPlace(z, 0);
    AtPlace(z, 1);
    AboveIsAsymmetric(z, a, b);
  }

  /** Counts and slices follow the listing. */
  lemma SameSlices(run: seq<Op>, universe: set<string>, score: Scoring,
                   start: Results.Option<nat>, stop: Results.Option<nat>)
    requires RunOver(run, universe) && Monotone(universe, score)
    requires stop.None? || (stop.value != 0 && (start.Some? ==> start.value <= stop.value))
    ensures PythonWindow(MemoryRun(run), start, stop) == RedisWindow(Listing(RedisRun(run, score)), start, stop)
    ensures |MemoryRun(run)| == |RedisRun(run, score)|
  {
    Simulation(run, universe, score);
    WindowsAgree(MemoryRun(run), start, stop);
    ListingSize(RedisRun(run, score));
  }

  // ---- trimming is not observable ----

  /** The same run with every trim left out. */
  ghost function Untrimmed(run: seq<Op>): seq<Op> {
    if run == [] then []
    else
      var rest := Untrimmed(run[..|run| - 1]);
      if run[|run| - 1].Trim? then rest else rest + [run[|run| - 1]]
  }

  /** How many ids the removals of a run take out of the untrimmed feed. */
  ghost function Hits(run: seq<Op>, score: Scoring): nat {
    if run == [] then 0
    else
      var op, rest := run[|run| - 1], run[..|run| - 1];
      Hits(rest, score) +
      if op.Remove? then |RedisRun(Untrimmed(rest), score).Keys * Elements(op.ids)| else 0
  }

  /** A removal hits as many as the untrimmed feed loses. */
  lemma HitsAreLosses(run: seq<Op>, ids: seq<string>, score: Scoring)
    ensures Hits(run + [Remove(ids)], score) - Hits(run, score)
         == |RedisRun(Untrimmed(run), score)| - |RedisRun(Untrimmed(run + [Remove(ids)]), score)|
  {
    var f := RedisRun(Untrimmed(run), score);
    RunSnoc(run, Remove(ids), score);
    RunSnoc(Untrimmed(run), Remove(ids), score);
    assert (run + [Remove(ids)])[..|run|] == run;
    hide RedisRun;
    var left := Without(f, ids);
    assert left.Keys == f.Keys - (f.Keys * Elements(ids));
    assert |left.Keys| == |left| && |f.Keys| == |f|;
  }

  lemma AddKeepsTop(t: set<string>, f: set<string>, added: set<string>, score: Scoring, n: int)
    requires HoldsTop(Scored(t, score), Scored(f, score), n)
    ensures HoldsTop(Scored(t + added, score), Scored(f + added, score), n)
  {
    var f', t' := Scored(f + added, score), Scored(t + added, score);
    assert t <= f by {
      forall m | m in t ensures m in f {
        assert m in Scored(t, score);
      }
    }
    forall m | InTop(f', n, m) ensures m in t' {
      if m !in added {
        PartHasFewerBetter(Scored(f, score), f', m);
        assert InTop(Scored(f, score), n, m);
      }
    }
  }

  lemma TrimKeepsTop(t: ZSet, f: ZSet, n: int, max: int)
    requires HoldsTop(t, f, n) && n <= max
    ensures HoldsTop(Keep(t, max), f, n)
  {
    forall m | InTop(f, n, m) ensures m in Keep(t, max) {
      PartHasFewerBetter(t, f, m);
    }
  }

  /** Removing ids moves what lies below them up by at most their number. */
  lemma RemoveKeepsTop(t: set<string>, f: set<string>, removed: set<string>, score: Scoring, n: int)
    requires HoldsTop(Scored(t, score), Scored(f, score), n)
    ensures HoldsTop(Scored(t - removed, score), Scored(f - removed, score), n - |f * removed|)
  {
    var z, z' := Scored(f, score), Scored(f - removed, score);
    assert t <= f by {
      forall m | m in t ensures m in f {
        assert m in Scored(t, score);
      }
    }
    forall m | InTop(z', n - |f * removed|, m) ensures m in t - removed {
      assert forall x :: x in Better(z, m) ==> x in Better(z', m) || x in f * removed;
      SubsetSize(Better(z, m), Better(z', m) + f * removed);
      assert InTop(z, n, m);
      assert m in Scored(t, score);
    }
  }

  lemma TopStep(t: set<string>, f: set<string>, op: Op, score: Scoring, n: int)
    requires HoldsTop(Scored(t, score), Scored(f, score), n) && (op.Trim? ==> n <= op.max)
    ensures op.Trim? ==> HoldsTop(RedisStep(Scored(t, score), op, score), Scored(f, score), n)
    ensures op.Add? ==>
      HoldsTop(RedisStep(Scored(t, score), op, score), RedisStep(Scored(f, score), op, score), n)
    ensures op.Remove? ==>
      HoldsTop(RedisStep(Scored(t, score), op, score), RedisStep(Scored(f, score), op, score),
               n - |f * Elements(op.ids)|)
  {
    StepOnIds(t, op, score);
    StepOnIds(f, op, score);
    match op
    case Add(ids) => AddKeepsTop(t, f, Elements(ids), score, n);
    case Remove(ids) => RemoveKeepsTop(t, f, Elements(ids), score, n);
    case Trim(m) =>
      TrimRanks(Scored(t, score), m);
      TrimKeepsTop(Scored(t, score), Scored(f, score), n, m);
  }

  lemma RunSnoc(run: seq<Op>, op: Op, score: Scoring)
    ensures RedisRun(run + [op], score) == RedisStep(RedisRun(run, score), op, score)
    ensures MemoryRun(run + [op]) == MemoryStep(MemoryRun(run), op)
    ensures Untrimmed(run + [op]) == if op.Trim? then Untrimmed(run) else Untrimmed(run) + [op]
    ensures Hits(run + [op], score) == Hits(run, score) +
      if op.Remove? then |RedisRun(Untrimmed(run), score).Keys * Elements(op.ids)| else 0
  {
    assert (run + [op])[..|run|] == run;
  }

  /** Reads down to place `max` minus the removals that hit cannot tell whether, when or
      how often the feed was trimmed; nothing foreign ever shows up. */
  lemma {:induction false} TrimmedFeedHoldsTop(run: seq<Op>, score: Scoring, max: nat)
    requires forall i :: 0 <= i < |run| && run[i].Trim? ==> max <= run[i].max
    ensures HoldsTop(RedisRun(run, score), RedisRun(Untrimmed(run), score), max - Hits(run, score))
  {
    if run != [] {
      var op, rest := run[|run| - 1], run[..|run| - 1];
      TrimmedFeedHoldsTop(rest, score, max);
      assert run == rest + [op];
      RunSnoc(rest, op, score);
      RunSnoc(Untrimmed(rest), op, score);
      RunIsScored(rest, score);
      RunIsScored(Untrimmed(rest), score);
      TopStep(RedisRun(rest, score).Keys, RedisRun(Untrimmed(rest), score).Keys, op, score,
              max - Hits(rest, score));
    }
  }

  lemma TrimIsUnobservable(run: seq<Op>, score: Scoring, max: nat, k: nat)
    requires forall i :: 0 <= i < |run| && run[i].Trim? ==> max <= run[i].max
    requires k + Hits(run, score) <= max
    ensures RedisRun(run, score).Keys <= RedisRun(Untrimmed(run), score).Keys
    ensures Limit(Listing(RedisRun(run, score)), 0, k) == Limit(Listing(RedisRun(Untrimmed(run), score)), 0, k)
  {
    TrimmedFeedHoldsTop(run, score, max);
    var t, f := RedisRun(run, score), RedisRun(Untrimmed(run), score);
    assert forall m :: m in t ==> m in f;
    SameReadings(t, f, max - Hits(run, score), k);
    LimitIsPrefix(Listing(t), k);
    LimitIsPrefix(Listing(f), k);
  }

  lemma LimitIsPrefix<T>(l: seq<T>, k: nat)
    ensures Limit(l, 0, k) == l[..Min(k, |l|)]
  {
  }

  /** An add-only run: no trim schedule shows in the first `max` places. */
  lemma {:induction false} AddOnlyRunsHaveNoHits(run: seq<Op>, score: Scoring)
    requires forall i :: 0 <= i < |run| ==> !run[i].Remove?
    ensures Hits(run, score) == 0
  {
    if run != [] {
      AddOnlyRunsHaveNoHits(run[..|run| - 1], score);
    }
  }
}
