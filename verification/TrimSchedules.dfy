/** When trimming at random moments (src/feeds/base/base.ts:235 and 266) shows: an exact
    condition on the operations alone, whatever the dice. */
module TrimSchedules {
  import opened Ids
  import opened Ranking
  import opened SortedSet
  import opened MemoryTimeline
  import opened TimelineRuns

  /** `run` is `ops` with trims to `max` put in anywhere. */
  ghost predicate Schedule(run: seq<Op>, ops: seq<Op>, max: nat) {
    Untrimmed(run) == ops && forall i :: 0 <= i < |run| && run[i].Trim? ==> run[i].max == max
  }

  predicate Adds(op: Op, m: string) { op.Add? && m in op.ids }

  /** Nothing from step `i` on adds `m`. */
  ghost predicate LastAddedBefore(ops: seq<Op>, i: nat, m: string) {
    forall j :: i <= j < |ops| ==> !Adds(ops[j], m)
  }

  /** Ever since `m` was last added it has been among the best `max`. */
  ghost predicate Steady(ops: seq<Op>, score: Scoring, max: nat, m: string) {
    forall i :: 0 <= i <= |ops| && LastAddedBefore(ops, i, m) ==> InTop(RedisRun(ops[..i], score), max, m)
  }

  /** So has each of the final first `k`. */
  ghost predicate SteadyTop(ops: seq<Op>, score: Scoring, max: nat, k: nat) {
    forall m :: InTop(RedisRun(ops, score), k, m) ==> Steady(ops, score, max, m)
  }

  lemma SteadySnoc(ops: seq<Op>, op: Op, score: Scoring, max: nat, m: string)
    requires Steady(ops + [op], score, max, m)
    ensures InTop(RedisRun(ops + [op], score), max, m)
    ensures Adds(op, m) || Steady(ops, score, max, m)
  {
    hide InTop, RedisRun;
    var all := ops + [op];
    assert LastAddedBefore(all, |all|, m) && all[..|all|] == all;
    if !Adds(op, m) {
      forall i | 0 <= i <= |ops| && LastAddedBefore(ops, i, m) ensures InTop(RedisRun(ops[..i], score), max, m) {
        assert LastAddedBefore(all, i, m) && all[..i] == ops[..i];
      }
    }
  }

  lemma NothingIsSteady(score: Scoring, max: nat, m: string)
    ensures !Steady([], score, max, m)
  {
    var none: seq<Op> := [];
    assert LastAddedBefore(none, 0, m) && none[..0] == none;
    assert !InTop(RedisRun(none, score), max, m);
  }

  /** A trimmed feed is a part of the untrimmed one. */
  lemma TrimmedIsPart(run: seq<Op>, ops: seq<Op>, score: Scoring, max: nat)
    requires Schedule(run, ops, max)
    ensures PartOf(RedisRun(run, score), RedisRun(ops, score))
  {
    TrimmedFeedHoldsTop(run, score, max);
  }

  lemma StepKeeps(z: ZSet, op: Op, score: Scoring, m: string)
    ensures op.Add? ==> (m in RedisStep(z, op, score) <==> m in z || m in op.ids)
    ensures op.Remove? ==> (m in RedisStep(z, op, score) <==> m in z && m !in op.ids)
  {
    if op.Add? {
      AddedMembers(z, ScoredPairs(op.ids, score), m);
      assert forall i :: 0 <= i < |op.ids| ==> ScoredPairs(op.ids, score)[i].1 == op.ids[i];
    }
  }

  lemma {:induction false} AddedMembers(z: ZSet, pairs: seq<Pair>, m: string)
    ensures m in ZAdd(z, pairs) <==> m in z || exists i :: 0 <= i < |pairs| && pairs[i].1 == m
    decreases |pairs|
  {
    if pairs != [] {
      AddedMembers(z[pairs[0].1 := pairs[0].0], pairs[1..], m);
      assert pairs == [pairs[0]] + pairs[1..];
    }
  }

  /** What is steady survives every schedule. */
  lemma {:induction false} SteadySurvives(run: seq<Op>, ops: seq<Op>, score: Scoring, max: nat, m: string)
    requires Schedule(run, ops, max) && Steady(ops, score, max, m)
    ensures m in RedisRun(run, score)
    decreases |run|
  {
    hide Steady, RedisStep, Hits;
    if run == [] {
      NothingIsSteady(score, max, m);
    } else {
      var op, before := run[|run| - 1], run[..|run| - 1];
      assert run == before + [op];
      RunSnoc(before, op, score);
      var rest := Untrimmed(before);
      assert Schedule(before, rest, max);
      if op.Trim? {
        SteadySurvives(before, ops, score, max, m);
        TrimmedIsPart(before, ops, score, max);
        SteadyIsInTop(ops, score, max, m);
        SurvivesTrim(RedisRun(before, score), RedisRun(ops, score), max, m, score);
      } else {
        assert ops == rest + [op];
        SteadySnoc(rest, op, score, max, m);
        RunSnoc(rest, op, score);
        StepKeeps(RedisRun(before, score), op, score, m);
        StepKeeps(RedisRun(rest, score), op, score, m);
        if !Adds(op, m) {
          SteadySurvives(before, rest, score, max, m);
        }
      }
    }
  }

  lemma SteadyIsInTop(ops: seq<Op>, score: Scoring, max: nat, m: string)
    requires Steady(ops, score, max, m)
    ensures InTop(RedisRun(ops, score), max, m)
  {
    assert LastAddedBefore(ops, |ops|, m) && ops[..|ops|] == ops;
  }

  lemma SurvivesTrim(t: ZSet, f: ZSet, max: nat, m: string, score: Scoring)
    requires PartOf(t, f) && m in t && InTop(f, max, m)
    ensures m in RedisStep(t, Op.Trim(max), score)
  {
    PartHasFewerBetter(t, f, m);
    TrimRanks(t, max);
  }

  /** The schedule that trims once, after step `i`. */
  function TrimmedOnce(ops: seq<Op>, i: nat, max: nat): seq<Op>
    requires i <= |ops|
  {
    ops[..i] + [Op.Trim(max)] + ops[i..]
  }

  lemma {:induction false} UntrimmedConcat(a: seq<Op>, b: seq<Op>)
    ensures Untrimmed(a + b) == Untrimmed(a) + Untrimmed(b)
    decreases |b|
  {
    hide RedisRun, RedisStep, MemoryRun, Hits;
    if b == [] {
      assert a + b == a;
    } else {
      var rest, op := b[..|b| - 1], b[|b| - 1];
      assert a + b == (a + rest) + [op] && b == rest + [op];
      UntrimmedConcat(a, rest);
      RunSnoc(a + rest, op, x => 0.0);
      RunSnoc(rest, op, x => 0.0);
    }
  }

  lemma {:induction false} UntrimmedPlain(ops: seq<Op>)
    requires forall i :: 0 <= i < |ops| ==> !ops[i].Trim?
    ensures Untrimmed(ops) == ops
  {
    if ops != [] {
      UntrimmedPlain(ops[..|ops| - 1]);
      assert ops == ops[..|ops| - 1] + [ops[|ops| - 1]];
    }
  }

  lemma TrimmedOnceIsSchedule(ops: seq<Op>, i: nat, max: nat)
    requires i <= |ops| && forall j :: 0 <= j < |ops| ==> !ops[j].Trim?
    ensures Schedule(TrimmedOnce(ops, i, max), ops, max)
  {
    var trim := [Op.Trim(max)];
    UntrimmedPlain(ops[..i]);
    UntrimmedPlain(ops[i..]);
    UntrimmedConcat(ops[..i], trim);
    UntrimmedConcat(ops[..i] + trim, ops[i..]);
    assert Untrimmed(trim) == [] by {
      assert trim[..0] == [];
    }
    assert ops[..i] + ops[i..] == ops;
  }

  /** What is gone stays gone until it is added again. */
  lemma {:induction false} GoneStaysGone(before: seq<Op>, more: seq<Op>, score: Scoring, m: string)
    requires m !in RedisRun(before, score)
    requires forall j :: 0 <= j < |more| ==> !Adds(more[j], m) && !more[j].Trim?
    ensures m !in RedisRun(before + more, score)
    decreases |more|
  {
    hide RedisStep, Hits;
    if more == [] {
      assert before + more == before;
    } else {
      var rest, op := more[..|more| - 1], more[|more| - 1];
      assert before + more == (before + rest) + [op];
      GoneStaysGone(before, rest, score, m);
      RunSnoc(before + rest, op, score);
      StepKeeps(RedisRun(before + rest, score), op, score, m);
    }
  }

  lemma TrimNow(run: seq<Op>, score: Scoring, max: nat)
    ensures RedisRun(run + [Op.Trim(max)], score) == Keep(RedisRun(run, score), max)
  {
    hide RedisRun, ZRemRangeByRank, Keep;
    RunSnoc(run, Op.Trim(max), score);
    TrimRanks(RedisRun(run, score), max);
  }

  lemma NotKept(z: ZSet, max: nat, m: string)
    requires !InTop(z, max, m)
    ensures m !in Keep(z, max)
  {
  }

  /** One trim at an unsteady moment loses the id for good. */
  lemma UnsteadyIsLost(ops: seq<Op>, i: nat, score: Scoring, max: nat, m: string)
    requires i <= |ops| && forall j :: 0 <= j < |ops| ==> !ops[j].Trim?
    requires LastAddedBefore(ops, i, m) && !InTop(RedisRun(ops[..i], score), max, m)
    ensures m !in RedisRun(TrimmedOnce(ops, i, max), score)
  {
    hide RedisRun, InTop;
    var trim := Op.Trim(max);
    TrimNow(ops[..i], score, max);
    NotKept(RedisRun(ops[..i], score), max, m);
    var more := ops[i..];
    forall j | 0 <= j < |more| ensures !Adds(more[j], m) && !more[j].Trim? {
      assert more[j] == ops[i + j];
    }
    GoneStaysGone(ops[..i] + [trim], more, score, m);
  }

  /** The first `k` entries after a run. */
  ghost function TopOf(run: seq<Op>, score: Scoring, k: nat): seq<string> {
    Limit(Listing(RedisRun(run, score)), 0, k)
  }

  lemma TopHolds(run: seq<Op>, score: Scoring, k: nat, m: string)
    ensures m in TopOf(run, score, k) <==> InTop(RedisRun(run, score), k, m)
  {
    hide RedisRun, Listing, InTop;
    InTopIsPrefix(RedisRun(run, score), k, m);
    LimitIsPrefix(Listing(RedisRun(run, score)), k);
  }

  /** No schedule of trims shows in the first `k` places exactly when each of the final
      first `k` has been among the best `max` ever since it was last added. */
  lemma TrimIsInvisibleIff(ops: seq<Op>, score: Scoring, max: nat, k: nat)
    requires forall j :: 0 <= j < |ops| ==> !ops[j].Trim?
    ensures (forall run :: Schedule(run, ops, max) ==> TopOf(run, score, k) == TopOf(ops, score, k))
       <==> SteadyTop(ops, score, max, k)
  {
    hide Schedule, Steady, InTop, RedisRun, TopOf;
    if SteadyTop(ops, score, max, k) {
      forall run | Schedule(run, ops, max) ensures TopOf(run, score, k) == TopOf(ops, score, k) {
        SteadyReads(run, ops, score, max, k);
      }
    } else {
      var m :| InTop(RedisRun(ops, score), k, m) && !Steady(ops, score, max, m);
      UnsteadyShows(ops, score, max, k, m);
    }
  }

  lemma SteadyReads(run: seq<Op>, ops: seq<Op>, score: Scoring, max: nat, k: nat)
    requires Schedule(run, ops, max)
    requires SteadyTop(ops, score, max, k)
    ensures TopOf(run, score, k) == TopOf(ops, score, k)
  {
    hide Steady, RedisRun, Listing, InTop;
    var t, f := RedisRun(run, score), RedisRun(ops, score);
    TrimmedIsPart(run, ops, score, max);
    forall m | InTop(f, k, m) ensures m in t {
      SteadySurvives(run, ops, score, max, m);
    }
    SameReadings(t, f, k, k);
    LimitIsPrefix(Listing(t), k);
    LimitIsPrefix(Listing(f), k);
  }

  lemma UnsteadyShows(ops: seq<Op>, score: Scoring, max: nat, k: nat, m: string)
    requires forall j :: 0 <= j < |ops| ==> !ops[j].Trim?
    requires InTop(RedisRun(ops, score), k, m) && !Steady(ops, score, max, m)
    ensures exists run :: Schedule(run, ops, max) && TopOf(run, score, k) != TopOf(ops, score, k)
  {
    var i :| 0 <= i <= |ops| && LastAddedBefore(ops, i, m) && !InTop(RedisRun(ops[..i], score), max, m);
    hide RedisRun, Listing, TopOf;
    var run := TrimmedOnce(ops, i, max);
    TrimmedOnceIsSchedule(ops, i, max);
    UnsteadyIsLost(ops, i, score, max, m);
    TopHolds(run, score, k, m);
    TopHolds(ops, score, k, m);
    assert m in TopOf(ops, score, k) && m !in TopOf(run, score, k);
  }

  lemma {:induction false} HitsOfUntrimmed(run: seq<Op>, score: Scoring)
    ensures Hits(Untrimmed(run), score) == Hits(run, score) && Untrimmed(Untrimmed(run)) == Untrimmed(run)
  {
    if run != [] {
      var rest, op := run[..|run| - 1], run[|run| - 1];
      HitsOfUntrimmed(rest, score);
      hide RedisRun, RedisStep, MemoryRun, MemoryStep;
      assert run == rest + [op];
      RunSnoc(rest, op, score);
      RunSnoc(Untrimmed(rest), op, score);
    }
  }

  /** A condition that only counts: few removal hits keep the top steady, so trims that stay
      invisible for this reason are a special case. */
  lemma FewHitsAreSteady(ops: seq<Op>, score: Scoring, max: nat, k: nat)
    requires forall j :: 0 <= j < |ops| ==> !ops[j].Trim?
    requires k + Hits(ops, score) <= max
    ensures SteadyTop(ops, score, max, k)
  {
    hide RedisRun, Listing, SteadyTop, Hits;
    forall run | Schedule(run, ops, max) ensures TopOf(run, score, k) == TopOf(ops, score, k) {
      HitsOfUntrimmed(run, score);
      TrimIsUnobservable(run, score, max, k);
    }
    TrimIsInvisibleIff(ops, score, max, k);
  }

  // ---- a witness for every `max` ----

  lemma ListingOfRest(z: ZSet)
    requires z != map[]
    ensures |Listing(z)| == |z| && |z| > 0
    ensures Listing(z - {Listing(z)[0]}) == Listing(z)[1..]
  {
    ListingSize(z);
    var l := Listing(z);
    assert IsListing(z, l);
    DistinctPlaces(z);
    var rest := z - {l[0]};
    forall m ensures m in rest <==> m in l[1..] {
      assert l == [l[0]] + l[1..];
    }
    forall i, j | 0 <= i < j < |l| - 1 ensures Above(rest, l[1..][i], l[1..][j]) {
      assert Above(z, l[i + 1], l[j + 1]);
    }
    ListingIsUnique(rest, l[1..]);
  }

  /** For every `max`: add one more than fits, trim, remove the best. One removal has hit,
      and the last of the first `max` places is missing. */
  lemma RemovalAfterTrimShows(ids: seq<string>, score: Scoring, max: nat)
    requires |Elements(ids)| == max + 1
    ensures var l := Listing(Scored(Elements(ids), score));
            |l| == max + 1 &&
            Listing(RedisRun([Add(ids), Remove([l[0]])], score)) == l[1..] &&
            (max > 0 ==> Listing(RedisRun([Add(ids), Op.Trim(max), Remove([l[0]])], score)) == l[1..max])
    ensures var l := Listing(Scored(Elements(ids), score));
            Schedule([Add(ids), Op.Trim(max), Remove([l[0]])], [Add(ids), Remove([l[0]])], max) &&
            Hits([Add(ids), Remove([l[0]])], score) == 1
  {
    var z := Scored(Elements(ids), score);
    assert z.Keys == Elements(ids) && |z.Keys| == |z|;
    ListingSize(z);
    var l := Listing(z);
    var ops := [Add(ids), Remove([l[0]])];
    TrimmedOnceIsSchedule(ops, 1, max);
    assert TrimmedOnce(ops, 1, max) == [Add(ids), Op.Trim(max), Remove([l[0]])];
    ListingOfRest(z);
    OneAdd(ids, score);
    OneHit(ids, l[0], z, score);
    if max > 0 {
      TrimmedThenRemoved(ids, score, z, max);
    }
  }

  lemma OneHit(ids: seq<string>, best: string, z: ZSet, score: Scoring)
    requires RedisRun([Add(ids)], score) == z && best in z
    ensures RedisRun([Add(ids), Remove([best])], score) == z - {best}
    ensures Hits([Add(ids), Remove([best])], score) == 1
  {
    var add := [Add(ids)];
    assert [Add(ids), Remove([best])] == add + [Remove([best])];
    RunSnoc(add, Remove([best]), score);
    AddOnlyRunsHaveNoHits(add, score);
    UntrimmedPlain(add);
    assert z.Keys * Elements([best]) == {best};
    assert Without(z, [best]) == z - {best};
  }

  lemma TrimmedThenRemoved(ids: seq<string>, score: Scoring, z: ZSet, max: nat)
    requires RedisRun([Add(ids)], score) == z && |z| == max + 1 && max > 0
    ensures |Listing(z)| == max + 1
    ensures Listing(RedisRun([Add(ids), Op.Trim(max), Remove([Listing(z)[0]])], score)) == Listing(z)[1..max]
  {
    hide RedisRun, Listing, Keep, Hits, Untrimmed, MemoryRun, MemoryStep;
    var trim := Op.Trim(max);
    ListingOfKeep(z, max);
    var kept, best := Keep(z, max), Listing(z)[0];
    TrimNow([Add(ids)], score, max);
    assert [Add(ids)] + [trim] == [Add(ids), trim];
    assert [Add(ids), trim] + [Remove([best])] == [Add(ids), trim, Remove([best])];
    RunSnoc([Add(ids), trim], Remove([best]), score);
    assert Without(kept, [best]) == kept - {best};
    ListingOfRest(kept);
    assert Listing(z)[..max][1..] == Listing(z)[1..max];
  }
}
