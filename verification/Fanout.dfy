/** src/feedManagers/base.py (`create_fanout_tasks`, `fanout`), its port in
    src/feedManagers/base.ts and the fanout worker of src/task/setupTask.ts: one job brings
    one operation to every follower's feed of every feed class, chunk by chunk. */
module Fanout {
  import opened Ranking
  import opened SortedSet
  import opened TimelineRuns
  import opened TrimSchedules
  import opened Chunks
  import HashCache

  /** A feed class and a user. */
  type FeedKey = (string, string)

  datatype Job = Job(followerIds: seq<string>, op: Op)

  /** Only additions and removals are fanned out. */
  predicate ProperJob(job: Job) { !job.op.Trim? }

  function Times(op: Op, n: nat): seq<Op> { if n == 0 then [] else Times(op, n - 1) + [op] }

  function Count(user: string, users: seq<string>): nat {
    if users == [] then 0
    else Count(user, users[..|users| - 1]) + if users[|users| - 1] == user then 1 else 0
  }

  /** What one user's feeds should receive from a queue: no chunks, no classes, no dice. */
  function Direct(jobs: seq<Job>, user: string): seq<Op> {
    if jobs == [] then []
    else
      var job := jobs[|jobs| - 1];
      Direct(jobs[..|jobs| - 1], user) + Times(job.op, Count(user, job.followerIds))
  }

  predicate AddedFor(job: Job, user: string, id: string) {
    user in job.followerIds && job.op.Add? && id in job.op.ids
  }

  predicate RemovedFor(job: Job, user: string, id: string) {
    user in job.followerIds && job.op.Remove? && id in job.op.ids
  }

  /** No job from the given place on removes the id from the user's feeds. */
  ghost predicate Spared(jobs: seq<Job>, place: nat, user: string, id: string) {
    forall j :: place <= j < |jobs| ==> !RemovedFor(jobs[j], user, id)
  }

  /** Some job adds it, and none behind that one removes it. */
  ghost predicate AddedLast(jobs: seq<Job>, user: string, id: string) {
    exists j :: 0 <= j < |jobs| && AddedFor(jobs[j], user, id) && Spared(jobs, j + 1, user, id)
  }

  lemma {:induction false} CountIsMembership(user: string, users: seq<string>)
    ensures Count(user, users) > 0 <==> user in users
  {
    if users != [] {
      CountIsMembership(user, users[..|users| - 1]);
      assert users == users[..|users| - 1] + [users[|users| - 1]];
    }
  }

  lemma LastJob(rest: seq<Job>, job: Job, user: string, id: string)
    ensures Spared(rest + [job], 0, user, id) <==> Spared(rest, 0, user, id) && !RemovedFor(job, user, id)
    ensures AddedLast(rest + [job], user, id) <==>
      AddedFor(job, user, id) || (AddedLast(rest, user, id) && !RemovedFor(job, user, id))
  {
    hide AddedFor, RemovedFor;
    var jobs := rest + [job];
    assert jobs[|rest|] == job && forall i :: 0 <= i < |rest| ==> jobs[i] == rest[i];
    if AddedFor(job, user, id) {
      assert Spared(jobs, |rest| + 1, user, id);
    }
    forall i: nat | i <= |rest| ensures Spared(jobs, i, user, id) <==> Spared(rest, i, user, id) && !RemovedFor(job, user, id) {
    }
    if j :| 0 <= j < |rest| && AddedFor(rest[j], user, id) && Spared(rest, j + 1, user, id) {
      assert AddedFor(jobs[j], user, id);
    }
  }

  lemma JobHolds(run: seq<Op>, op: Op, n: nat, id: string, score: Scoring)
    requires !op.Trim?
    ensures id in RedisRun(run + Times(op, n), score) <==>
      (n > 0 && op.Add? && id in op.ids) || (id in RedisRun(run, score) && !(n > 0 && op.Remove? && id in op.ids))
  {
    hide RedisRun, RedisStep, Times;
    if n > 0 {
      RedeliveryChangesNothing(run, op, score, n);
      StepKeeps(RedisRun(run, score), op, score, id);
    } else {
      TimesNone(run, op);
    }
  }

  /** What a queue comes to, job after job: an id is in the feed exactly when a job added it
      and none after that removed it, or it was there before and none removed it. */
  lemma {:induction false} DirectHolds(before: seq<Op>, jobs: seq<Job>, user: string, id: string, score: Scoring)
    requires forall i :: 0 <= i < |jobs| ==> ProperJob(jobs[i])
    ensures id in RedisRun(before + Direct(jobs, user), score) <==>
      AddedLast(jobs, user, id) || (id in RedisRun(before, score) && Spared(jobs, 0, user, id))
  {
    hide RedisRun, AddedLast, Spared, Times;
    if jobs == [] {
      NoJobs(user, id);
      assert before + Direct(jobs, user) == before;
    } else {
      var rest, job := jobs[..|jobs| - 1], jobs[|jobs| - 1];
      var run, n := before + Direct(rest, user), Count(user, job.followerIds);
      DirectHolds(before, rest, user, id, score);
      LastJob(rest, job, user, id);
      assert jobs == rest + [job];
      CountIsMembership(user, job.followerIds);
      JobHolds(run, job.op, n, id, score);
      assert before + Direct(jobs, user) == run + Times(job.op, n);
    }
  }

  lemma NoJobs(user: string, id: string)
    ensures !AddedLast([], user, id) && Spared([], 0, user, id)
  {
  }

  lemma {:induction false} CountConcat(user: string, a: seq<string>, b: seq<string>)
    ensures Count(user, a + b) == Count(user, a) + Count(user, b)
    decreases |b|
  {
    if b == [] {
      assert a + b == a;
    } else {
      assert (a + b)[..|a + b| - 1] == a + b[..|b| - 1];
      CountConcat(user, a, b[..|b| - 1]);
    }
  }

  lemma {:induction false} TimesAdd(op: Op, m: nat, n: nat)
    ensures Times(op, m + n) == Times(op, m) + Times(op, n)
  {
    if n == 0 {
      assert Times(op, m) + [] == Times(op, m);
    } else {
      TimesAdd(op, m, n - 1);
    }
  }

  /** Distinct followers are visited exactly once. */
  lemma {:induction false} CountDistinct(user: string, users: seq<string>)
    requires forall i, j :: 0 <= i < j < |users| ==> users[i] != users[j]
    ensures Count(user, users) == if user in users then 1 else 0
  {
    if users != [] {
      CountDistinct(user, users[..|users| - 1]);
      assert users == users[..|users| - 1] + [users[|users| - 1]];
    }
  }

  type Logs = map<FeedKey, seq<Op>>

  ghost function LogOf(logs: Logs, c: string, u: string): seq<Op> {
    if (c, u) in logs then logs[(c, u)] else []
  }

  function Content(feeds: map<FeedKey, ZSet>, c: string, u: string): ZSet {
    if (c, u) in feeds then feeds[(c, u)] else map[]
  }

  /** Every feed is what its commands make of it, and trims cut at `max`. */
  ghost predicate Replayed(feeds: map<FeedKey, ZSet>, logs: Logs, score: Scoring, max: nat) {
    forall c, u :: Content(feeds, c, u) == RedisRun(LogOf(logs, c, u), score) && TrimsAt(LogOf(logs, c, u), max)
  }

  ghost predicate TrimsAt(log: seq<Op>, max: nat) {
    forall i :: 0 <= i < |log| && log[i].Trim? ==> log[i].max == max
  }

  /** Between two states one feed received `ops`, and otherwise only trims. */
  ghost predicate Received(before: Logs, after: Logs, c: string, u: string, ops: seq<Op>) {
    Untrimmed(LogOf(after, c, u)) == Untrimmed(LogOf(before, c, u)) + ops
  }

  /** What one feed received before, trims left out, and then from a queue. */
  ghost function WithDirect(logs: Logs, c: string, u: string, jobs: seq<Job>): seq<Op> {
    Untrimmed(LogOf(logs, c, u)) + Direct(jobs, u)
  }

  ghost predicate Untouched(before: Logs, after: Logs, c: string, u: string) {
    LogOf(after, c, u) == LogOf(before, c, u)
  }

  lemma ReceivedTwice(a: Logs, b: Logs, d: Logs, c: string, u: string, ops: seq<Op>, more: seq<Op>)
    requires Received(a, b, c, u, ops) && Received(b, d, c, u, more)
    ensures Received(a, d, c, u, ops + more)
  {
  }

  lemma UntouchedReceived(a: Logs, b: Logs, d: Logs, c: string, u: string, ops: seq<Op>)
    requires Received(a, b, c, u, ops) && Untouched(b, d, c, u)
    ensures Received(a, d, c, u, ops)
  {
  }

  class FeedManager {
    const feedClasses: seq<string>
    const fanoutChunkSize: nat
    const maxLength: nat
    const score: Scoring
    var feeds: map<FeedKey, ZSet>
    /** Every command each feed received, trims included. */
    ghost var logs: Logs

    constructor (feedClasses: seq<string>, fanoutChunkSize: nat, maxLength: nat, score: Scoring)
      requires fanoutChunkSize > 0 && HashCache.NoDuplicates(feedClasses)
      ensures Valid() && logs == map[]
      ensures this.feedClasses == feedClasses && this.fanoutChunkSize == fanoutChunkSize
      ensures this.maxLength == maxLength && this.score == score
    {
      this.feedClasses := feedClasses;
      this.fanoutChunkSize := fanoutChunkSize;
      this.maxLength := maxLength;
      this.score := score;
      this.feeds := map[];
      this.logs := map[];
    }

    ghost predicate Valid()
      reads this
    {
      fanoutChunkSize > 0 && HashCache.NoDuplicates(feedClasses) && Replayed(feeds, logs, score, maxLength)
    }

    /** One operation on one feed; an addition is sometimes followed by a trim. */
    method Operate(c: string, u: string, op: Op, roll: bool)
      requires Valid() && !op.Trim?
      modifies this
      ensures Valid()
      ensures Received(old(logs), logs, c, u, [op])
      ensures forall d, v :: d != c || v != u ==> Untouched(old(logs), logs, d, v)
    {
      hide RedisRun, ZAdd, ZRemRangeByRank, Untrimmed, TrimsAt;
      ghost var log := LogOf(logs, c, u) + [op];
      var z := Content(feeds, c, u);
      Extended(LogOf(logs, c, u), op, score, maxLength);
      z := if op.Add? then ZAdd(z, ScoredPairs(op.ids, score)) else Without(z, op.ids);
      if op.Add? && roll {
        Extended(log, Op.Trim(maxLength), score, maxLength);
        z := TrimmedCopy(z, maxLength);
        log := log + [Op.Trim(maxLength)];
      }
      ReplayedWith(feeds, logs, score, maxLength, c, u, z, log);
      feeds, logs := feeds[(c, u) := z], logs[(c, u) := log];
    }

    /** `fanout`: one chunk of users, one feed class. */
    method FanoutChunk(userIds: seq<string>, c: string, op: Op)
      requires Valid() && !op.Trim?
      modifies this
      ensures Valid()
      ensures forall u :: Received(old(logs), logs, c, u, Times(op, Count(u, userIds)))
      ensures forall d, u :: d != c ==> Untouched(old(logs), logs, d, u)
    {
      hide Replayed, Untrimmed;
      ghost var l0 := logs;
      for i := 0 to |userIds|
        invariant Valid()
        invariant forall u :: Received(l0, logs, c, u, Times(op, Count(u, userIds[..i])))
        invariant forall d, u :: d != c ==> Untouched(l0, logs, d, u)
      {
        assert userIds[..i + 1][..i] == userIds[..i] && userIds[..i + 1][i] == userIds[i];
        ghost var before := logs;
        var roll: bool := *;
        Operate(c, userIds[i], op, roll);
        forall d, u | d != c ensures Untouched(l0, logs, d, u) {
          UntouchedTwice(l0, before, logs, d, u);
        }
        ghost var seen := userIds[..i + 1];
        forall u ensures Received(l0, logs, c, u, Times(op, Count(u, seen))) {
          if u == userIds[i] {
            ReceivedTwice(l0, before, logs, c, u, Times(op, Count(u, userIds[..i])), [op]);
          } else {
            UntouchedReceived(l0, before, logs, c, u, Times(op, Count(u, userIds[..i])));
          }
        }
      }
      assert userIds[..|userIds|] == userIds;
    }

    /** All chunks of one feed class. */
    method FanoutClass(followerIds: seq<string>, c: string, op: Op)
      requires Valid() && !op.Trim?
      modifies this
      ensures Valid()
      ensures forall u :: Received(old(logs), logs, c, u, Times(op, Count(u, followerIds)))
      ensures forall d, u :: d != c ==> Untouched(old(logs), logs, d, u)
    {
      hide Replayed, Untrimmed;
      ghost var l0 := logs;
      var chunks := Chunk(followerIds, fanoutChunkSize);
      for i := 0 to |chunks|
        invariant Valid()
        invariant forall u :: Received(l0, logs, c, u, Times(op, Count(u, Concat(chunks[..i]))))
        invariant forall d, u :: d != c ==> Untouched(l0, logs, d, u)
      {
        ghost var before := logs;
        FanoutChunk(chunks[i], c, op);
        forall d, u | d != c ensures Untouched(l0, logs, d, u) {
          UntouchedTwice(l0, before, logs, d, u);
        }
        ghost var seen := chunks[..i + 1];
        forall u ensures Received(l0, logs, c, u, Times(op, Count(u, Concat(seen)))) {
          ConcatSnoc(chunks, i);
          CountConcat(u, Concat(chunks[..i]), chunks[i]);
          TimesAdd(op, Count(u, Concat(chunks[..i])), Count(u, chunks[i]));
          ReceivedTwice(l0, before, logs, c, u,
                        Times(op, Count(u, Concat(chunks[..i]))), Times(op, Count(u, chunks[i])));
        }
      }
      assert chunks[..|chunks|] == chunks;
      ConcatOfChunks(followerIds, fanoutChunkSize);
    }

    /** The worker: every feed class in turn. */
    method HandleJob(job: Job)
      requires Valid() && ProperJob(job)
      modifies this
      ensures Valid()
      ensures forall c, u :: c in feedClasses ==>
        Received(old(logs), logs, c, u, Times(job.op, Count(u, job.followerIds)))
      ensures forall c, u :: c !in feedClasses ==> Untouched(old(logs), logs, c, u)
    {
      hide Replayed, Untrimmed;
      ghost var l0 := logs;
      for i := 0 to |feedClasses|
        invariant Valid()
        invariant forall c, u :: c in feedClasses[..i] ==>
          Received(l0, logs, c, u, Times(job.op, Count(u, job.followerIds)))
        invariant forall c, u :: c !in feedClasses[..i] ==> Untouched(l0, logs, c, u)
      {
        assert feedClasses[..i + 1] == feedClasses[..i] + [feedClasses[i]];
        assert feedClasses[i] !in feedClasses[..i];
        ghost var before := logs;
        FanoutClass(job.followerIds, feedClasses[i], job.op);
        ghost var seen := feedClasses[..i + 1];
        forall c, u | c !in seen ensures Untouched(l0, logs, c, u) {
          UntouchedTwice(l0, before, logs, c, u);
        }
        forall c, u | c in seen
          ensures Received(l0, logs, c, u, Times(job.op, Count(u, job.followerIds)))
        {
          if c == feedClasses[i] {
            ReceivedAfter(l0, before, logs, c, u, Times(job.op, Count(u, job.followerIds)));
          } else {
            UntouchedReceived(l0, before, logs, c, u, Times(job.op, Count(u, job.followerIds)));
          }
        }
      }
      assert feedClasses[..|feedClasses|] == feedClasses;
    }

    /** A queue drained in order: every feed of every follower received exactly the queue's
        operations for that follower, whatever the chunk size, with only trims in between; and
        it reads like its whole untrimmed history wherever the trims cannot reach. */
    method DrainQueue(jobs: seq<Job>)
      requires Valid() && forall i :: 0 <= i < |jobs| ==> ProperJob(jobs[i])
      modifies this
      ensures Valid()
      ensures forall c, u :: c in feedClasses ==> Received(old(logs), logs, c, u, Direct(jobs, u))
      ensures forall c, u :: c !in feedClasses ==> Untouched(old(logs), logs, c, u)
      ensures forall c, u, k: nat ::
        c in feedClasses && SteadyTop(WithDirect(old(logs), c, u, jobs), score, maxLength, k) ==>
        Limit(Listing(Content(feeds, c, u)), 0, k) == TopOf(WithDirect(old(logs), c, u, jobs), score, k)
      ensures forall c, u, id :: c in feedClasses && id in Content(feeds, c, u) ==>
        AddedLast(jobs, u, id) || (id in RedisRun(Untrimmed(LogOf(old(logs), c, u)), score) && Spared(jobs, 0, u, id))
    {
      hide Replayed, Untrimmed, SteadyTop, TopOf, Listing, Limit;
      ghost var l0 := logs;
      for i := 0 to |jobs|
        invariant Valid()
        invariant forall c, u :: c in feedClasses ==> Received(l0, logs, c, u, Direct(jobs[..i], u))
        invariant forall c, u :: c !in feedClasses ==> Untouched(l0, logs, c, u)
      {
        assert jobs[..i + 1][..i] == jobs[..i] && jobs[..i + 1][i] == jobs[i];
        ghost var before := logs;
        HandleJob(jobs[i]);
        forall c, u | c !in feedClasses ensures Untouched(l0, logs, c, u) {
          UntouchedTwice(l0, before, logs, c, u);
        }
        ghost var seen := jobs[..i + 1];
        forall c, u | c in feedClasses ensures Received(l0, logs, c, u, Direct(seen, u)) {
          ReceivedTwice(l0, before, logs, c, u, Direct(jobs[..i], u),
                        Times(jobs[i].op, Count(u, jobs[i].followerIds)));
        }
      }
      assert jobs[..|jobs|] == jobs;
      forall c, u, k: nat | c in feedClasses && SteadyTop(WithDirect(l0, c, u, jobs), score, maxLength, k)
        ensures Limit(Listing(Content(feeds, c, u)), 0, k) == TopOf(WithDirect(l0, c, u, jobs), score, k)
      {
        FeedReadsAs(feeds, logs, score, maxLength, c, u, WithDirect(l0, c, u, jobs), k);
      }
      hide RedisRun, AddedLast, Spared;
      forall c, u, id | c in feedClasses && id in Content(feeds, c, u)
        ensures AddedLast(jobs, u, id) || (id in RedisRun(Untrimmed(LogOf(l0, c, u)), score) && Spared(jobs, 0, u, id))
      {
        FeedIsPart(feeds, logs, score, maxLength, c, u, id);
        DirectHolds(Untrimmed(LogOf(l0, c, u)), jobs, u, id, score);
      }
    }
  }

  lemma UntouchedTwice(a: Logs, b: Logs, d: Logs, c: string, u: string)
    requires Untouched(a, b, c, u) && Untouched(b, d, c, u)
    ensures Untouched(a, d, c, u)
  {
  }

  lemma ReceivedAfter(a: Logs, b: Logs, d: Logs, c: string, u: string, ops: seq<Op>)
    requires Untouched(a, b, c, u) && Received(b, d, c, u, ops)
    ensures Received(a, d, c, u, ops)
  {
  }

  lemma Extended(log: seq<Op>, op: Op, score: Scoring, max: nat)
    requires TrimsAt(log, max) && (op.Trim? ==> op.max == max)
    ensures RedisRun(log + [op], score) == RedisStep(RedisRun(log, score), op, score)
    ensures Untrimmed(log + [op]) == if op.Trim? then Untrimmed(log) else Untrimmed(log) + [op]
    ensures TrimsAt(log + [op], max)
  {
    RunSnoc(log, op, score);
  }

  lemma ReplayedWith(feeds: map<FeedKey, ZSet>, logs: Logs, score: Scoring, max: nat,
                     c: string, u: string, z: ZSet, log: seq<Op>)
    requires Replayed(feeds, logs, score, max) && z == RedisRun(log, score) && TrimsAt(log, max)
    ensures Replayed(feeds[(c, u) := z], logs[(c, u) := log], score, max)
  {
    hide RedisRun, TrimsAt;
    var feeds', logs' := feeds[(c, u) := z], logs[(c, u) := log];
    forall d, v ensures Content(feeds', d, v) == RedisRun(LogOf(logs', d, v), score) && TrimsAt(LogOf(logs', d, v), max) {
      if d != c || v != u {
        assert Content(feeds', d, v) == Content(feeds, d, v) && LogOf(logs', d, v) == LogOf(logs, d, v);
      }
    }
  }

  /** A trim, as the sorted-set cache does it. */
  method TrimmedCopy(z: ZSet, max: nat) returns (r: ZSet)
    ensures r == ZRemRangeByRank(z, 0, -1 - max)
  {
    var cache := new RedisSortedSetCache(false, max);
    cache.z := z;
    cache.RemRangeByRank(0, -1 - max);
    r := cache.z;
  }

  // ---- what the reader of a drained feed sees ----

  /** A feed that received `ops`, with trims in between, reads as the plain, unchunked,
      untrimmed application of `ops` down to every place the trims cannot reach. */
  lemma FeedReadsAs(feeds: map<FeedKey, ZSet>, logs: Logs, score: Scoring, max: nat, c: string, u: string,
                    ops: seq<Op>, k: nat)
    requires Replayed(feeds, logs, score, max) && Untrimmed(LogOf(logs, c, u)) == ops
    requires SteadyTop(ops, score, max, k)
    ensures Limit(Listing(Content(feeds, c, u)), 0, k) == TopOf(ops, score, k)
  {
    hide SteadyTop, RedisRun, Untrimmed;
    SteadyReads(LogOf(logs, c, u), ops, score, max, k);
  }

  /** Trims only take away. */
  lemma FeedIsPart(feeds: map<FeedKey, ZSet>, logs: Logs, score: Scoring, max: nat, c: string, u: string, id: string)
    requires Replayed(feeds, logs, score, max) && id in Content(feeds, c, u)
    ensures id in RedisRun(Untrimmed(LogOf(logs, c, u)), score)
  {
    hide RedisRun, Untrimmed;
    TrimmedFeedHoldsTop(LogOf(logs, c, u), score, max);
  }

  lemma {:induction false} DirectHasNoTrims(jobs: seq<Job>, user: string)
    requires forall i :: 0 <= i < |jobs| ==> ProperJob(jobs[i])
    ensures forall j :: 0 <= j < |Direct(jobs, user)| ==> !Direct(jobs, user)[j].Trim?
  {
    if jobs != [] {
      var job := jobs[|jobs| - 1];
      DirectHasNoTrims(jobs[..|jobs| - 1], user);
      TimesHasOnly(job.op, Count(user, job.followerIds));
    }
  }

  lemma {:induction false} TimesHasOnly(op: Op, n: nat)
    ensures forall j :: 0 <= j < |Times(op, n)| ==> Times(op, n)[j] == op
  {
    if n > 0 {
      TimesHasOnly(op, n - 1);
    }
  }

  /** The first `k` entries of a feed fed by a queue are those of the direct application,
      whatever the dice, exactly when each of them has been among the best `max` ever since
      it was last added. */
  lemma DrainedFeedReadsAsDirect(jobs: seq<Job>, user: string, score: Scoring, max: nat, k: nat)
    requires forall i :: 0 <= i < |jobs| ==> ProperJob(jobs[i])
    ensures (forall log :: Schedule(log, Direct(jobs, user), max) ==>
               TopOf(log, score, k) == TopOf(Direct(jobs, user), score, k))
       <==> SteadyTop(Direct(jobs, user), score, max, k)
  {
    DirectHasNoTrims(jobs, user);
    TrimIsInvisibleIff(Direct(jobs, user), score, max, k);
  }

  lemma StepIsIdempotent(run: seq<Op>, op: Op, score: Scoring)
    requires !op.Trim?
    ensures RedisStep(RedisStep(RedisRun(run, score), op, score), op, score) == RedisStep(RedisRun(run, score), op, score)
  {
    RunIsScored(run, score);
    var ids := RedisRun(run, score).Keys;
    StepOnIds(ids, op, score);
    StepOnIds(IdsAfter(ids, op, score), op, score);
    assert IdsAfter(IdsAfter(ids, op, score), op, score) == IdsAfter(ids, op, score);
  }

  /** Immediate redelivery of a job changes nothing: its operation is idempotent. */
  lemma {:induction false} RedeliveryChangesNothing(run: seq<Op>, op: Op, score: Scoring, n: nat)
    requires !op.Trim? && n > 0
    ensures RedisRun(run + Times(op, n), score) == RedisStep(RedisRun(run, score), op, score)
  {
    hide *;
    var before := run + Times(op, n - 1);
    TimesSnoc(run, op, n);
    RunSnoc(before, op, score);
    if n > 1 {
      RedeliveryChangesNothing(run, op, score, n - 1);
      StepIsIdempotent(run, op, score);
    } else {
      TimesNone(run, op);
    }
  }

  lemma TimesSnoc(run: seq<Op>, op: Op, n: nat)
    requires n > 0
    ensures run + Times(op, n) == run + Times(op, n - 1) + [op]
  {
  }

  lemma TimesNone(run: seq<Op>, op: Op)
    ensures run + Times(op, 0) == run
  {
  }

  // ---- the port's worker ----

  /** The (feed class, user) pairs the worker is meant to visit, in order. */
  function Visits(feedClasses: seq<string>, followerIds: seq<string>): seq<FeedKey> {
    if feedClasses == [] then []
    else seq(|followerIds|, i requires 0 <= i < |followerIds| => (feedClasses[0], followerIds[i])) +
         Visits(feedClasses[1..], followerIds)
  }

  /** src/task/setupTask.ts returns from inside the chunk loop: whatever the number of
      classes and chunks, only the first chunk of the first class is handled. */
  function PortVisits(feedClasses: seq<string>, followerIds: seq<string>, size: nat): seq<FeedKey> {
    if feedClasses == [] || Chunk(followerIds, size) == [] then []
    else
      var first := Chunk(followerIds, size)[0];
      seq(|first|, i requires 0 <= i < |first| => (feedClasses[0], first[i]))
  }

  lemma {:induction false} VisitCount(feedClasses: seq<string>, followerIds: seq<string>)
    ensures |Visits(feedClasses, followerIds)| == |feedClasses| * |followerIds|
  {
    if feedClasses == [] {
      assert |feedClasses| == 0;
    } else {
      VisitCount(feedClasses[1..], followerIds);
      OneMore(|feedClasses|, |followerIds|);
    }
  }

  lemma OneMore(n: int, m: int)
    ensures (n - 1) * m + m == n * m
  {
  }

  /** Class after class, and within a class follower after follower. */
  lemma {:induction false} VisitPlace(feedClasses: seq<string>, followerIds: seq<string>, i: nat, j: nat)
    requires i < |feedClasses| && j < |followerIds|
    ensures i * |followerIds| + j < |Visits(feedClasses, followerIds)|
    ensures Visits(feedClasses, followerIds)[i * |followerIds| + j] == (feedClasses[i], followerIds[j])
  {
    if i > 0 {
      VisitPlace(feedClasses[1..], followerIds, i - 1, j);
      OneMore(i, |followerIds|);
    }
  }

  /** What the port does visit is the beginning of that: at most one chunk. */
  lemma PortVisitsBegin(feedClasses: seq<string>, followerIds: seq<string>, size: nat)
    requires size > 0 && feedClasses != []
    ensures var n := if |followerIds| <= size then |followerIds| else size;
      n <= |Visits(feedClasses, followerIds)| &&
      PortVisits(feedClasses, followerIds, size) == Visits(feedClasses, followerIds)[..n]
  {
    var all := Visits(feedClasses, followerIds);
    assert |all| >= |followerIds| && forall i :: 0 <= i < |followerIds| ==> all[i] == (feedClasses[0], followerIds[i]);
    if followerIds != [] {
      var first := Chunk(followerIds, size)[0];
      assert first == if |followerIds| <= size then followerIds else followerIds[..size];
    }
  }

  /** The port visits everyone exactly when there is nobody to visit, or one feed class and
      no more followers than fit in one chunk. */
  lemma PortVisitsAllIff(feedClasses: seq<string>, followerIds: seq<string>, size: nat)
    requires size > 0
    ensures PortVisits(feedClasses, followerIds, size) == Visits(feedClasses, followerIds)
       <==> followerIds == [] || feedClasses == [] || (|feedClasses| == 1 && |followerIds| <= size)
  {
    VisitCount(feedClasses, followerIds);
    if followerIds != [] && feedClasses != [] {
      var first := Chunk(followerIds, size)[0];
      assert |first| == if |followerIds| <= size then |followerIds| else size;
      if |feedClasses| == 1 {
        assert Visits(feedClasses[1..], followerIds) == [];
      } else {
        assert |feedClasses| * |followerIds| >= 2 * |followerIds|;
      }
    } else if feedClasses != [] {
      assert |Visits(feedClasses, followerIds)| == 0;
    }
  }
}
