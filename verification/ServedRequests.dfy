/** Every request of a manager served without interference, from any state: a legal run at
    whose end the job queue is as before, all new processes are done, and exactly the
    timelines that should change have changed. */
module ServedRequests {
  import opened Ranking
  import opened Activities
  import opened Chunks
  import opened Protocol
  import opened ProtocolEffects
  import opened ProtocolRuns
  import Feed
  import Follow
  import Hydration

  /** The run that serves a request whose program queues `jobs`. */
  ghost function ServingOf(s: State, r: Request, jobs: seq<Job>, seen: set<string>, feedClasses: seq<string>): seq<Event> {
    Serving(ProgramOf(r), jobs, |s.queue|, |s.procs|, seen, feedClasses)
  }

  ghost function AfterServing(s: State, r: Request, jobs: seq<Job>, seen: set<string>, feedClasses: seq<string>,
                       separator: string): State
  {
    StateFrom(s, ServingOf(s, r, jobs, seen, feedClasses), feedClasses, separator)
  }

  /** Nothing is left over, and no read has failed. */
  ghost predicate Settled(s: State, t: State) {
    t.queue == s.queue && t.crashed == s.crashed && OthersDone(s, t)
  }

  predicate Follower(key: FeedKey, groups: seq<seq<string>>, feedClasses: seq<string>) {
    key.0 in feedClasses && InSome(key.1, groups)
  }

  lemma Serves(s: State, r: Request, jobs: seq<Job>, seen: set<string>, feedClasses: seq<string>, separator: string)
    returns (u: State)
    requires Ran(s, ProgramOf(r), {}, seen, separator).0.queue == s.queue + jobs
    requires r.RemoveRequest? ==> r.x.id in s.store
    ensures Legal(s, ServingOf(s, r, jobs, seen, feedClasses), feedClasses, separator)
    ensures u == Delivered(Ran(s, ProgramOf(r), {}, seen, separator).0, jobs, feedClasses, seen, separator)
    ensures var t := AfterServing(s, r, jobs, seen, feedClasses, separator);
            t == u.(queue := s.queue, procs := t.procs) && OthersDone(s, t)
  {
    hide Ran, ProgramOf, StateFrom, Legal;
    Served(s, ProgramOf(r), jobs, seen, feedClasses, separator);
    u := Delivered(Ran(s, ProgramOf(r), {}, seen, separator).0, jobs, feedClasses, seen, separator);
    assert ManagerCall(ProgramOf(r), s.store);
  }

  /** Publishing: the body is stored, and the id arrives in the personal feed and in every
      follower's feeds, and nowhere else. */
  lemma Published(s: State, userId: string, x: Activity, groups: seq<seq<string>>, seen: set<string>,
                  feedClasses: seq<string>, separator: string)
    requires USER_FEED !in feedClasses
    ensures var r, jobs := AddRequest(userId, x, groups), Jobs(groups, true, [x]);
            var t := AfterServing(s, r, jobs, seen, feedClasses, separator);
            Legal(s, ServingOf(s, r, jobs, seen, feedClasses), feedClasses, separator) && Settled(s, t) &&
            t.store == s.store[x.id := x] &&
            forall k :: Timeline(t, k) == Timeline(s, k) +
              if k == UserKey(userId) || Follower(k, groups, feedClasses) then {x.id} else {}
  {
    var r, jobs := AddRequest(userId, x, groups), Jobs(groups, true, [x]);
    assert IdsIn([x]) == {x.id} by { assert [x][0] == x; }
    assert ProgramOf(r) == AddUserActivity(userId, x, groups);
    hide Ran, ProgramOf, ServingOf, StateFrom, Legal, OthersDone;
    AddUserActivityDoes(s, userId, x, groups, seen, separator);
    var ran := Ran(s, ProgramOf(r), {}, seen, separator).0;
    JobsDeliver(ran, groups, true, [x], feedClasses, seen, separator);
    var u := Serves(s, r, jobs, seen, feedClasses, separator);
    forall k ensures Timeline(u, k) == Timeline(s, k) +
      if k == UserKey(userId) || Follower(k, groups, feedClasses) then {x.id} else {}
    {
      assert k == (k.0, k.1);
    }
  }

  /** Taking it back: the id leaves all these feeds, the body stays. */
  lemma Withdrawn(s: State, userId: string, x: Activity, groups: seq<seq<string>>, seen: set<string>,
                  feedClasses: seq<string>, separator: string)
    requires USER_FEED !in feedClasses && x.id in s.store
    ensures var r, jobs := RemoveRequest(userId, x, groups), Jobs(groups, false, [x]);
            var t := AfterServing(s, r, jobs, seen, feedClasses, separator);
            Legal(s, ServingOf(s, r, jobs, seen, feedClasses), feedClasses, separator) && Settled(s, t) &&
            t.store == s.store &&
            forall k :: Timeline(t, k) == Timeline(s, k) -
              if k == UserKey(userId) || Follower(k, groups, feedClasses) then {x.id} else {}
  {
    var r, jobs := RemoveRequest(userId, x, groups), Jobs(groups, false, [x]);
    assert IdsIn([x]) == {x.id} by { assert [x][0] == x; }
    assert ProgramOf(r) == RemoveUserActivity(userId, x, groups);
    hide Ran, ProgramOf, ServingOf, StateFrom, Legal, OthersDone;
    RemoveUserActivityDoes(s, userId, x, groups, seen, separator);
    var ran := Ran(s, ProgramOf(r), {}, seen, separator).0;
    JobsDeliver(ran, groups, false, [x], feedClasses, seen, separator);
    var u := Serves(s, r, jobs, seen, feedClasses, separator);
    forall k ensures Timeline(u, k) == Timeline(s, k) -
      if k == UserKey(userId) || Follower(k, groups, feedClasses) then {x.id} else {}
    {
      assert k == (k.0, k.1);
    }
  }

  // ---- an import ----

  lemma {:induction false} DeliveredConcat(s: State, a: seq<Job>, b: seq<Job>, feedClasses: seq<string>, seen: set<string>,
                                           separator: string)
    ensures Delivered(s, a + b, feedClasses, seen, separator)
         == Delivered(Delivered(s, a, feedClasses, seen, separator), b, feedClasses, seen, separator)
    decreases |a|
  {
    hide Ran, WorkOn;
    if a == [] {
      assert a + b == b;
    } else {
      assert (a + b)[0] == a[0] && (a + b)[1..] == a[1..] + b;
      DeliveredConcat(Ran(s, WorkOn(a[0], feedClasses), {}, seen, separator).0, a[1..], b, feedClasses, seen, separator);
    }
  }

  /** The jobs of all chunks together bring everything to every follower. */
  lemma {:induction false} AllJobsDeliver(s: State, groups: seq<seq<string>>, chunks: seq<seq<Activity>>,
                                          feedClasses: seq<string>, seen: set<string>, separator: string)
    ensures var t := Delivered(s, AllJobs(groups, chunks), feedClasses, seen, separator);
            t.store == s.store && t.queue == s.queue && t.crashed == s.crashed &&
            forall k :: Timeline(t, k) == Timeline(s, k) +
              if Follower(k, groups, feedClasses) then IdsIn(Concat(chunks)) else {}
    decreases |chunks|
  {
    assert IdsIn([]) == {};
    hide IdsIn, Jobs, InSome;
    if chunks != [] {
      var first, rest := Jobs(groups, true, chunks[0]), AllJobs(groups, chunks[1..]);
      DeliveredConcat(s, first, rest, feedClasses, seen, separator);
      hide Delivered, Concat;
      JobsDeliver(s, groups, true, chunks[0], feedClasses, seen, separator);
      var t := Delivered(s, first, feedClasses, seen, separator);
      forall k ensures Timeline(t, k) == Timeline(s, k) +
        if Follower(k, groups, feedClasses) then IdsIn(chunks[0]) else {}
      {
        assert k == (k.0, k.1);
      }
      AllJobsDeliver(t, groups, chunks[1..], feedClasses, seen, separator);
      HeadOfConcat(chunks);
      IdsInConcat(chunks[0], Concat(chunks[1..]));
    }
  }

  /** Importing in chunks: all bodies are stored, and all ids arrive where one would. */
  lemma Imported(s: State, userId: string, chunks: seq<seq<Activity>>, groups: seq<seq<string>>, seen: set<string>,
                 feedClasses: seq<string>, separator: string)
    requires USER_FEED !in feedClasses
    ensures var r, jobs := ImportRequest(userId, chunks, groups), AllJobs(groups, chunks);
            var t := AfterServing(s, r, jobs, seen, feedClasses, separator);
            Legal(s, ServingOf(s, r, jobs, seen, feedClasses), feedClasses, separator) && Settled(s, t) &&
            t.store == Hydration.Stored(s.store, Concat(chunks)) &&
            forall k :: Timeline(t, k) == Timeline(s, k) +
              if k == UserKey(userId) || Follower(k, groups, feedClasses) then IdsIn(Concat(chunks)) else {}
  {
    var r, jobs := ImportRequest(userId, chunks, groups), AllJobs(groups, chunks);
    assert ProgramOf(r) == BatchImport(userId, chunks, groups);
    hide Ran, ProgramOf, ServingOf, StateFrom, Legal, OthersDone, IdsIn, Concat, AllJobs, InSome;
    BatchImportDoes(s, userId, chunks, groups, {}, seen, separator);
    var ran := Ran(s, ProgramOf(r), {}, seen, separator).0;
    AllJobsDeliver(ran, groups, chunks, feedClasses, seen, separator);
    var u := Serves(s, r, jobs, seen, feedClasses, separator);
  }

  // ---- following and unfollowing ----

  lemma OneJobQueued(s: State, job: Job, seen: set<string>, separator: string)
    ensures Ran(s, [Enqueue(job)], {}, seen, separator).0 == s.(queue := s.queue + [job])
  {
    assert [Enqueue(job)][1..] == [];
  }

  /** What a follow copies, id by id. */
  lemma {:induction false} CopiesHold(s: State, targets: seq<string>, seen: set<string>, separator: string)
    ensures forall id :: id in Copies(s, targets, seen, separator) <==>
      id in seen && id in s.store &&
      exists u :: u in targets && id in Timeline(s, UserKey(u)) && Follow.Matches(s.store[id], [u], separator)
  {
    hide Follow.Matches;
    if targets != [] {
      CopiesHold(s, targets[1..], seen, separator);
      assert targets == [targets[0]] + targets[1..];
    }
  }

  lemma ServesOneJob(s: State, r: Request, job: Job, seen: set<string>, feedClasses: seq<string>, separator: string)
    returns (u: State)
    requires ProgramOf(r) == [Enqueue(job)]
    ensures Legal(s, ServingOf(s, r, [job], seen, feedClasses), feedClasses, separator)
    ensures u == Ran(s.(queue := s.queue + [job]), WorkOn(job, feedClasses), {}, seen, separator).0
    ensures var t := AfterServing(s, r, [job], seen, feedClasses, separator);
            t == u.(queue := s.queue, procs := t.procs) && OthersDone(s, t)
  {
    OneJobQueued(s, job, seen, separator);
    assert ProgramOf(r)[0] == Enqueue(job) && !r.RemoveRequest?;
    hide Ran, ServingOf, StateFrom, Legal, OthersDone, WorkOn;
    u := Serves(s, r, [job], seen, feedClasses, separator);
    assert [job][1..] == [];
  }

  /** Following: every feed of the user gains what is copied from the targets (CopiesHold),
      and no other timeline changes. */
  lemma Followed(s: State, userId: string, targets: seq<string>, seen: set<string>, feedClasses: seq<string>,
                 separator: string)
    requires forall u :: u in targets ==> Timeline(s, UserKey(u)) <= s.store.Keys
    ensures var r, jobs := FollowRequest(userId, targets), [FollowJob(userId, targets)];
            var t := AfterServing(s, r, jobs, seen, feedClasses, separator);
            Legal(s, ServingOf(s, r, jobs, seen, feedClasses), feedClasses, separator) && Settled(s, t) &&
            t.store == s.store &&
            forall k: FeedKey :: Timeline(t, k) == Timeline(s, k) +
              if k.0 in feedClasses && k.1 == userId then Copies(s, targets, seen, separator) else {}
  {
    var r, job := FollowRequest(userId, targets), FollowJob(userId, targets);
    var q := s.(queue := s.queue + [job]);
    hide Ran, ServingOf, AfterServing, Legal, OthersDone, WorkOn, Copies;
    var u := ServesOneJob(s, r, job, seen, feedClasses, separator);
    FollowDoes(q, userId, targets, feedClasses, seen, separator);
    CopiesIgnoreQueue(s, q, targets, seen, separator);
    forall k: FeedKey ensures Timeline(u, k) == Timeline(s, k) +
      if k.0 in feedClasses && k.1 == userId then Copies(s, targets, seen, separator) else {}
    {
      assert k == (k.0, k.1) && Timeline(q, k) == Timeline(s, k);
    }
  }

  lemma {:induction false} CopiesIgnoreQueue(s: State, q: State, targets: seq<string>, seen: set<string>, separator: string)
    requires q == s.(queue := q.queue)
    ensures Copies(q, targets, seen, separator) == Copies(s, targets, seen, separator)
  {
    if targets != [] {
      CopiesIgnoreQueue(s, q, targets[1..], seen, separator);
    }
  }

  /** Unfollowing: every feed of the user loses exactly what belongs to the sources, and no
      other timeline changes. */
  lemma Unfollowed(s: State, userId: string, sources: seq<string>, seen: set<string>, feedClasses: seq<string>,
                   separator: string)
    requires forall c :: c in feedClasses ==>
      Timeline(s, (c, userId)) <= seen && Timeline(s, (c, userId)) <= s.store.Keys
    ensures var r, jobs := UnfollowRequest(userId, sources), [UnfollowJob(userId, sources)];
            var t := AfterServing(s, r, jobs, seen, feedClasses, separator);
            Legal(s, ServingOf(s, r, jobs, seen, feedClasses), feedClasses, separator) && Settled(s, t) &&
            t.store == s.store &&
            forall k: FeedKey :: Timeline(t, k) == Timeline(s, k) -
              if k.0 in feedClasses && k.1 == userId then Belonging(s.store, Timeline(s, k), sources, separator) else {}
  {
    var r, job := UnfollowRequest(userId, sources), UnfollowJob(userId, sources);
    var q := s.(queue := s.queue + [job]);
    hide Ran, ServingOf, AfterServing, Legal, OthersDone, WorkOn, Belonging;
    var u := ServesOneJob(s, r, job, seen, feedClasses, separator);
    assert forall c :: Timeline(q, (c, userId)) == Timeline(s, (c, userId));
    UnfollowDoes(q, userId, sources, feedClasses, seen, separator);
    forall k: FeedKey ensures Timeline(u, k) == Timeline(s, k) -
      if k.0 in feedClasses && k.1 == userId then Belonging(s.store, Timeline(s, k), sources, separator) else {}
    {
      assert k == (k.0, k.1) && Timeline(q, k) == Timeline(s, k);
    }
  }

  // ---- what the remaining steps do ----

  /** A trim of the timeline behind a sorted set leaves its best `max`, and touches nothing
      else. */
  lemma TrimLeavesBest(s: State, key: FeedKey, z: ZSet, max: nat, feedClasses: seq<string>, separator: string)
    requires z.Keys == Timeline(s, key)
    ensures var t := Next(s, Trim(key, Keep(z, max).Keys), feedClasses, separator);
            t == s.(timelines := t.timelines) && |Timeline(t, key)| == Min(max, |Timeline(s, key)|) &&
            (forall m :: m in Timeline(t, key) <==> InTop(z, max, m)) &&
            forall k :: k != key ==> Timeline(t, k) == Timeline(s, k)
  {
    ListingOfKeep(z, max);
    var t := Next(s, Trim(key, Keep(z, max).Keys), feedClasses, separator);
    assert Timeline(t, key) == Keep(z, max).Keys;
    assert |Keep(z, max).Keys| == |Keep(z, max)| && |z.Keys| == |z|;
  }

  /** A worker's read crashes exactly when the bodies of what it reads are not all there. */
  lemma ReadCrashesIff(s: State, p: Proc, key: FeedKey, ids: seq<string>, seen: set<string>, separator: string)
    requires p.cmds != [] && (p.cmds[0].Sweep? || p.cmds[0].Collect?)
    requires key == if p.cmds[0].Sweep? then p.cmds[0].key else UserKey(p.cmds[0].userId)
    requires forall id :: id in ids <==> id in Timeline(s, key) && id in seen
    ensures Exec(s, p, seen, separator).0.crashed <==> s.crashed || Feed.BodiesOf(ids, s.store).None?
  {
    Feed.BodiesInOrder(ids, s.store);
    hide Feed.BodiesOf;
    assert (forall id :: id in ids ==> id in s.store) <==> forall i :: 0 <= i < |ids| ==> ids[i] in s.store;
  }
}
