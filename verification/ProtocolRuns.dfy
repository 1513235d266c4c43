/** Runs of the protocol in which nobody interferes: a request is called, its program runs to
    the end, workers pick up its jobs one after the other and run to their ends. So what
    module ProtocolEffects says of programs holds of states that runs reach. */
module ProtocolRuns {
  import opened Ranking
  import opened Activities
  import opened Chunks
  import opened Protocol
  import opened ProtocolEffects
  import Feed
  import Follow
  import Hydration

  // ---- schedules ----

  function Runs(i: nat, n: nat, seen: set<string>): seq<Event> {
    if n == 0 then [] else [Run(i, seen)] + Runs(i, n - 1, seen)
  }

  lemma {:induction false} RunsAreRuns(i: nat, n: nat, seen: set<string>)
    ensures forall j :: 0 <= j < |Runs(i, n, seen)| ==> Runs(i, n, seen)[j] == Run(i, seen)
  {
    if n > 0 {
      RunsAreRuns(i, n - 1, seen);
    }
  }

  lemma {:induction false} StateFromConcat(s: State, a: seq<Event>, b: seq<Event>, feedClasses: seq<string>, separator: string)
    ensures StateFrom(s, a + b, feedClasses, separator)
         == StateFrom(StateFrom(s, a, feedClasses, separator), b, feedClasses, separator)
    decreases |b|
  {
    hide Next;
    if b == [] {
      assert a + b == a;
    } else {
      var n := |b| - 1;
      assert (a + b)[..|a| + n] == a + b[..n] && (a + b)[|a| + n] == b[n];
      StateFromConcat(s, a, b[..n], feedClasses, separator);
    }
  }

  lemma OneEvent(s: State, e: Event, feedClasses: seq<string>, separator: string)
    ensures StateFrom(s, [e], feedClasses, separator) == Next(s, e, feedClasses, separator)
  {
    hide Next;
    assert [e][..0] == [];
  }

  /** Letting one process take its steps, as a schedule. */
  lemma {:induction false} FinishedBySchedule(s: State, i: nat, seen: set<string>, feedClasses: seq<string>, separator: string)
    requires i < |s.procs|
    ensures Finished(s, i, seen, feedClasses, separator)
         == StateFrom(s, Runs(i, |s.procs[i].cmds|, seen), feedClasses, separator)
    decreases |s.procs[i].cmds|
  {
    if s.procs[i].cmds != [] {
      var t := Next(s, Run(i, seen), feedClasses, separator);
      assert t.procs[i].cmds == s.procs[i].cmds[1..] && |t.procs| == |s.procs|;
      FinishedBySchedule(t, i, seen, feedClasses, separator);
      hide Next;
      OneEvent(s, Run(i, seen), feedClasses, separator);
      StateFromConcat(s, [Run(i, seen)], Runs(i, |s.procs[i].cmds| - 1, seen), feedClasses, separator);
    }
  }

  // ---- programs that queue nothing do not look at the queue ----

  ghost predicate QueuesNothing(cmds: seq<Cmd>) {
    forall i :: 0 <= i < |cmds| ==> !cmds[i].Enqueue?
  }

  lemma {:induction false} RanElsewhere(s: State, cmds: seq<Cmd>, collected: set<string>, queue: seq<Job>, procs: seq<Proc>,
                                        seen: set<string>, separator: string)
    requires QueuesNothing(cmds)
    ensures var (t, c) := Ran(s, cmds, collected, seen, separator);
            Ran(s.(queue := queue, procs := procs), cmds, collected, seen, separator)
            == (t.(queue := queue, procs := procs), c) && t.queue == s.queue && t.procs == s.procs
    decreases |cmds|
  {
    if cmds != [] {
      var p := Proc(cmds, collected);
      var (t, c) := Exec(s, p, seen, separator);
      assert Exec(s.(queue := queue, procs := procs), p, seen, separator) == (t.(queue := queue, procs := procs), c);
      assert t.queue == s.queue && t.procs == s.procs;
      hide Exec;
      RanElsewhere(t, cmds[1..], c, queue, procs, seen, separator);
    }
  }

  lemma {:induction false} FanoutQueuesNothing(keys: seq<FeedKey>, add: bool, xs: seq<Activity>)
    ensures QueuesNothing(FanoutTo(keys, add, xs))
  {
    if keys != [] {
      FanoutQueuesNothing(keys[1..], add, xs);
      AllQueueNothing(keys[0], xs);
    }
  }

  lemma {:induction false} AllQueueNothing(key: FeedKey, xs: seq<Activity>)
    ensures QueuesNothing(AddAll(key, xs)) && QueuesNothing(RemoveAll(key, xs))
  {
    if xs != [] {
      AllQueueNothing(key, xs[1..]);
    }
  }

  lemma WorkQueuesNothing(job: Job, feedClasses: seq<string>)
    ensures QueuesNothing(WorkOn(job, feedClasses))
  {
    match job
    case FanoutJob(followers, add, xs) => FanoutQueuesNothing(KeysOf(feedClasses, followers), add, xs);
    case FollowJob(user, targets) =>
      CollectAllReads(targets);
      SpreadAllReads(KeysOf(feedClasses, [user]));
    case UnfollowJob(user, sources) => SweepAllReads(KeysOf(feedClasses, [user]), sources);
  }

  lemma {:induction false} DeliveredElsewhere(s: State, jobs: seq<Job>, queue: seq<Job>, procs: seq<Proc>,
                                              feedClasses: seq<string>, seen: set<string>, separator: string)
    ensures var t := Delivered(s, jobs, feedClasses, seen, separator);
            Delivered(s.(queue := queue, procs := procs), jobs, feedClasses, seen, separator)
            == t.(queue := queue, procs := procs) && t.queue == s.queue && t.procs == s.procs
    decreases |jobs|
  {
    hide Ran, WorkOn;
    if jobs != [] {
      WorkQueuesNothing(jobs[0], feedClasses);
      RanElsewhere(s, WorkOn(jobs[0], feedClasses), {}, queue, procs, seen, separator);
      var t := Ran(s, WorkOn(jobs[0], feedClasses), {}, seen, separator).0;
      DeliveredElsewhere(t, jobs[1..], queue, procs, feedClasses, seen, separator);
    }
  }

  // ---- one turn of a worker ----

  /** A worker picks up the job at a place and carries it out. */
  function Turn(job: Job, place: nat, redeliver: bool, procs: nat, seen: set<string>, feedClasses: seq<string>): seq<Event> {
    [PickUp(place, redeliver)] + Runs(procs, |WorkOn(job, feedClasses)|, seen)
  }

  /** That is the job's program run once; the job leaves the queue unless it is to be
      delivered again. */
  lemma OneTurn(s: State, place: nat, redeliver: bool, seen: set<string>, feedClasses: seq<string>, separator: string)
    returns (p: Proc)
    requires place < |s.queue|
    ensures p.cmds == []
    ensures StateFrom(s, Turn(s.queue[place], place, redeliver, |s.procs|, seen, feedClasses), feedClasses, separator)
         == Delivered(s, [s.queue[place]], feedClasses, seen, separator).(
              queue := if redeliver then s.queue else s.queue[..place] + s.queue[place + 1..],
              procs := s.procs + [p])
  {
    var job, n := s.queue[place], |s.procs|;
    var cmds := WorkOn(job, feedClasses);
    var queue := if redeliver then s.queue else s.queue[..place] + s.queue[place + 1..];
    var procs := s.procs + [Proc(cmds, {})];
    var t := s.(queue := queue, procs := procs);
    assert Next(s, PickUp(place, redeliver), feedClasses, separator) == t;
    var (u, c) := Ran(s, cmds, {}, seen, separator);
    p := Proc([], c);
    WorkQueuesNothing(job, feedClasses);
    hide Next, Ran, WorkOn, Exec;
    OneEvent(s, PickUp(place, redeliver), feedClasses, separator);
    StateFromConcat(s, [PickUp(place, redeliver)], Runs(n, |cmds|, seen), feedClasses, separator);
    FinishedBySchedule(t, n, seen, feedClasses, separator);
    FinishedIsRan(t, n, seen, feedClasses, separator);
    RanElsewhere(s, cmds, {}, queue, procs, seen, separator);
    assert procs[n := p] == s.procs + [p];
    assert Delivered(s, [job], feedClasses, seen, separator) == u by {
      assert [job][1..] == [];
    }
  }

  // ---- a queue worked off ----

  function WorkOff(jobs: seq<Job>, place: nat, procs: nat, seen: set<string>, feedClasses: seq<string>): seq<Event> {
    if jobs == [] then []
    else Turn(jobs[0], place, false, procs, seen, feedClasses) + WorkOff(jobs[1..], place, procs + 1, seen, feedClasses)
  }

  /** `t` goes on with the processes of `s`; those that came later are done. */
  ghost predicate OthersDone(s: State, t: State) {
    |s.procs| <= |t.procs| && t.procs[..|s.procs|] == s.procs &&
    forall i :: |s.procs| <= i < |t.procs| ==> t.procs[i].cmds == []
  }

  lemma OthersDoneTwice(s: State, t: State, u: State)
    requires OthersDone(s, t) && OthersDone(t, u)
    ensures OthersDone(s, u)
  {
    assert forall i :: 0 <= i < |t.procs| ==> u.procs[i] == t.procs[i];
  }

  /** Workers that take the jobs behind `ahead` in order deliver exactly these jobs. */
  lemma {:induction false} WorkedOff(s: State, ahead: seq<Job>, jobs: seq<Job>, seen: set<string>, feedClasses: seq<string>,
                                     separator: string)
    requires s.queue == ahead + jobs
    ensures var t := StateFrom(s, WorkOff(jobs, |ahead|, |s.procs|, seen, feedClasses), feedClasses, separator);
            t == Delivered(s, jobs, feedClasses, seen, separator).(queue := ahead, procs := t.procs) &&
            OthersDone(s, t) && |t.procs| == |s.procs| + |jobs|
    decreases |jobs|
  {
    hide Next, WorkOn, Ran, Turn, Exec;
    if jobs == [] {
      assert ahead + jobs == ahead;
    } else {
      var turn := Turn(jobs[0], |ahead|, false, |s.procs|, seen, feedClasses);
      var rest := WorkOff(jobs[1..], |ahead|, |s.procs| + 1, seen, feedClasses);
      var p := OneTurn(s, |ahead|, false, seen, feedClasses, separator);
      StateFromConcat(s, turn, rest, feedClasses, separator);
      var t := StateFrom(s, turn, feedClasses, separator);
      assert s.queue[..|ahead|] + s.queue[|ahead| + 1..] == ahead + jobs[1..];
      var d := Delivered(s, [jobs[0]], feedClasses, seen, separator);
      DeliveredFirst(s, jobs, feedClasses, seen, separator);
      WorkedOff(t, ahead, jobs[1..], seen, feedClasses, separator);
      DeliveredElsewhere(d, jobs[1..], ahead + jobs[1..], s.procs + [p], feedClasses, seen, separator);
      OthersDoneTwice(s, t, StateFrom(t, rest, feedClasses, separator));
    }
  }

  lemma DeliveredFirst(s: State, jobs: seq<Job>, feedClasses: seq<string>, seen: set<string>, separator: string)
    requires jobs != []
    ensures Delivered(s, jobs, feedClasses, seen, separator)
         == Delivered(Delivered(s, [jobs[0]], feedClasses, seen, separator), jobs[1..], feedClasses, seen, separator)
  {
    hide Ran;
    assert [jobs[0]][1..] == [];
  }

  /** Redelivery: the job is still queued after the first turn, and the second turn delivers
      it once more. */
  lemma Redelivered(s: State, place: nat, seen: set<string>, feedClasses: seq<string>, separator: string)
    requires place < |s.queue|
    ensures var job := s.queue[place];
            var t := StateFrom(s, Turn(job, place, true, |s.procs|, seen, feedClasses), feedClasses, separator);
            var u := StateFrom(t, Turn(job, place, false, |t.procs|, seen, feedClasses), feedClasses, separator);
            t.queue == s.queue && u.queue == s.queue[..place] + s.queue[place + 1..] && OthersDone(s, u) &&
            u == Delivered(s, [job, job], feedClasses, seen, separator).(queue := u.queue, procs := u.procs)
  {
    hide StateFrom, Turn, Ran, WorkOn;
    var job := s.queue[place];
    var p := OneTurn(s, place, true, seen, feedClasses, separator);
    var t := StateFrom(s, Turn(job, place, true, |s.procs|, seen, feedClasses), feedClasses, separator);
    var q := OneTurn(t, place, false, seen, feedClasses, separator);
    var d := Delivered(s, [job], feedClasses, seen, separator);
    DeliveredElsewhere(d, [job], s.queue, s.procs + [p], feedClasses, seen, separator);
    DeliveredFirst(s, [job, job], feedClasses, seen, separator);
    assert [job, job][1..] == [job];
    assert t.procs + [q] == s.procs + [p, q];
  }

  /** For fanout jobs the second delivery changes nothing. */
  lemma FanoutTwice(s: State, job: Job, feedClasses: seq<string>, seen: set<string>, separator: string)
    requires job.FanoutJob?
    ensures var once := Delivered(s, [job], feedClasses, seen, separator);
            var twice := Delivered(s, [job, job], feedClasses, seen, separator);
            twice.store == once.store && forall c, u :: Timeline(twice, (c, u)) == Timeline(once, (c, u))
  {
    hide Ran, WorkOn;
    var once := Delivered(s, [job], feedClasses, seen, separator);
    DeliveredFirst(s, [job, job], feedClasses, seen, separator);
    assert [job, job][1..] == [job];
    var groups := [job.followerIds];
    assert Jobs(groups, job.add, job.activities) == [job];
    JobsDeliver(s, groups, job.add, job.activities, feedClasses, seen, separator);
    JobsDeliver(once, groups, job.add, job.activities, feedClasses, seen, separator);
  }

  // ---- requests served ----

  /** A call, its program, and then its jobs. */
  function Serving(cmds: seq<Cmd>, jobs: seq<Job>, place: nat, procs: nat, seen: set<string>, feedClasses: seq<string>)
    : seq<Event>
  {
    [Call(cmds)] + Runs(procs, |cmds|, seen) + WorkOff(jobs, place, procs + 1, seen, feedClasses)
  }

  lemma {:induction false} WorkOffCallsNothing(jobs: seq<Job>, place: nat, procs: nat, seen: set<string>,
                                               feedClasses: seq<string>)
    ensures forall i :: 0 <= i < |WorkOff(jobs, place, procs, seen, feedClasses)| ==>
      !WorkOff(jobs, place, procs, seen, feedClasses)[i].Call?
  {
    hide WorkOn;
    if jobs != [] {
      WorkOffCallsNothing(jobs[1..], place, procs + 1, seen, feedClasses);
      RunsAreRuns(procs, |WorkOn(jobs[0], feedClasses)|, seen);
    }
  }

  /** The call and its program. */
  lemma CalledAndRun(s: State, cmds: seq<Cmd>, seen: set<string>, feedClasses: seq<string>, separator: string)
    returns (u: State)
    ensures u == StateFrom(s, [Call(cmds)] + Runs(|s.procs|, |cmds|, seen), feedClasses, separator)
    ensures OthersDone(s, u) && |u.procs| == |s.procs| + 1
    ensures u == Ran(s, cmds, {}, seen, separator).0.(procs := u.procs)
  {
    var n := |s.procs|;
    var t := s.(procs := s.procs + [Proc(cmds, {})]);
    assert Next(s, Call(cmds), feedClasses, separator) == t;
    var (ran, c) := Ran(s, cmds, {}, seen, separator);
    hide Next, Ran, Exec;
    OneEvent(s, Call(cmds), feedClasses, separator);
    StateFromConcat(s, [Call(cmds)], Runs(n, |cmds|, seen), feedClasses, separator);
    FinishedBySchedule(t, n, seen, feedClasses, separator);
    FinishedIsRan(t, n, seen, feedClasses, separator);
    RanIgnoresProcs(s, cmds, {}, t.procs, seen, separator);
    assert t.procs[n := Proc([], c)] == s.procs + [Proc([], c)];
    u := ran.(procs := s.procs + [Proc([], c)]);
  }

  lemma ServingIsLegal(s: State, cmds: seq<Cmd>, jobs: seq<Job>, place: nat, procs: nat, seen: set<string>,
                       feedClasses: seq<string>, separator: string)
    requires ManagerCall(cmds, s.store)
    ensures Legal(s, Serving(cmds, jobs, place, procs, seen, feedClasses), feedClasses, separator)
  {
    RunsAreRuns(procs, |cmds|, seen);
    WorkOffCallsNothing(jobs, place, procs + 1, seen, feedClasses);
    hide Next, WorkOff, ManagerCall;
    assert Serving(cmds, jobs, place, procs, seen, feedClasses)[..0] == [];
  }

  /** Such a run is legal, and its end is what the program and its jobs bring about. */
  lemma Served(s: State, cmds: seq<Cmd>, jobs: seq<Job>, seen: set<string>, feedClasses: seq<string>, separator: string)
    requires Ran(s, cmds, {}, seen, separator).0.queue == s.queue + jobs
    ensures var events := Serving(cmds, jobs, |s.queue|, |s.procs|, seen, feedClasses);
            var t := StateFrom(s, events, feedClasses, separator);
            var ran := Ran(s, cmds, {}, seen, separator).0;
            (ManagerCall(cmds, s.store) ==> Legal(s, events, feedClasses, separator)) && OthersDone(s, t) &&
            t == Delivered(ran, jobs, feedClasses, seen, separator).(queue := s.queue, procs := t.procs)
  {
    hide StateFrom, Next, Ran, WorkOff, Exec, ManagerCall, Legal, Delivered, OthersDone, Runs;
    var n := |s.procs|;
    var more := WorkOff(jobs, |s.queue|, n + 1, seen, feedClasses);
    var ran := Ran(s, cmds, {}, seen, separator).0;
    if ManagerCall(cmds, s.store) {
      ServingIsLegal(s, cmds, jobs, |s.queue|, n, seen, feedClasses, separator);
    }
    var u := CalledAndRun(s, cmds, seen, feedClasses, separator);
    StateFromConcat(s, [Call(cmds)] + Runs(n, |cmds|, seen), more, feedClasses, separator);
    WorkedOff(u, s.queue, jobs, seen, feedClasses, separator);
    DeliveredElsewhere(ran, jobs, ran.queue, u.procs, feedClasses, seen, separator);
    OthersDoneTwice(s, u, StateFrom(u, more, feedClasses, separator));
  }
}
