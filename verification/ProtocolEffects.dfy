/** What the programs of module Protocol bring about when they run undisturbed: the managers'
    writes and jobs, and where the workers deliver them. */
module ProtocolEffects {
  import opened Activities
  import opened Chunks
  import opened Protocol
  import Hydration

  /** A program run from start to end, with what it has collected. */
  ghost function Ran(s: State, cmds: seq<Cmd>, collected: set<string>, seen: set<string>, separator: string)
    : (State, set<string>)
    decreases |cmds|
  {
    if cmds == [] then (s, collected)
    else
      var (t, c) := Exec(s, Proc(cmds, collected), seen, separator);
      Ran(t, cmds[1..], c, seen, separator)
  }

  lemma {:induction false} RanConcat(s: State, a: seq<Cmd>, b: seq<Cmd>, collected: set<string>, seen: set<string>,
                                     separator: string)
    ensures var (t, c) := Ran(s, a, collected, seen, separator);
            Ran(s, a + b, collected, seen, separator) == Ran(t, b, c, seen, separator)
    decreases |a|
  {
    if a == [] {
      assert a + b == b;
    } else {
      assert (a + b)[0] == a[0] && (a + b)[1..] == a[1..] + b;
      var (t, c) := Exec(s, Proc(a, collected), seen, separator);
      RanConcat(t, a[1..], b, c, seen, separator);
    }
  }

  /** Steps of the protocol that let one process go on until it is done. */
  ghost function Finished(s: State, i: nat, seen: set<string>, feedClasses: seq<string>, separator: string): State
    requires i < |s.procs|
    decreases |s.procs[i].cmds|
  {
    if s.procs[i].cmds == [] then s
    else Finished(Next(s, Run(i, seen), feedClasses, separator), i, seen, feedClasses, separator)
  }

  lemma ExecIgnoresProcs(s: State, p: Proc, procs: seq<Proc>, seen: set<string>, separator: string)
    requires p.cmds != []
    ensures var (t, c) := Exec(s, p, seen, separator);
            Exec(s.(procs := procs), p, seen, separator) == (t.(procs := procs), c) && t.procs == s.procs
  {
  }

  lemma {:induction false} RanIgnoresProcs(s: State, cmds: seq<Cmd>, collected: set<string>, procs: seq<Proc>,
                                           seen: set<string>, separator: string)
    ensures var (t, c) := Ran(s, cmds, collected, seen, separator);
            Ran(s.(procs := procs), cmds, collected, seen, separator) == (t.(procs := procs), c) && t.procs == s.procs
    decreases |cmds|
  {
    if cmds != [] {
      var p := Proc(cmds, collected);
      ExecIgnoresProcs(s, p, procs, seen, separator);
      hide Exec;
      var (t, c) := Exec(s, p, seen, separator);
      RanIgnoresProcs(t, cmds[1..], c, procs, seen, separator);
    }
  }

  /** Running a program is what these steps amount to. */
  lemma {:induction false} FinishedIsRan(s: State, i: nat, seen: set<string>, feedClasses: seq<string>, separator: string)
    requires i < |s.procs|
    ensures var (t, c) := Ran(s, s.procs[i].cmds, s.procs[i].collected, seen, separator);
            Finished(s, i, seen, feedClasses, separator) == t.(procs := s.procs[i := Proc([], c)])
    decreases |s.procs[i].cmds|
  {
    var p := s.procs[i];
    if p.cmds == [] {
      assert s.procs[i := Proc([], p.collected)] == s.procs;
    } else {
      var (t, c) := Exec(s, p, seen, separator);
      var procs := s.procs[i := Proc(p.cmds[1..], c)];
      FinishedIsRan(t.(procs := procs), i, seen, feedClasses, separator);
      RanIgnoresProcs(t, p.cmds[1..], c, procs, seen, separator);
      hide Exec, Ran;
      assert procs[i := Proc([], Ran(t, p.cmds[1..], c, seen, separator).1)]
          == s.procs[i := Proc([], Ran(t, p.cmds[1..], c, seen, separator).1)];
    }
  }

  // ---- the managers ----

  function UserKey(userId: string): FeedKey { (USER_FEED, userId) }

  function Jobs(groups: seq<seq<string>>, add: bool, xs: seq<Activity>): seq<Job> {
    seq(|groups|, i requires 0 <= i < |groups| => FanoutJob(groups[i], add, xs))
  }

  lemma {:induction false} EnqueueAllDoes(s: State, groups: seq<seq<string>>, add: bool, xs: seq<Activity>,
                                          collected: set<string>, seen: set<string>, separator: string)
    ensures Ran(s, EnqueueAll(groups, add, xs), collected, seen, separator)
         == (s.(queue := s.queue + Jobs(groups, add, xs)), collected)
    decreases |groups|
  {
    if groups == [] {
      assert s.queue + Jobs(groups, add, xs) == s.queue;
    } else {
      var job := FanoutJob(groups[0], add, xs);
      EnqueueAllDoes(s.(queue := s.queue + [job]), groups[1..], add, xs, collected, seen, separator);
      assert EnqueueAll(groups, add, xs)[1..] == EnqueueAll(groups[1..], add, xs);
      assert s.queue + [job] + Jobs(groups[1..], add, xs) == s.queue + Jobs(groups, add, xs);
    }
  }

  /** The body is stored, the personal feed refers to it, every follower group gets its job. */
  lemma AddUserActivityDoes(s: State, userId: string, x: Activity, groups: seq<seq<string>>, seen: set<string>,
                            separator: string)
    ensures Ran(s, AddUserActivity(userId, x, groups), {}, seen, separator).0
         == s.(store := s.store[x.id := x],
               timelines := s.timelines[UserKey(userId) := Timeline(s, UserKey(userId)) + {x.id}],
               queue := s.queue + Jobs(groups, true, [x]))
  {
    var key := UserKey(userId);
    var first := [Insert(x), AddId(key, x.id)];
    RanConcat(s, first, EnqueueAll(groups, true, [x]), {}, seen, separator);
    var t := s.(store := s.store[x.id := x]);
    var u := t.(timelines := s.timelines[key := Timeline(s, key) + {x.id}]);
    assert first[1..] == [AddId(key, x.id)] && first[1..][1..] == [];
    assert Ran(t, first[1..], {}, seen, separator) == (u, {});
    EnqueueAllDoes(u, groups, true, [x], {}, seen, separator);
  }

  /** The personal feed loses the id, every follower group gets its job, the body stays. */
  lemma RemoveUserActivityDoes(s: State, userId: string, x: Activity, groups: seq<seq<string>>, seen: set<string>,
                               separator: string)
    ensures Ran(s, RemoveUserActivity(userId, x, groups), {}, seen, separator).0
         == s.(timelines := s.timelines[UserKey(userId) := Timeline(s, UserKey(userId)) - {x.id}],
               queue := s.queue + Jobs(groups, false, [x]))
  {
    var key := UserKey(userId);
    var cmds := RemoveUserActivity(userId, x, groups);
    assert cmds[1..] == EnqueueAll(groups, false, [x]);
    EnqueueAllDoes(s.(timelines := s.timelines[key := Timeline(s, key) - {x.id}]), groups, false, [x], {}, seen, separator);
  }

  /** `t` is `s` but for its store, its queue and the timelines of `keys`. */
  ghost predicate OnlyAt(s: State, t: State, keys: set<FeedKey>) {
    t.procs == s.procs && t.crashed == s.crashed && forall k :: k !in keys ==> Timeline(t, k) == Timeline(s, k)
  }

  lemma {:induction false} InsertAllDoes(s: State, xs: seq<Activity>, collected: set<string>, seen: set<string>,
                                         separator: string)
    ensures Ran(s, InsertAll(xs), collected, seen, separator) == (s.(store := Hydration.Stored(s.store, xs)), collected)
    decreases |xs|
  {
    if xs != [] {
      InsertAllDoes(s.(store := s.store[xs[0].id := xs[0]]), xs[1..], collected, seen, separator);
      assert InsertAll(xs)[1..] == InsertAll(xs[1..]);
    }
  }

  lemma {:induction false} AddAllDoes(s: State, key: FeedKey, xs: seq<Activity>, collected: set<string>, seen: set<string>,
                                      separator: string)
    ensures var (t, c) := Ran(s, AddAll(key, xs), collected, seen, separator);
            OnlyAt(s, t, {key}) && t.store == s.store && t.queue == s.queue && c == collected &&
            Timeline(t, key) == Timeline(s, key) + IdsIn(xs)
    decreases |xs|
  {
    if xs != [] {
      var s1 := s.(timelines := s.timelines[key := Timeline(s, key) + {xs[0].id}]);
      AddAllDoes(s1, key, xs[1..], collected, seen, separator);
      assert AddAll(key, xs)[1..] == AddAll(key, xs[1..]);
      IdsInCons(xs);
      assert forall k :: k != key ==> Timeline(s1, k) == Timeline(s, k);
    }
  }

  lemma {:induction false} RemoveAllDoes(s: State, key: FeedKey, xs: seq<Activity>, collected: set<string>,
                                         seen: set<string>, separator: string)
    ensures var (t, c) := Ran(s, RemoveAll(key, xs), collected, seen, separator);
            OnlyAt(s, t, {key}) && t.store == s.store && t.queue == s.queue && c == collected &&
            Timeline(t, key) == Timeline(s, key) - IdsIn(xs)
    decreases |xs|
  {
    if xs != [] {
      var s1 := s.(timelines := s.timelines[key := Timeline(s, key) - {xs[0].id}]);
      RemoveAllDoes(s1, key, xs[1..], collected, seen, separator);
      assert RemoveAll(key, xs)[1..] == RemoveAll(key, xs[1..]);
      IdsInCons(xs);
      assert forall k :: k != key ==> Timeline(s1, k) == Timeline(s, k);
    }
  }

  // ---- importing in chunks ----

  function AllJobs(groups: seq<seq<string>>, chunks: seq<seq<Activity>>): seq<Job> {
    if chunks == [] then [] else Jobs(groups, true, chunks[0]) + AllJobs(groups, chunks[1..])
  }

  lemma {:induction false} StoredConcat(store: Hydration.Store, a: seq<Activity>, b: seq<Activity>)
    ensures Hydration.Stored(store, a + b) == Hydration.Stored(Hydration.Stored(store, a), b)
    decreases |a|
  {
    if a == [] {
      assert a + b == b;
    } else {
      assert (a + b)[0] == a[0] && (a + b)[1..] == a[1..] + b;
      StoredConcat(store[a[0].id := a[0]], a[1..], b);
    }
  }

  lemma IdsInConcat(a: seq<Activity>, b: seq<Activity>)
    ensures IdsIn(a + b) == IdsIn(a) + IdsIn(b)
  {
    var all := a + b;
    forall i | 0 <= i < |all| ensures all[i].id in IdsIn(a) + IdsIn(b) {
      assert all[i] == if i < |a| then a[i] else b[i - |a|];
    }
    forall i | 0 <= i < |a| ensures a[i].id in IdsIn(all) {
      assert all[i] == a[i];
    }
    forall i | 0 <= i < |b| ensures b[i].id in IdsIn(all) {
      assert all[|a| + i] == b[i];
    }
  }

  /** One chunk: bodies, personal feed, jobs. */
  lemma OneChunkDoes(s: State, userId: string, xs: seq<Activity>, groups: seq<seq<string>>, collected: set<string>,
                     seen: set<string>, separator: string)
    ensures var cmds := InsertAll(xs) + AddAll(UserKey(userId), xs) + EnqueueAll(groups, true, xs);
            var (t, c) := Ran(s, cmds, collected, seen, separator);
            OnlyAt(s, t, {UserKey(userId)}) && c == collected &&
            t.store == Hydration.Stored(s.store, xs) && t.queue == s.queue + Jobs(groups, true, xs) &&
            Timeline(t, UserKey(userId)) == Timeline(s, UserKey(userId)) + IdsIn(xs)
  {
    hide Exec;
    var a, b, d := InsertAll(xs), AddAll(UserKey(userId), xs), EnqueueAll(groups, true, xs);
    RanConcat(s, a + b, d, collected, seen, separator);
    RanConcat(s, a, b, collected, seen, separator);
    InsertAllDoes(s, xs, collected, seen, separator);
    var s1 := s.(store := Hydration.Stored(s.store, xs));
    AddAllDoes(s1, UserKey(userId), xs, collected, seen, separator);
    var s2 := Ran(s1, b, collected, seen, separator).0;
    EnqueueAllDoes(s2, groups, true, xs, collected, seen, separator);
  }

  /** All activities are stored and in the personal feed, and each follower group gets one
      job a chunk. */
  lemma {:induction false} BatchImportDoes(s: State, userId: string, chunks: seq<seq<Activity>>, groups: seq<seq<string>>,
                                           collected: set<string>, seen: set<string>, separator: string)
    ensures var t := Ran(s, BatchImport(userId, chunks, groups), collected, seen, separator).0;
            OnlyAt(s, t, {UserKey(userId)}) &&
            t.store == Hydration.Stored(s.store, Concat(chunks)) && t.queue == s.queue + AllJobs(groups, chunks) &&
            Timeline(t, UserKey(userId)) == Timeline(s, UserKey(userId)) + IdsIn(Concat(chunks))
    decreases |chunks|
  {
    hide Exec;
    if chunks == [] {
      assert s.queue + AllJobs(groups, chunks) == s.queue;
      assert Timeline(s, UserKey(userId)) + IdsIn([]) == Timeline(s, UserKey(userId));
    } else {
      var xs, rest := chunks[0], chunks[1..];
      var first := InsertAll(xs) + AddAll(UserKey(userId), xs) + EnqueueAll(groups, true, xs);
      RanConcat(s, first, BatchImport(userId, rest, groups), collected, seen, separator);
      OneChunkDoes(s, userId, xs, groups, collected, seen, separator);
      assert BatchImport(userId, chunks, groups) == first + BatchImport(userId, rest, groups);
      assert AllJobs(groups, chunks) == Jobs(groups, true, xs) + AllJobs(groups, rest);
      hide Ran, BatchImport, InsertAll, AddAll, EnqueueAll, Jobs, AllJobs, Hydration.Stored, IdsIn, Concat;
      var t := Ran(s, first, collected, seen, separator).0;
      BatchImportDoes(t, userId, rest, groups, collected, seen, separator);
      HeadOfConcat(chunks);
      StoredConcat(s.store, xs, Concat(rest));
      IdsInConcat(xs, Concat(rest));
      assert s.queue + Jobs(groups, true, xs) + AllJobs(groups, rest) == s.queue + AllJobs(groups, chunks);
    }
  }

  lemma HeadOfConcat(chunks: seq<seq<Activity>>)
    requires chunks != []
    ensures Concat(chunks) == chunks[0] + Concat(chunks[1..])
  {
    assert chunks == [chunks[0]] + chunks[1..];
    ConcatAppend([chunks[0]], chunks[1..]);
    ConcatSnoc([chunks[0]], 0);
    assert [chunks[0]][..0] == [] && [chunks[0]][..1] == [chunks[0]];
  }

  /** The chunk size changes neither what is stored nor any timeline. */
  lemma ImportIgnoresChunkSize(s: State, userId: string, xs: seq<Activity>, m: nat, n: nat, groups: seq<seq<string>>,
                               seen: set<string>, separator: string)
    requires m > 0 && n > 0
    ensures var t := Ran(s, BatchImport(userId, Chunk(xs, m), groups), {}, seen, separator).0;
            var u := Ran(s, BatchImport(userId, Chunk(xs, n), groups), {}, seen, separator).0;
            t.store == u.store == Hydration.Stored(s.store, xs) && forall key :: Timeline(t, key) == Timeline(u, key)
  {
    hide Ran;
    ConcatOfChunks(xs, m);
    ConcatOfChunks(xs, n);
    BatchImportDoes(s, userId, Chunk(xs, m), groups, {}, seen, separator);
    BatchImportDoes(s, userId, Chunk(xs, n), groups, {}, seen, separator);
  }

  // ---- the workers ----

  function KeySet(keys: seq<FeedKey>): set<FeedKey> { set k | k in keys }

  lemma {:induction false} KeysOfHolds(feedClasses: seq<string>, users: seq<string>)
    ensures forall c, u :: (c, u) in KeysOf(feedClasses, users) <==> c in feedClasses && u in users
  {
    if feedClasses != [] {
      KeysOfHolds(feedClasses[1..], users);
      var head := seq(|users|, i requires 0 <= i < |users| => (feedClasses[0], users[i]));
      assert feedClasses == [feedClasses[0]] + feedClasses[1..];
      forall c, u ensures (c, u) in head <==> c == feedClasses[0] && u in users {
        if u in users {
          var i :| 0 <= i < |users| && users[i] == u;
          assert head[i] == (feedClasses[0], u);
        }
      }
    }
  }

  function After(ids: set<string>, add: bool, xs: seq<Activity>): set<string> {
    if add then ids + IdsIn(xs) else ids - IdsIn(xs)
  }

  /** Every feed of the list gains, or loses, exactly these activities. */
  lemma {:induction false} FanoutToDoes(s: State, keys: seq<FeedKey>, add: bool, xs: seq<Activity>, collected: set<string>,
                                        seen: set<string>, separator: string)
    ensures var (t, c) := Ran(s, FanoutTo(keys, add, xs), collected, seen, separator);
            OnlyAt(s, t, KeySet(keys)) && t.store == s.store && t.queue == s.queue && c == collected &&
            forall k :: k in keys ==> Timeline(t, k) == After(Timeline(s, k), add, xs)
    decreases |keys|
  {
    hide Exec;
    if keys != [] {
      var first := if add then AddAll(keys[0], xs) else RemoveAll(keys[0], xs);
      RanConcat(s, first, FanoutTo(keys[1..], add, xs), collected, seen, separator);
      AddAllDoes(s, keys[0], xs, collected, seen, separator);
      RemoveAllDoes(s, keys[0], xs, collected, seen, separator);
      var t := Ran(s, first, collected, seen, separator).0;
      assert Timeline(t, keys[0]) == After(Timeline(s, keys[0]), add, xs);
      FanoutToDoes(t, keys[1..], add, xs, collected, seen, separator);
      hide Ran, FanoutTo, IdsIn, AddAll, RemoveAll;
      assert keys == [keys[0]] + keys[1..];
    }
  }

  /** Jobs handled one after the other, each to its end. */
  ghost function Delivered(s: State, jobs: seq<Job>, feedClasses: seq<string>, seen: set<string>, separator: string): State
    decreases |jobs|
  {
    if jobs == [] then s
    else
      Delivered(Ran(s, WorkOn(jobs[0], feedClasses), {}, seen, separator).0, jobs[1..], feedClasses, seen, separator)
  }

  predicate InSome(u: string, groups: seq<seq<string>>) {
    exists i :: 0 <= i < |groups| && u in groups[i]
  }

  /** The jobs of a fanout reach every user of every group in every feed class, whatever the
      grouping, and nobody else. */
  lemma {:induction false} JobsDeliver(s: State, groups: seq<seq<string>>, add: bool, xs: seq<Activity>,
                                       feedClasses: seq<string>, seen: set<string>, separator: string)
    ensures var t := Delivered(s, Jobs(groups, add, xs), feedClasses, seen, separator);
            t.store == s.store && t.queue == s.queue && t.crashed == s.crashed &&
            forall c, u :: Timeline(t, (c, u)) ==
              if c in feedClasses && InSome(u, groups) then After(Timeline(s, (c, u)), add, xs) else Timeline(s, (c, u))
    decreases |groups|
  {
    hide Ran;
    if groups != [] {
      var keys := KeysOf(feedClasses, groups[0]);
      var t := Ran(s, FanoutTo(keys, add, xs), {}, seen, separator).0;
      assert Jobs(groups, add, xs)[1..] == Jobs(groups[1..], add, xs);
      FanoutToDoes(s, keys, add, xs, {}, seen, separator);
      KeysOfHolds(feedClasses, groups[0]);
      JobsDeliver(t, groups[1..], add, xs, feedClasses, seen, separator);
      forall u ensures InSome(u, groups) <==> u in groups[0] || InSome(u, groups[1..]) {
        InSomeCons(u, groups);
      }
    }
  }

  lemma InSomeCons(u: string, groups: seq<seq<string>>)
    requires groups != []
    ensures InSome(u, groups) <==> u in groups[0] || InSome(u, groups[1..])
  {
    if InSome(u, groups) && u !in groups[0] {
      var i :| 0 <= i < |groups| && u in groups[i];
      assert u in groups[1..][i - 1];
    }
    if InSome(u, groups[1..]) {
      var i :| 0 <= i < |groups| - 1 && u in groups[1..][i];
      assert u in groups[i + 1];
    }
  }

  /** Publishing, as a whole: once the jobs of the call are done, the activity is stored, in
      the personal feed, and in the feeds of exactly the followers. */
  lemma AddReachesFollowers(s: State, userId: string, x: Activity, groups: seq<seq<string>>, feedClasses: seq<string>,
                            seen: set<string>, separator: string)
    requires USER_FEED !in feedClasses
    ensures var t := Ran(s, AddUserActivity(userId, x, groups), {}, seen, separator).0;
            var jobs := Jobs(groups, true, [x]);
            var u := Delivered(t, jobs, feedClasses, seen, separator);
            t.queue == s.queue + jobs &&
            u.store == s.store[x.id := x] && x.id in Timeline(u, UserKey(userId)) &&
            forall c, v :: c in feedClasses ==>
              Timeline(u, (c, v)) == if InSome(v, groups) then Timeline(s, (c, v)) + {x.id} else Timeline(s, (c, v))
  {
    hide Ran;
    AddUserActivityDoes(s, userId, x, groups, seen, separator);
    var t := Ran(s, AddUserActivity(userId, x, groups), {}, seen, separator).0;
    JobsDeliver(t, groups, true, [x], feedClasses, seen, separator);
    assert IdsIn([x]) == {x.id} by { assert [x][0] == x; }
  }

  lemma {:induction false} SweepAllDoes(s: State, keys: seq<FeedKey>, sources: seq<string>, collected: set<string>,
                                        seen: set<string>, separator: string)
    requires forall k :: k in keys ==> Timeline(s, k) <= seen && Timeline(s, k) <= s.store.Keys
    ensures var t := Ran(s, SweepAll(keys, sources), collected, seen, separator).0;
            OnlyAt(s, t, KeySet(keys)) && t.store == s.store && t.queue == s.queue &&
            forall k :: k in keys ==>
              Timeline(t, k) == Timeline(s, k) - Belonging(s.store, Timeline(s, k), sources, separator)
    decreases |keys|
  {
    if keys != [] {
      var key, rest := keys[0], keys[1..];
      var left := Timeline(s, key) - Belonging(s.store, Timeline(s, key), sources, separator);
      FirstSweep(s, keys, sources, collected, seen, separator);
      hide Exec, Belonging;
      var t := WithTimeline(s, key, left);
      TimelinesOf(s, key, left);
      hide WithTimeline;
      forall k | k in rest ensures Timeline(t, k) <= seen && Timeline(t, k) <= s.store.Keys {
        assert k in keys && Timeline(s, k) <= seen;
      }
      SweepAllDoes(t, rest, sources, collected, seen, separator);
      assert SweepAll(keys, sources)[1..] == SweepAll(rest, sources);
      SweptTwice(s.store, Timeline(s, key), sources, separator);
      assert Ran(s, SweepAll(keys, sources), collected, seen, separator)
          == Ran(t, SweepAll(rest, sources), collected, seen, separator);
      hide Ran;
      assert forall k :: k in keys <==> k == key || k in rest;
    }
  }

  function WithTimeline(s: State, key: FeedKey, ids: set<string>): State {
    s.(timelines := s.timelines[key := ids])
  }

  lemma TimelinesOf(s: State, key: FeedKey, ids: set<string>)
    ensures var t := WithTimeline(s, key, ids);
      t.store == s.store && t.queue == s.queue && t.procs == s.procs && t.crashed == s.crashed &&
      forall k :: Timeline(t, k) == if k == key then ids else Timeline(s, k)
  {
  }

  lemma FirstSweep(s: State, keys: seq<FeedKey>, sources: seq<string>, collected: set<string>, seen: set<string>,
                   separator: string)
    requires keys != [] && Timeline(s, keys[0]) <= seen && Timeline(s, keys[0]) <= s.store.Keys
    ensures var all := Timeline(s, keys[0]);
      Exec(s, Proc(SweepAll(keys, sources), collected), seen, separator)
      == (WithTimeline(s, keys[0], all - Belonging(s.store, all, sources, separator)), collected)
  {
    hide Belonging;
    var all := Timeline(s, keys[0]);
    assert all * seen == all;
    assert SweepAll(keys, sources)[0] == Sweep(keys[0], sources);
  }

  lemma SweptTwice(store: Hydration.Store, all: set<string>, sources: seq<string>, separator: string)
    ensures var left := all - Belonging(store, all, sources, separator);
            left - Belonging(store, left, sources, separator) == left
  {
  }

  /** A whole unfollow: in every feed of the user exactly what belongs to the sources goes. */
  lemma UnfollowDoes(s: State, userId: string, sources: seq<string>, feedClasses: seq<string>, seen: set<string>,
                     separator: string)
    requires forall c :: c in feedClasses ==>
      Timeline(s, (c, userId)) <= seen && Timeline(s, (c, userId)) <= s.store.Keys
    ensures var t := Ran(s, WorkOn(UnfollowJob(userId, sources), feedClasses), {}, seen, separator).0;
            t.store == s.store && t.queue == s.queue && t.crashed == s.crashed &&
            forall c, u :: Timeline(t, (c, u)) ==
              if c in feedClasses && u == userId
              then Timeline(s, (c, u)) - Belonging(s.store, Timeline(s, (c, u)), sources, separator)
              else Timeline(s, (c, u))
  {
    hide Ran, Belonging;
    var keys := KeysOf(feedClasses, [userId]);
    KeysOfHolds(feedClasses, [userId]);
    forall k | k in keys ensures Timeline(s, k) <= seen && Timeline(s, k) <= s.store.Keys {
      assert (k.0, k.1) in keys;
    }
    SweepAllDoes(s, keys, sources, {}, seen, separator);
  }

  /** What a follow collects: of each target's user feed, as far as it was read, what belongs
      to that target. */
  ghost function Copies(s: State, targets: seq<string>, seen: set<string>, separator: string): set<string> {
    if targets == [] then {}
    else Belonging(s.store, Timeline(s, UserKey(targets[0])) * seen, [targets[0]], separator) +
         Copies(s, targets[1..], seen, separator)
  }

  lemma {:induction false} CollectAllDoes(s: State, targets: seq<string>, collected: set<string>, seen: set<string>,
                                          separator: string)
    requires forall u :: u in targets ==> Timeline(s, UserKey(u)) <= s.store.Keys
    ensures Ran(s, CollectAll(targets), collected, seen, separator)
         == (s, collected + Copies(s, targets, seen, separator))
    decreases |targets|
  {
    if targets == [] {
      assert collected + {} == collected;
    } else {
      var mine := Belonging(s.store, Timeline(s, UserKey(targets[0])) * seen, [targets[0]], separator);
      assert Timeline(s, UserKey(targets[0])) <= s.store.Keys;
      assert Exec(s, Proc(CollectAll(targets), collected), seen, separator) == (s, collected + mine);
      CollectAllDoes(s, targets[1..], collected + mine, seen, separator);
      assert CollectAll(targets)[1..] == CollectAll(targets[1..]);
      assert collected + mine + Copies(s, targets[1..], seen, separator)
          == collected + Copies(s, targets, seen, separator);
    }
  }

  lemma {:induction false} SpreadAllDoes(s: State, keys: seq<FeedKey>, collected: set<string>, seen: set<string>,
                                         separator: string)
    ensures var t := Ran(s, SpreadAll(keys), collected, seen, separator).0;
            OnlyAt(s, t, KeySet(keys)) && t.store == s.store && t.queue == s.queue &&
            forall k :: k in keys ==> Timeline(t, k) == Timeline(s, k) + collected
    decreases |keys|
  {
    if keys != [] {
      var key, rest := keys[0], keys[1..];
      var ids := Timeline(s, key) + collected;
      var t := WithTimeline(s, key, ids);
      assert Exec(s, Proc(SpreadAll(keys), collected), seen, separator) == (t, collected);
      hide Exec;
      TimelinesOf(s, key, ids);
      hide WithTimeline;
      SpreadAllDoes(t, rest, collected, seen, separator);
      assert SpreadAll(keys)[1..] == SpreadAll(rest);
      assert Ran(s, SpreadAll(keys), collected, seen, separator) == Ran(t, SpreadAll(rest), collected, seen, separator);
      hide Ran;
      assert forall k :: k in keys <==> k == key || k in rest;
      assert ids + collected == ids;
    }
  }

  /** A whole follow: every feed of the user gains what was collected, nothing else changes. */
  lemma FollowDoes(s: State, userId: string, targets: seq<string>, feedClasses: seq<string>, seen: set<string>,
                   separator: string)
    requires forall u :: u in targets ==> Timeline(s, UserKey(u)) <= s.store.Keys
    ensures var t := Ran(s, WorkOn(FollowJob(userId, targets), feedClasses), {}, seen, separator).0;
            t.store == s.store && t.queue == s.queue && t.crashed == s.crashed &&
            forall c, u :: Timeline(t, (c, u)) ==
              if c in feedClasses && u == userId then Timeline(s, (c, u)) + Copies(s, targets, seen, separator)
              else Timeline(s, (c, u))
  {
    hide Ran;
    var keys := KeysOf(feedClasses, [userId]);
    KeysOfHolds(feedClasses, [userId]);
    RanConcat(s, CollectAll(targets), SpreadAll(keys), {}, seen, separator);
    CollectAllDoes(s, targets, {}, seen, separator);
    assert {} + Copies(s, targets, seen, separator) == Copies(s, targets, seen, separator);
    SpreadAllDoes(s, keys, Copies(s, targets, seen, separator), seen, separator);
  }
}
